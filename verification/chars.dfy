/** Character classes shared by the tokenizer, the number grammar and the
    variable-shape check. Only ASCII letters and digits are recognised. */
module Chars {

  predicate IsLetter(c: char) {
    'a' <= c <= 'z' || 'A' <= c <= 'Z'
  }

  predicate IsDigit(c: char) {
    '0' <= c <= '9'
  }

  /** Space, tab, line feed, vertical tab, form feed, carriage return. */
  predicate IsSpace(c: char) {
    c == ' ' || c == '\t' || c == '\n' || c == '\r' || c == '\U{000B}' || c == '\U{000C}'
  }

  predicate IsOperatorChar(c: char) {
    c == '+' || c == '-' || c == '*' || c == '/'
  }

  /** A character that may start a variable: a letter or an underscore. */
  predicate IsIdentStart(c: char) {
    IsLetter(c) || c == '_'
  }

  /** A character that may continue a variable: a letter, a digit or an underscore. */
  predicate IsIdentChar(c: char) {
    IsLetter(c) || IsDigit(c) || c == '_'
  }

  /** The variable shape: a letter or underscore followed by letters, digits or underscores. */
  predicate IsVariable(s: string) {
    |s| > 0 && IsIdentStart(s[0]) && forall i :: 0 <= i < |s| ==> IsIdentChar(s[i])
  }

  /** Whether no character of `s` is whitespace. */
  predicate NoSpace(s: string) {
    forall i :: 0 <= i < |s| ==> !IsSpace(s[i])
  }

  /** `s` with every whitespace character taken out. */
  function RemoveSpace(s: string): (r: string)
    ensures NoSpace(r)
    ensures |r| <= |s|
  {
    if s == [] then []
    else if IsSpace(s[0]) then RemoveSpace(s[1..])
    else [s[0]] + RemoveSpace(s[1..])
  }

  lemma {:induction false} RemoveSpaceAppend(a: string, b: string)
    ensures RemoveSpace(a + b) == RemoveSpace(a) + RemoveSpace(b)
  {
    if a == [] {
      assert a + b == b;
    } else {
      assert (a + b)[0] == a[0];
      assert (a + b)[1..] == a[1..] + b;
      RemoveSpaceAppend(a[1..], b);
      if !IsSpace(a[0]) {
        calc {
          RemoveSpace(a + b);
          [a[0]] + RemoveSpace(a[1..] + b);
          [a[0]] + (RemoveSpace(a[1..]) + RemoveSpace(b));
          ([a[0]] + RemoveSpace(a[1..])) + RemoveSpace(b);
        }
      }
    }
  }

  lemma {:induction false} RemoveSpaceOfNoSpace(s: string)
    requires NoSpace(s)
    ensures RemoveSpace(s) == s
  {
    if s != [] {
      RemoveSpaceOfNoSpace(s[1..]);
    }
  }

  /** `s` without its leading whitespace. */
  function TrimStart(s: string): (r: string)
    ensures |r| <= |s| && r == s[|s| - |r|..]
    ensures r == [] || !IsSpace(r[0])
    ensures forall i :: 0 <= i < |s| - |r| ==> IsSpace(s[i])
  {
    if s != [] && IsSpace(s[0]) then TrimStart(s[1..]) else s
  }

  /** `s` without its trailing whitespace. */
  function TrimEnd(s: string): (r: string)
    ensures |r| <= |s| && r == s[..|r|]
    ensures r == [] || !IsSpace(r[|r| - 1])
    ensures forall i :: |r| <= i < |s| ==> IsSpace(s[i])
  {
    if s != [] && IsSpace(s[|s| - 1]) then TrimEnd(s[..|s| - 1]) else s
  }

  /** `r` is `s` with the `a` characters before it and the rest after it
      removed, all of them whitespace. */
  predicate TrimmedAt(s: string, r: string, a: nat)
  {
    && a + |r| <= |s|
    && r == s[a..a + |r|]
    && (forall i :: 0 <= i < a ==> IsSpace(s[i]))
    && (forall i :: a + |r| <= i < |s| ==> IsSpace(s[i]))
  }

  /** `String.Trim`: `s` without its leading and trailing whitespace, and
      nothing else removed; a text without whitespace is left as it is. */
  function Trim(s: string): (r: string)
    ensures r == [] || (!IsSpace(r[0]) && !IsSpace(r[|r| - 1]))
    ensures exists a :: TrimmedAt(s, r, a)
    ensures NoSpace(s) ==> r == s
  {
    var t := TrimStart(s);
    var r := TrimEnd(t);
    BothEndsCut(s, t, r);
    r
  }

  /** Cutting whitespace off the front, then off the back, is one cut. */
  lemma BothEndsCut(s: string, t: string, r: string)
    requires |t| <= |s| && t == s[|s| - |t|..] && forall i :: 0 <= i < |s| - |t| ==> IsSpace(s[i])
    requires |r| <= |t| && r == t[..|r|] && forall i :: |r| <= i < |t| ==> IsSpace(t[i])
    ensures TrimmedAt(s, r, |s| - |t|)
    ensures NoSpace(s) ==> r == s
  {
    var a := |s| - |t|;
    assert forall i :: a + |r| <= i < |s| ==> s[i] == t[i - a];
    assert a > 0 ==> IsSpace(s[0]);
    assert |r| < |t| ==> IsSpace(s[|s| - 1]);
  }

  /** Trim removes exactly the leading and trailing whitespace: any way of
      cutting only whitespace off both ends that leaves no whitespace at
      either end of the rest gives `Trim(s)`. */
  lemma TrimUnique(s: string, r: string, a: nat)
    requires TrimmedAt(s, r, a)
    requires r == [] || (!IsSpace(r[0]) && !IsSpace(r[|r| - 1]))
    ensures r == Trim(s)
  {
    var t := Trim(s);
    var b :| TrimmedAt(s, t, b);
    if r == [] || t == [] {
      EmptyTrimmed(s, r, a, t, b);
      EmptyTrimmed(s, t, b, r, a);
    } else {
      SameCut(s, r, a, t, b);
    }
  }

  /** When one cut leaves nothing, the whole text is whitespace, so the other
      leaves nothing either. */
  lemma EmptyTrimmed(s: string, r: string, a: nat, t: string, b: nat)
    requires TrimmedAt(s, r, a) && TrimmedAt(s, t, b) && r == []
    requires t == [] || !IsSpace(t[0])
    ensures t == []
  {
  }

  /** Two cuts that leave non-empty texts without whitespace at either end
      are the same cut. */
  lemma SameCut(s: string, r: string, a: nat, t: string, b: nat)
    requires TrimmedAt(s, r, a) && TrimmedAt(s, t, b)
    requires r != [] && !IsSpace(r[0]) && !IsSpace(r[|r| - 1])
    requires t != [] && !IsSpace(t[0]) && !IsSpace(t[|t| - 1])
    ensures r == t
  {
    assert r[0] == s[a] && t[0] == s[b];
    assert a == b;
    assert r[|r| - 1] == s[a + |r| - 1] && t[|t| - 1] == s[b + |t| - 1];
    assert |r| == |t|;
  }
}
