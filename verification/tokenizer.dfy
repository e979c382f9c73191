/** The tokenizer `GetTokens`: an explicit scanner with the same ordered
    patterns as the source's regular expression. At each position the first
    pattern that matches wins: `(`, `)`, an operator, an identifier, a double
    literal, a whitespace run. Whitespace runs are dropped; characters at which
    no pattern matches are gathered into one unrecognised token. */
module Tokenizer {
  import opened Chars

  /** Number of digits in `s` from position `k` on, up to the first non-digit. */
  function DigitsFrom(s: string, k: nat): (n: nat)
    requires k <= |s|
    ensures k + n <= |s|
    ensures forall i :: k <= i < k + n ==> IsDigit(s[i])
    ensures k + n < |s| ==> !IsDigit(s[k + n])
    decreases |s| - k
  {
    if k == |s| || !IsDigit(s[k]) then 0 else 1 + DigitsFrom(s, k + 1)
  }

  /** Number of letters, digits and underscores in `s` from position `k` on. */
  function IdentFrom(s: string, k: nat): (n: nat)
    requires k <= |s|
    ensures k + n <= |s|
    ensures forall i :: k <= i < k + n ==> IsIdentChar(s[i])
    ensures k + n < |s| ==> !IsIdentChar(s[k + n])
    decreases |s| - k
  {
    if k == |s| || !IsIdentChar(s[k]) then 0 else 1 + IdentFrom(s, k + 1)
  }

  /** Number of whitespace characters in `s` from position `k` on. */
  function SpacesFrom(s: string, k: nat): (n: nat)
    requires k <= |s|
    ensures k + n <= |s|
    ensures forall i :: k <= i < k + n ==> IsSpace(s[i])
    ensures k + n < |s| ==> !IsSpace(s[k + n])
    decreases |s| - k
  {
    if k == |s| || !IsSpace(s[k]) then 0 else 1 + SpacesFrom(s, k + 1)
  }

  /** A character that may occur in a double literal. */
  predicate IsNumberChar(c: char) {
    IsDigit(c) || c == '.' || c == 'e' || c == 'E' || c == '+' || c == '-'
  }

  /** The mantissa alternatives `\d+\.\d*`, `\d*\.\d+` and `\d+`, tried in that order. */
  function MantissaLen(s: string): (n: nat)
    ensures n <= |s|
    ensures forall i :: 0 <= i < n ==> IsNumberChar(s[i])
  {
    var d := DigitsFrom(s, 0);
    if d > 0 && d < |s| && s[d] == '.' then d + 1 + DigitsFrom(s, d + 1)
    else if d == 0 && |s| >= 2 && s[0] == '.' && IsDigit(s[1]) then 1 + DigitsFrom(s, 1)
    else d
  }

  /** The optional exponent `[eE][+-]?\d+` at position `m`: its length, or 0 when it does not match. */
  function ExponentLen(s: string, m: nat): (n: nat)
    requires m <= |s|
    ensures m + n <= |s|
    ensures n == 0 || n >= 2
    ensures forall i :: m <= i < m + n ==> IsNumberChar(s[i])
  {
    if m < |s| && (s[m] == 'e' || s[m] == 'E') then
      var k := if m + 1 < |s| && (s[m + 1] == '+' || s[m + 1] == '-') then 2 else 1;
      var d := DigitsFrom(s, m + k);
      if d > 0 then k + d else 0
    else 0
  }

  /** Length of the double literal at the start of `s`, or 0 when there is none. */
  function NumberLen(s: string): (n: nat)
    ensures n <= |s|
    ensures forall i :: 0 <= i < n ==> IsNumberChar(s[i])
  {
    var m := MantissaLen(s);
    if m == 0 then 0 else m + ExponentLen(s, m)
  }

  /** Length of the match of the overall pattern at the start of `s`, 0 when no pattern matches there. */
  function MatchLen(s: string): (n: nat)
    requires |s| > 0
    ensures n <= |s|
    ensures IsSpace(s[0]) ==> n > 0 && forall i :: 0 <= i < n ==> IsSpace(s[i])
    ensures !IsSpace(s[0]) ==> forall i :: 0 <= i < n ==> !IsSpace(s[i])
  {
    var c := s[0];
    if c == '(' || c == ')' || IsOperatorChar(c) then 1
    else if IsIdentStart(c) then 1 + IdentFrom(s, 1)
    else if IsDigit(c) || c == '.' then NumberLen(s)
    else if IsSpace(c) then SpacesFrom(s, 0)
    else 0
  }

  /** A non-empty gathered run becomes one token; an empty one yields nothing. */
  function Flush(pending: string): (r: seq<string>)
  {
    if pending == [] then [] else [pending]
  }

  /** Scans `s`; `pending` holds the unrecognised characters gathered so far. */
  function Scan(s: string, pending: string): seq<string>
    decreases |s|
  {
    if s == [] then Flush(pending)
    else
      var n := MatchLen(s);
      if n == 0 then Scan(s[1..], pending + [s[0]])
      else Flush(pending) + (if IsSpace(s[0]) then [] else [s[..n]]) + Scan(s[n..], [])
  }

  /** The tokens of `formula`, in order. */
  function GetTokens(formula: string): seq<string>
  {
    Scan(formula, [])
  }

  /** Concatenation of a sequence of strings. */
  function Concat(ts: seq<string>): string
  {
    if ts == [] then [] else ts[0] + Concat(ts[1..])
  }

  lemma {:induction false} ConcatAppend(a: seq<string>, b: seq<string>)
    ensures Concat(a + b) == Concat(a) + Concat(b)
  {
    if a == [] {
      assert a + b == b;
    } else {
      assert (a + b)[0] == a[0];
      assert (a + b)[1..] == a[1..] + b;
      ConcatAppend(a[1..], b);
      calc {
        Concat(a + b);
        a[0] + Concat(a[1..] + b);
        a[0] + (Concat(a[1..]) + Concat(b));
        (a[0] + Concat(a[1..])) + Concat(b);
      }
    }
  }

  /** Every token of `ts` is non-empty and free of whitespace. */
  predicate WellShaped(ts: seq<string>)
  {
    forall i :: 0 <= i < |ts| ==> ts[i] != [] && NoSpace(ts[i])
  }

  lemma {:induction false} ScanFacts(s: string, pending: string)
    requires NoSpace(pending)
    ensures WellShaped(Scan(s, pending))
    ensures Concat(Scan(s, pending)) == pending + RemoveSpace(s)
    decreases |s|
  {
    if s == [] {
      assert Concat(Flush(pending)) == pending;
    } else {
      var n := MatchLen(s);
      if n == 0 {
        assert !IsSpace(s[0]);
        ScanFacts(s[1..], pending + [s[0]]);
        GatherUnfold(s, pending);
        GatherText(s, pending, Concat(Scan(s[1..], pending + [s[0]])));
      } else {
        ScanFacts(s[n..], []);
        ScanStep(s, pending, n);
      }
    }
  }

  /** One matched step of the scanner, given the facts about the rest. */
  lemma ScanStep(s: string, pending: string, n: nat)
    requires NoSpace(pending)
    requires |s| > 0 && n == MatchLen(s) && n > 0
    requires WellShaped(Scan(s[n..], []))
    requires Concat(Scan(s[n..], [])) == RemoveSpace(s[n..])
    ensures WellShaped(Scan(s, pending))
    ensures Concat(Scan(s, pending)) == pending + RemoveSpace(s)
  {
    var mid: seq<string> := if IsSpace(s[0]) then [] else [s[..n]];
    SplitAt(s, n);
    ScanUnfold(s, pending);
    MatchedPiece(s, n);
    JoinPieces(Flush(pending), mid, Scan(s[n..], []), pending, s[..n], s[n..]);
  }

  /** An unrecognised character is gathered into the pending run. */
  lemma GatherUnfold(s: string, pending: string)
    requires |s| > 0 && MatchLen(s) == 0
    ensures Scan(s, pending) == Scan(s[1..], pending + [s[0]])
  {
  }

  /** Gathering a non-space character keeps the text the scan covers. */
  lemma GatherText(s: string, pending: string, text: string)
    requires |s| > 0 && !IsSpace(s[0])
    requires text == pending + [s[0]] + RemoveSpace(s[1..])
    ensures text == pending + RemoveSpace(s)
  {
    var rest := RemoveSpace(s[1..]);
    assert RemoveSpace(s) == [s[0]] + rest;
    Regroup(pending, [s[0]], rest);
  }

  lemma Regroup(a: string, b: string, c: string)
    ensures a + b + c == a + (b + c)
  {
  }

  lemma SplitAt(s: string, n: nat)
    requires n <= |s|
    ensures s[..n] + s[n..] == s
  {
  }

  lemma JoinPieces(f: seq<string>, mid: seq<string>, rest: seq<string>, pending: string, a: string, b: string)
    requires NoSpace(pending) && f == Flush(pending)
    requires WellShaped(mid) && Concat(mid) == RemoveSpace(a)
    requires WellShaped(rest) && Concat(rest) == RemoveSpace(b)
    ensures WellShaped(f + mid + rest)
    ensures Concat(f + mid + rest) == pending + RemoveSpace(a + b)
  {
    WellShapedAppend(f, mid);
    WellShapedAppend(f + mid, rest);
    ConcatAppend(f + mid, rest);
    ConcatAppend(f, mid);
    RemoveSpaceAppend(a, b);
    FlushConcat(pending);
  }

  lemma FlushConcat(run: string)
    ensures Concat(Flush(run)) == run
  {
    if run != [] {
      assert Concat([run]) == run + Concat([run][1..]);
    }
  }

  lemma ScanUnfold(s: string, pending: string)
    requires |s| > 0 && MatchLen(s) > 0
    ensures Scan(s, pending) == Flush(pending) + (if IsSpace(s[0]) then [] else [s[..MatchLen(s)]]) + Scan(s[MatchLen(s)..], [])
  {
  }

  /** The text a match covers: a whitespace run that is dropped, or one well-shaped token. */
  lemma MatchedPiece(s: string, n: nat)
    requires |s| > 0 && n == MatchLen(s) && n > 0
    ensures var mid: seq<string> := if IsSpace(s[0]) then [] else [s[..n]];
      WellShaped(mid) && Concat(mid) == RemoveSpace(s[..n])
  {
    if IsSpace(s[0]) {
      AllSpaceRemoved(s[..n]);
    } else {
      assert NoSpace(s[..n]);
      RemoveSpaceOfNoSpace(s[..n]);
      assert Concat([s[..n]]) == s[..n] + Concat([]);
    }
  }

  lemma WellShapedAppend(a: seq<string>, b: seq<string>)
    requires WellShaped(a) && WellShaped(b)
    ensures WellShaped(a + b)
  {
    forall i | 0 <= i < |a + b| ensures (a + b)[i] != [] && NoSpace((a + b)[i]) {
      if i >= |a| { assert (a + b)[i] == b[i - |a|]; }
    }
  }

  lemma {:induction false} AllSpaceRemoved(s: string)
    requires forall i :: 0 <= i < |s| ==> IsSpace(s[i])
    ensures RemoveSpace(s) == []
  {
    if s != [] {
      AllSpaceRemoved(s[1..]);
    }
  }

  /** No token is empty or contains whitespace, and the tokens, concatenated in
      order, give back the input with its whitespace removed. */
  lemma GetTokensFacts(formula: string)
    ensures WellShaped(GetTokens(formula))
    ensures Concat(GetTokens(formula)) == RemoveSpace(formula)
  {
    ScanFacts(formula, []);
  }

  /** A token matched at the front of `s` is emitted ahead of the tokens of the rest. */
  lemma Emit(s: string, tok: string, rest: string)
    requires s == tok + rest && |tok| > 0 && MatchLen(s) == |tok| && !IsSpace(s[0])
    ensures Scan(s, []) == [tok] + Scan(rest, [])
  {
    assert s[..|tok|] == tok;
    assert s[|tok|..] == rest;
  }

  /** A whitespace run at the front of `s` is dropped. */
  lemma Skip(s: string, spaces: string, rest: string)
    requires s == spaces + rest && |spaces| > 0 && MatchLen(s) == |spaces| && IsSpace(s[0])
    ensures Scan(s, []) == Scan(rest, [])
  {
    assert s[|spaces|..] == rest;
  }
}
