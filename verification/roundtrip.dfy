/** `ToString` promises a text that, handed back to the constructor, yields a
    formula equal to the original. That holds when no operand is directly
    followed by another operand: the texts of the tokens then split back into
    exactly those tokens. The constructor has no follow rule after a variable,
    so it accepts a variable followed by another operand. For `x y` (two
    variables, text `xy`) the rebuilt formula has one variable, a different
    variable set, yet `Equals` still holds (`VariablesMergeInText`). For
    `x 2.5` (text `x2.5`, read back as `x2` and `.5`) the rebuilt formula's
    text is `x20.5`, and `Equals` fails: the promise itself is broken as
    written (`NumeralMergesInText`). It holds for every formula built by the
    constructor with that rule added (`BuildSeparated`, `SeparatedRoundTrip`). */
module RoundTrip {
  import opened Chars
  import opened Wrappers
  import opened Tokenizer
  import opened Numbers
  import opened Syntax
  import opened Validator
  import opened Acceptance
  import opened Views

  /** The texts of the tokens, in order. */
  function Texts(ts: seq<Token>, render: real -> string): (r: seq<string>)
    ensures |r| == |ts| && forall i :: 0 <= i < |ts| ==> r[i] == TokenText(ts[i], render)
  {
    seq(|ts|, i requires 0 <= i < |ts| => TokenText(ts[i], render))
  }

  /** `render` writes `v` as a double literal of the tokenizer's grammar that
      starts with a digit or a point and reads back as `v`. */
  predicate Renders(render: real -> string, v: real)
  {
    var n := render(v);
    && |n| > 0
    && (IsDigit(n[0]) || n[0] == '.')
    && NumberLen(n) == |n|
    && ParseNumber(n) == Some(v)
  }

  /** Every number of `ts` is rendered faithfully and every variable has the
      variable shape. */
  predicate Writable(ts: seq<Token>, render: real -> string)
  {
    forall i :: 0 <= i < |ts| ==>
      (ts[i].Num? ==> Renders(render, ts[i].value)) && (ts[i].Var? ==> IsVariable(ts[i].name))
  }

  predicate Operand(t: Token)
  {
    t.Num? || t.Var?
  }

  /** No operand is directly followed by another operand. */
  predicate Separated(ts: seq<Token>)
  {
    forall i :: 0 <= i < |ts| - 1 && Operand(ts[i]) ==> !Operand(ts[i + 1])
  }

  /** The formula string is the concatenation of the token texts. */
  lemma {:induction false} FormulaStringIsConcat(ts: seq<Token>, render: real -> string)
    ensures FormulaString(ts, render) == Concat(Texts(ts, render))
    decreases |ts|
  {
    if ts != [] {
      var init := ts[..|ts| - 1];
      var x := TokenText(ts[|ts| - 1], render);
      assert FormulaString(ts, render) == FormulaString(init, render) + x;
      FormulaStringIsConcat(init, render);
      TextsSnoc(ts, render);
      ConcatSnoc(Texts(init, render), x);
    }
  }

  lemma TextsSnoc(ts: seq<Token>, render: real -> string)
    requires ts != []
    ensures Texts(ts, render) == Texts(ts[..|ts| - 1], render) + [TokenText(ts[|ts| - 1], render)]
  {
  }

  lemma ConcatSnoc(xs: seq<string>, x: string)
    ensures Concat(xs + [x]) == Concat(xs) + x
  {
    ConcatAppend(xs, [x]);
    assert Concat([x]) == x + Concat([x][1..]);
  }

  /** The digit run from `k` is exactly `s[k..m]` when that is all digits and
      no digit follows it. */
  lemma DigitsExact(s: string, k: nat, m: nat)
    requires k <= m <= |s|
    requires forall i :: k <= i < m ==> IsDigit(s[i])
    requires m == |s| || !IsDigit(s[m])
    ensures DigitsFrom(s, k) == m - k
  {
  }

  /** A digit run inside `n` is not lengthened by a text that does not start with a digit. */
  lemma DigitsExtend(n: string, rest: string, k: nat)
    requires k <= |n|
    requires rest == [] || !IsDigit(rest[0])
    ensures DigitsFrom(n + rest, k) == DigitsFrom(n, k)
  {
    var s := n + rest;
    var d := DigitsFrom(n, k);
    assert forall i :: k <= i < k + d ==> s[i] == n[i];
    if k + d < |n| {
      assert s[k + d] == n[k + d];
    } else if rest != [] {
      assert s[k + d] == rest[0];
    }
    DigitsExact(s, k, k + d);
  }

  /** A character that cannot continue a double literal in any position. */
  predicate EndsNumber(c: char)
  {
    !IsDigit(c) && c != '.' && c != 'e' && c != 'E'
  }

  /** The mantissa of a double literal is not lengthened by a text that
      cannot continue a literal. */
  lemma MantissaExtend(n: string, rest: string)
    requires |n| > 0 && NumberLen(n) == |n|
    requires rest == [] || EndsNumber(rest[0])
    ensures MantissaLen(n + rest) == MantissaLen(n)
  {
    var s := n + rest;
    assert forall i :: 0 <= i < |n| ==> s[i] == n[i];
    DigitsExtend(n, rest, 0);
    var d := DigitsFrom(n, 0);
    if d > 0 && d < |n| && n[d] == '.' {
      DigitsExtend(n, rest, d + 1);
    } else if d == 0 && |n| >= 2 && n[0] == '.' && IsDigit(n[1]) {
      DigitsExtend(n, rest, 1);
    } else if d == |n| && rest != [] {
      assert s[d] == rest[0];
    }
  }

  /** A whole double literal keeps its length when a text follows that
      cannot continue it. */
  lemma NumberExtend(n: string, rest: string)
    requires |n| > 0 && NumberLen(n) == |n|
    requires rest == [] || EndsNumber(rest[0])
    ensures NumberLen(n + rest) == |n|
  {
    MantissaExtend(n, rest);
    var m := MantissaLen(n);
    ExponentExtend(n, rest, m);
  }

  /** The exponent that completes a double literal is not lengthened either. */
  lemma ExponentExtend(n: string, rest: string, m: nat)
    requires 0 < m <= |n| && m + ExponentLen(n, m) == |n|
    requires rest == [] || EndsNumber(rest[0])
    ensures ExponentLen(n + rest, m) == ExponentLen(n, m)
  {
    var s := n + rest;
    if m < |n| {
      assert s[m] == n[m] && (n[m] == 'e' || n[m] == 'E');
      assert m + 1 < |n|;
      assert s[m + 1] == n[m + 1];
      var k := if n[m + 1] == '+' || n[m + 1] == '-' then 2 else 1;
      DigitsExtend(n, rest, m + k);
    } else if rest != [] {
      assert s[m] == rest[0];
    }
  }

  /** The token matched at the front of a token text followed by a text that
      cannot continue it is that token text. */
  lemma TextMatch(t: Token, rest: string, render: real -> string)
    requires t.Num? ==> Renders(render, t.value)
    requires t.Var? ==> IsVariable(t.name)
    requires Operand(t) && rest != [] ==> IsOperatorChar(rest[0]) || rest[0] == '(' || rest[0] == ')'
    ensures |TokenText(t, render)| > 0
    ensures MatchLen(TokenText(t, render) + rest) == |TokenText(t, render)|
    ensures !IsSpace((TokenText(t, render) + rest)[0])
  {
    var x := TokenText(t, render);
    var s := x + rest;
    assert s[0] == x[0];
    match t
    case Num(v) =>
      NumberExtend(x, rest);
    case Var(name) =>
      assert forall i :: 1 <= i < |x| ==> s[i] == x[i];
      if rest != [] {
        assert s[|x|] == rest[0];
      }
      IdentExact(s, |x|);
    case Op(o) =>
    case LParen =>
    case RParen =>
  }

  lemma IdentExact(s: string, m: nat)
    requires 1 <= m <= |s|
    requires forall i :: 1 <= i < m ==> IsIdentChar(s[i])
    requires m == |s| || !IsIdentChar(s[m])
    ensures IdentFrom(s, 1) == m - 1
  {
  }

  lemma WritableTail(ts: seq<Token>, render: real -> string)
    requires |ts| > 0 && Writable(ts, render) && Separated(ts)
    ensures Writable(ts[1..], render) && Separated(ts[1..])
  {
    forall i | 0 <= i < |ts[1..]| - 1 && Operand(ts[1..][i])
      ensures !Operand(ts[1..][i + 1])
    {
      assert ts[1..][i] == ts[i + 1] && ts[1..][i + 1] == ts[i + 2];
    }
  }

  /** The texts of a non-empty sequence: the first text, then the others. */
  lemma TextsCons(ts: seq<Token>, render: real -> string)
    requires ts != []
    ensures Texts(ts, render)[1..] == Texts(ts[1..], render)
    ensures Concat(Texts(ts, render)) == TokenText(ts[0], render) + Concat(Texts(ts[1..], render))
  {
    assert Texts(ts, render)[1..] == Texts(ts[1..], render);
  }

  lemma TextNonEmpty(t: Token, render: real -> string)
    requires t.Num? ==> Renders(render, t.value)
    requires t.Var? ==> IsVariable(t.name)
    ensures |TokenText(t, render)| > 0
  {
  }

  /** The concatenated texts start with the first character of the first text. */
  lemma FirstChar(ts: seq<Token>, render: real -> string)
    requires ts != [] && Writable(ts, render)
    ensures Concat(Texts(ts, render)) != []
    ensures Concat(Texts(ts, render))[0] == TokenText(ts[0], render)[0]
  {
    TextsCons(ts, render);
    TextNonEmpty(ts[0], render);
  }

  /** After an operand the remaining texts start with an operator or a parenthesis. */
  lemma Boundary(ts: seq<Token>, render: real -> string)
    requires ts != [] && Writable(ts, render) && Separated(ts)
    ensures var rest := Concat(Texts(ts[1..], render));
      Operand(ts[0]) && rest != [] ==> IsOperatorChar(rest[0]) || rest[0] == '(' || rest[0] == ')'
  {
    var tail := ts[1..];
    WritableTail(ts, render);
    if tail != [] {
      FirstChar(tail, render);
      assert Operand(ts[0]) ==> !Operand(tail[0]);
    }
  }

  /** The tokenizer splits the concatenated texts of a separated, writable
      token sequence back into those texts. */
  lemma {:induction false} ScanTexts(ts: seq<Token>, render: real -> string)
    requires Writable(ts, render) && Separated(ts)
    ensures Scan(Concat(Texts(ts, render)), []) == Texts(ts, render)
    decreases |ts|
  {
    if ts != [] {
      var x := TokenText(ts[0], render);
      var tail := ts[1..];
      TextsCons(ts, render);
      var rest := Concat(Texts(tail, render));
      WritableTail(ts, render);
      ScanTexts(tail, render);
      Boundary(ts, render);
      TextMatch(ts[0], rest, render);
      Emit(x + rest, x, rest);
      assert Texts(ts, render) == [x] + Texts(tail, render);
    }
  }

  /** What the one-argument constructor demands, stated on canonical tokens:
      the structure of every built formula, non-negative numbers, and only an
      operator or `)` after a number or `)`. */
  predicate Readable(ts: seq<Token>)
  {
    && Structured(ts)
    && (forall i :: 0 <= i < |ts| && ts[i].Num? ==> ts[i].value >= 0.0)
    && (forall i :: 0 <= i < |ts| - 1 && (ts[i].Num? || ts[i] == RParen) ==> ts[i + 1].Op? || ts[i + 1] == RParen)
  }

  /** A token text reads back as its token. */
  lemma CanonicalOfText(t: Token, render: real -> string)
    requires t.Num? ==> Renders(render, t.value)
    requires t.Var? ==> IsVariable(t.name)
    ensures Canonical(TokenText(t, render)) == Some(t)
    ensures TokenText(t, render) == "(" <==> t == LParen
    ensures TokenText(t, render) == ")" <==> t == RParen
    ensures TokenText(t, render) != ""
  {
    match t
    case Num(v) => NumberText(v, render);
    case Var(x) => VariableText(x, render);
    case Op(o) => OperatorText(o, render);
    case LParen =>
    case RParen =>
  }

  lemma NumberText(v: real, render: real -> string)
    requires Renders(render, v)
    ensures Canonical(TokenText(Num(v), render)) == Some(Num(v))
    ensures TokenText(Num(v), render) !in {"", "(", ")"}
  {
  }

  lemma VariableText(x: string, render: real -> string)
    requires IsVariable(x)
    ensures Canonical(TokenText(Var(x), render)) == Some(Var(x))
    ensures TokenText(Var(x), render) !in {"", "(", ")"}
  {
    VariableIsNotNumber(x);
  }

  lemma OperatorText(o: Operator, render: real -> string)
    ensures Canonical(TokenText(Op(o), render)) == Some(Op(o))
    ensures TokenText(Op(o), render) !in {"", "(", ")"}
  {
    assert ParseNumber(OperatorSymbol(o)) == None;
  }

  /** The canonical tokens of the texts of `ts` from position `i` on are the tokens themselves. */
  lemma {:induction false} CanonicalTexts(ts: seq<Token>, render: real -> string, normalize: string -> string, i: nat)
    requires i <= |ts| && Writable(ts, render)
    requires forall k :: 0 <= k < |ts| ==> normalize(TokenText(ts[k], render)) == TokenText(ts[k], render)
    ensures CanonicalFrom(Texts(ts, render), normalize, i) == ts[i..]
    decreases |ts| - i
  {
    if i < |ts| {
      var xs := Texts(ts, render);
      var c := Canonical(normalize(xs[i]));
      assert CanonicalFrom(xs, normalize, i) == Append([], c) + CanonicalFrom(xs, normalize, i + 1);
      CanonicalTexts(ts, render, normalize, i + 1);
      CanonicalOfText(ts[i], render);
      ConsPresent(c, ts[i..]);
    }
  }

  lemma ConsPresent(c: Option<Token>, ts: seq<Token>)
    requires ts != [] && c == Some(ts[0])
    ensures Append([], c) + ts[1..] == ts
  {
  }

  /** The parentheses among the texts of `ts` from position `i` on are counted
      as the parenthesis tokens. */
  lemma {:induction false} CountTexts(ts: seq<Token>, render: real -> string, normalize: string -> string, i: nat)
    requires i <= |ts| && Writable(ts, render)
    requires forall k :: 0 <= k < |ts| ==> normalize(TokenText(ts[k], render)) == TokenText(ts[k], render)
    ensures Count(Texts(ts, render), normalize, i, "(") == CountToken(ts[i..], LParen)
    ensures Count(Texts(ts, render), normalize, i, ")") == CountToken(ts[i..], RParen)
    decreases |ts| - i
  {
    if i < |ts| {
      CountTexts(ts, render, normalize, i + 1);
      CanonicalOfText(ts[i], render);
      assert ts[i..][1..] == ts[i + 1..];
    }
  }

  /** Each text is acceptable at its position. */
  lemma TextPositionOk(ts: seq<Token>, render: real -> string, normalize: string -> string,
                       isValid: string -> bool, i: nat)
    requires i < |ts| && Readable(ts) && Writable(ts, render)
    requires forall k :: 0 <= k < |ts| ==> normalize(TokenText(ts[k], render)) == TokenText(ts[k], render)
    requires forall k :: 0 <= k < |ts| && ts[k].Var? ==> isValid(ts[k].name)
    ensures PositionOk(Texts(ts, render), normalize, isValid, i)
  {
    var raw := Texts(ts, render);
    CanonicalOfText(ts[i], render);
    if i + 1 < |ts| {
      var u := ts[i + 1];
      CanonicalOfText(u, render);
      if ts[i] == LParen || ts[i].Op? {
        assert StartToken(u);
      }
      if u.Op? {
        assert ParseNumber(OperatorSymbol(u.op)) == None;
      }
    }
    if ts[i].Op? {
      assert ParseNumber(OperatorSymbol(ts[i].op)) == None;
    }
  }

  /** The texts of a readable, writable token sequence make an acceptable
      token array whose canonical tokens are the sequence itself. */
  lemma TextsAcceptable(ts: seq<Token>, render: real -> string, normalize: string -> string, isValid: string -> bool)
    requires Readable(ts) && Writable(ts, render)
    requires forall k :: 0 <= k < |ts| ==> normalize(TokenText(ts[k], render)) == TokenText(ts[k], render)
    requires forall k :: 0 <= k < |ts| && ts[k].Var? ==> isValid(ts[k].name)
    ensures Acceptable(Texts(ts, render), normalize, isValid)
    ensures CanonicalFrom(Texts(ts, render), normalize, 0) == ts
  {
    var raw := Texts(ts, render);
    forall i | 0 <= i < |raw|
      ensures PositionOk(raw, normalize, isValid, i)
    {
      TextPositionOk(ts, render, normalize, isValid, i);
    }
    CountTexts(ts, render, normalize, 0);
    CanonicalTexts(ts, render, normalize, 0);
    assert ts[0..] == ts;
    CanonicalOfText(ts[0], render);
    CanonicalOfText(ts[|ts| - 1], render);
    if ts[0].Var? {
      VariableIsNotNumber(ts[0].name);
    }
  }

  lemma WritableIsPlain(ts: seq<Token>, render: real -> string)
    requires Writable(ts, render)
    ensures PlainTexts(ts, render)
  {
    forall i | 0 <= i < |ts|
      ensures NoSpace(TokenText(ts[i], render))
    {
      var x := TokenText(ts[i], render);
      forall k | 0 <= k < |x|
        ensures !IsSpace(x[k])
      {
        if ts[i].Num? {
          assert IsNumberChar(x[k]);
        }
      }
    }
  }

  /** Round trip: the constructor applied to `ToString` of a readable,
      writable, separated formula gives back its tokens, with any normaliser
      that leaves the token texts alone and any validity test that accepts
      its variables. */
  lemma RoundTripBuild(f: Formula, render: real -> string, normalize: string -> string, isValid: string -> bool)
    requires Readable(f.tokens) && Writable(f.tokens, render) && Separated(f.tokens)
    requires forall k :: 0 <= k < |f.tokens| ==> normalize(TokenText(f.tokens[k], render)) == TokenText(f.tokens[k], render)
    requires forall k :: 0 <= k < |f.tokens| && f.tokens[k].Var? ==> isValid(f.tokens[k].name)
    ensures Build(ToString(f, render), normalize, isValid) == Built(Formula(f.tokens, VariablesOf(f.tokens)))
  {
    var ts := f.tokens;
    WritableIsPlain(ts, render);
    FormulaStringIsConcat(ts, render);
    ScanTexts(ts, render);
    FirstChar(ts, render);
    TextsAcceptable(ts, render, normalize, isValid);
    FromTokensCharacterised(Texts(ts, render), normalize, isValid);
  }

  /** `ToString`'s promise for the one-argument constructor: the text it
      returns builds a formula that `Equals` (as written and corrected) finds
      equal to the original and that has the same text and hash. */
  lemma ToStringRoundTrip(f: Formula, render: real -> string, hash: string -> int)
    requires Consistent(f) && Readable(f.tokens) && Writable(f.tokens, render) && Separated(f.tokens)
    ensures BuildDefault(ToString(f, render)) == Built(f)
    ensures EqualsSpec(f, FormulaObj(BuildDefault(ToString(f, render)).formula), render) == Decided(true)
    ensures EqualsFixed(f, FormulaObj(BuildDefault(ToString(f, render)).formula), render)
    ensures GetHashCode(BuildDefault(ToString(f, render)).formula, render, hash) == GetHashCode(f, render, hash)
  {
    RoundTripBuild(f, render, s => s, s => true);
    SameTokensAreEqual(f, f, render, hash);
  }

  /** Only an operator or `)` follows a number or `)`. */
  predicate FollowRule(ts: seq<Token>)
  {
    forall j :: 0 <= j < |ts| - 1 && (ts[j].Num? || ts[j] == RParen) ==> ts[j + 1].Op? || ts[j + 1] == RParen
  }

  lemma FollowCons(c: Token, rest: seq<Token>)
    requires FollowRule(rest)
    requires rest != [] && (c.Num? || c == RParen) ==> rest[0].Op? || rest[0] == RParen
    ensures FollowRule([c] + rest)
  {
    var ts := [c] + rest;
    forall j | 0 < j < |ts| - 1
      ensures ts[j] == rest[j - 1] && ts[j + 1] == rest[j]
    {
    }
  }

  /** With a normaliser that leaves the tokens alone, the canonical tokens of
      acceptable positions keep the follow rule after numbers and `)`. */
  lemma {:induction false} FollowFrom(raw: seq<string>, normalize: string -> string, isValid: string -> bool, i: nat)
    requires i <= |raw| && RestOk(raw, normalize, isValid, i)
    requires forall k :: i <= k < |raw| ==> raw[k] != "" && normalize(raw[k]) == raw[k]
    ensures FollowRule(CanonicalFrom(raw, normalize, i))
    decreases |raw| - i
  {
    if i < |raw| {
      RestOkStep(raw, normalize, isValid, i);
      FollowFrom(raw, normalize, isValid, i + 1);
      var t := raw[i];
      CanonicalFirst(raw, normalize, i);
      var c := Canonical(t).value;
      var rest := CanonicalFrom(raw, normalize, i + 1);
      assert CanonicalFrom(raw, normalize, i) == [c] + rest;
      if i + 1 < |raw| && (c.Num? || c == RParen) {
        CanonicalFirst(raw, normalize, i + 1);
        FollowsOperand(t, raw[i + 1], c, rest[0]);
      }
      FollowCons(c, rest);
    }
  }

  /** Every formula the one-argument constructor builds is readable, keeps the
      variables of its tokens, and has well-shaped variables. */
  lemma DefaultBuiltIsReadable(text: string)
    requires BuildDefault(text).Built?
    ensures Readable(BuildDefault(text).formula.tokens)
    ensures Consistent(BuildDefault(text).formula)
    ensures forall i :: 0 <= i < |BuildDefault(text).formula.tokens| && BuildDefault(text).formula.tokens[i].Var? ==>
      IsVariable(BuildDefault(text).formula.tokens[i].name)
  {
    var normalize: string -> string := s => s;
    var isValid: string -> bool := s => true;
    BuildCharacterised(text, normalize, isValid);
    BuiltIsAdmitted(text, normalize, isValid);
    var raw := GetTokens(text);
    GetTokensFacts(text);
    assert RestOk(raw, normalize, isValid, 0);
    FollowFrom(raw, normalize, isValid, 0);
  }

  /** A number or `)` accepted at its position is followed by an operator or `)`. */
  lemma FollowsOperand(t: string, u: string, x: Token, y: Token)
    requires Canonical(t) == Some(x) && Canonical(u) == Some(y)
    requires x.Num? || x == RParen
    requires (ParseNumber(t).Some? && ParseNumber(t).value >= 0.0 && OperatorOrClose(u))
          || ((t == "(" || ParseOperator(t).Some?) && StartsOperand(u))
          || (t == ")" && OperatorOrClose(u))
          || IsVariable(t)
    ensures y.Op? || y == RParen
  {
    if IsVariable(t) {
      VariableIsNotNumber(t);
    }
    if t == "(" || ParseOperator(t).Some? {
      assert ParseNumber(t) == None;
    }
    assert OperatorOrClose(u);
    assert ParseNumber(u) == None;
  }

  /** The constructor with the follow rule after a variable that it lacks:
      an operand directly after an operand is rejected. */
  function BuildSeparated(text: string, normalize: string -> string, isValid: string -> bool): Construction
  {
    var c := Build(text, normalize, isValid);
    if c.Built? && !Separated(c.formula.tokens) then FormatError(AdjacentOperands) else c
  }

  /** With the added rule, `ToString`'s promise holds for every formula the
      one-argument constructor builds: its text builds the same formula, which
      `Equals` finds equal to it. */
  lemma SeparatedRoundTrip(text: string, render: real -> string)
    requires BuildSeparated(text, s => s, s => true).Built?
    requires Writable(BuildSeparated(text, s => s, s => true).formula.tokens, render)
    ensures var f := BuildSeparated(text, s => s, s => true).formula;
      && BuildSeparated(ToString(f, render), s => s, s => true) == Built(f)
      && EqualsSpec(f, FormulaObj(BuildSeparated(ToString(f, render), s => s, s => true).formula), render) == Decided(true)
  {
    var f := BuildSeparated(text, s => s, s => true).formula;
    assert BuildDefault(text) == Built(f);
    DefaultBuiltIsReadable(text);
    ToStringRoundTrip(f, render, s => 0);
  }

  /** The text of a writable, separated formula splits back into its token
      texts. */
  lemma TextTokens(f: Formula, render: real -> string)
    requires Writable(f.tokens, render) && Separated(f.tokens)
    ensures GetTokens(ToString(f, render)) == Texts(f.tokens, render)
  {
    WritableIsPlain(f.tokens, render);
    FormulaStringIsConcat(f.tokens, render);
    ScanTexts(f.tokens, render);
  }

  /** Two numerals at the same position of two writable texts are the texts of
      number tokens, so equal values are written alike. */
  lemma WrittenNumerals(ts: seq<Token>, us: seq<Token>, render: real -> string)
    requires Writable(ts, render) && Writable(us, render)
    ensures SameNumerals(Texts(ts, render), Texts(us, render))
  {
    var a, b := Texts(ts, render), Texts(us, render);
    forall i | 0 <= i < |a| && i < |b| && ParseNumber(a[i]).Some? && ParseNumber(b[i]).Some?
      ensures ParseNumber(a[i]).value == ParseNumber(b[i]).value ==> a[i] == b[i]
    {
      CanonicalOfText(ts[i], render);
      CanonicalOfText(us[i], render);
    }
  }

  /** `GetHashCode`'s promise: two writable, separated formulas that the
      comparison with the length check finds equal have the same hash. */
  lemma EqualsImpliesSameHash(f: Formula, g: Formula, render: real -> string, hash: string -> int)
    requires Writable(f.tokens, render) && Separated(f.tokens)
    requires Writable(g.tokens, render) && Separated(g.tokens)
    requires EqualsFixed(f, FormulaObj(g), render)
    ensures GetHashCode(f, render, hash) == GetHashCode(g, render, hash)
  {
    WritableIsPlain(f.tokens, render);
    WritableIsPlain(g.tokens, render);
    TextTokens(f, render);
    TextTokens(g, render);
    WrittenNumerals(f.tokens, g.tokens, render);
    HashConsistent(f, g, render, hash);
  }

  /** Every two formulas built by the constructor with the added rule, whose
      numbers `render` writes as literals, hash alike when they are equal. */
  lemma SeparatedHash(text1: string, text2: string, render: real -> string, hash: string -> int)
    requires BuildSeparated(text1, s => s, s => true).Built? && BuildSeparated(text2, s => s, s => true).Built?
    requires Writable(BuildSeparated(text1, s => s, s => true).formula.tokens, render)
    requires Writable(BuildSeparated(text2, s => s, s => true).formula.tokens, render)
    requires EqualsFixed(BuildSeparated(text1, s => s, s => true).formula,
                         FormulaObj(BuildSeparated(text2, s => s, s => true).formula), render)
    ensures GetHashCode(BuildSeparated(text1, s => s, s => true).formula, render, hash)
         == GetHashCode(BuildSeparated(text2, s => s, s => true).formula, render, hash)
  {
    var f, g := BuildSeparated(text1, s => s, s => true).formula, BuildSeparated(text2, s => s, s => true).formula;
    EqualsImpliesSameHash(f, g, render, hash);
  }

  /** As written, `x y` builds two variables, but its text is `xy`: the
      round trip builds a different formula with one variable, which `Equals`
      nevertheless finds equal, since it compares texts. The corrected
      constructor rejects `x y`. */
  lemma VariablesMergeInText(render: real -> string)
    ensures BuildDefault("x y") == Built(Formula([Var("x"), Var("y")], {"x", "y"}))
    ensures ToString(Formula([Var("x"), Var("y")], {"x", "y"}), render) == "xy"
    ensures BuildDefault("xy") == Built(Formula([Var("xy")], {"xy"}))
    ensures EqualsSpec(Formula([Var("x"), Var("y")], {"x", "y"}), FormulaObj(Formula([Var("xy")], {"xy"})), render)
      == Decided(true)
    ensures BuildSeparated("x y", s => s, s => true) == FormatError(AdjacentOperands)
  {
    BuildTwoVariables();
    BuildMerged();
    MergedText(render);
    MergedEqual(render);
    SeparatedRejectsMerge();
  }

  lemma SeparatedRejectsMerge()
    ensures BuildSeparated("x y", s => s, s => true) == FormatError(AdjacentOperands)
  {
    BuildTwoVariables();
    TwoVariablesNotSeparated();
    RejectsAdjacent("x y", s => s, s => true);
  }

  lemma TwoVariablesNotSeparated()
    ensures !Separated([Var("x"), Var("y")])
  {
    assert Operand([Var("x"), Var("y")][0]) && Operand([Var("x"), Var("y")][1]);
  }

  lemma RejectsAdjacent(text: string, normalize: string -> string, isValid: string -> bool)
    requires Build(text, normalize, isValid).Built? && !Separated(Build(text, normalize, isValid).formula.tokens)
    ensures BuildSeparated(text, normalize, isValid) == FormatError(AdjacentOperands)
  {
  }

  lemma TwoVariableTokens()
    ensures GetTokens("x y") == ["x", "y"]
    ensures GetTokens("xy") == ["xy"]
  {
    Emit("x y", "x", " y");
    Skip(" y", " ", "y");
    Emit("y", "y", "");
    Emit("xy", "xy", "");
  }

  lemma TwoVariablesAcceptable()
    ensures Acceptable(["x", "y"], s => s, s => true)
    ensures CanonicalFrom(["x", "y"], s => s, 0) == [Var("x"), Var("y")]
  {
    var normalize: string -> string := s => s;
    var isValid: string -> bool := s => true;
    TwoAcceptable(normalize, isValid);
    TwoCanonical(normalize);
  }

  /** The two tokens `x` and `y` are acceptable to any normalizer and validity
      predicate that leave them as they are and accept them. */
  lemma TwoAcceptable(normalize: string -> string, isValid: string -> bool)
    requires normalize("x") == "x" && normalize("y") == "y" && isValid("x") && isValid("y")
    ensures Acceptable(["x", "y"], normalize, isValid)
  {
    var raw := ["x", "y"];
    VariableIsNotNumber("x");
    VariableIsNotNumber("y");
    assert PositionOk(raw, normalize, isValid, 0) && PositionOk(raw, normalize, isValid, 1);
    assert Count(raw, normalize, 0, "(") == 0 == Count(raw, normalize, 0, ")");
    assert StartsOperand(normalize(raw[0])) && EndsOperand(normalize(raw[1]));
  }

  lemma TwoCanonical(normalize: string -> string)
    requires normalize("x") == "x" && normalize("y") == "y"
    ensures CanonicalFrom(["x", "y"], normalize, 0) == [Var("x"), Var("y")]
  {
    var raw := ["x", "y"];
    VariableIsNotNumber("x");
    VariableIsNotNumber("y");
    assert Canonical("x") == Some(Var("x")) && Canonical("y") == Some(Var("y"));
    assert CanonicalFrom(raw, normalize, 2) == [];
    assert CanonicalFrom(raw, normalize, 1) == Append([], Canonical("y")) + [];
    assert CanonicalFrom(raw, normalize, 0) == Append([], Canonical("x")) + CanonicalFrom(raw, normalize, 1);
  }

  lemma BuildTwoVariables()
    ensures BuildDefault("x y") == Built(Formula([Var("x"), Var("y")], {"x", "y"}))
  {
    TwoVariableTokens();
    TwoVariablesAcceptable();
    BuildCharacterised("x y", s => s, s => true);
    assert VariablesOf([Var("x"), Var("y")]) == {"x", "y"};
  }

  lemma OneVariableAcceptable()
    ensures Acceptable(["xy"], s => s, s => true)
    ensures CanonicalFrom(["xy"], s => s, 0) == [Var("xy")]
  {
    var raw := ["xy"];
    var normalize: string -> string := s => s;
    var isValid: string -> bool := s => true;
    VariableIsNotNumber("xy");
    assert PositionOk(raw, normalize, isValid, 0);
    assert CanonicalFrom(raw, normalize, 0) == [Var("xy")];
  }

  lemma BuildMerged()
    ensures BuildDefault("xy") == Built(Formula([Var("xy")], {"xy"}))
  {
    TwoVariableTokens();
    OneVariableAcceptable();
    BuildCharacterised("xy", s => s, s => true);
    assert VariablesOf([Var("xy")]) == {"xy"};
  }

  lemma MergedText(render: real -> string)
    ensures ToString(Formula([Var("x"), Var("y")], {"x", "y"}), render) == "xy"
    ensures ToString(Formula([Var("xy")], {"xy"}), render) == "xy"
  {
    var ts := [Var("x"), Var("y")];
    assert PlainTexts(ts, render) && PlainTexts([Var("xy")], render);
    assert ts[..1] == [Var("x")];
    assert FormulaString(ts, render) == "xy";
    assert FormulaString([Var("xy")], render) == "xy";
  }

  lemma MergedEqual(render: real -> string)
    ensures EqualsSpec(Formula([Var("x"), Var("y")], {"x", "y"}), FormulaObj(Formula([Var("xy")], {"xy"})), render)
      == Decided(true)
  {
    MergedText(render);
    SameTextsAreEqual(Formula([Var("x"), Var("y")], {"x", "y"}), Formula([Var("xy")], {"xy"}), render);
  }

  /** As written, `x 2.5` builds a variable and a number, but its text `x2.5`
      is read back as the variable `x2` and the number `.5`; the text of that
      formula, `x20.5`, starts with `x20`, so `Equals` finds the original and
      the formula built from its `ToString` different: `ToString`'s promise
      fails. The corrected constructor rejects `x 2.5`. */
  lemma NumeralMergesInText(render: real -> string)
    requires render(2.5) == "2.5" && render(0.5) == "0.5"
    ensures BuildDefault("x 2.5") == Built(Formula([Var("x"), Num(2.5)], {"x"}))
    ensures ToString(Formula([Var("x"), Num(2.5)], {"x"}), render) == "x2.5"
    ensures BuildDefault("x2.5") == Built(Formula([Var("x2"), Num(0.5)], {"x2"}))
    ensures ToString(Formula([Var("x2"), Num(0.5)], {"x2"}), render) == "x20.5"
    ensures EqualsSpec(Formula([Var("x"), Num(2.5)], {"x"}), FormulaObj(Formula([Var("x2"), Num(0.5)], {"x2"})), render)
      == Decided(false)
    ensures !EqualsFixed(Formula([Var("x"), Num(2.5)], {"x"}), FormulaObj(Formula([Var("x2"), Num(0.5)], {"x2"})), render)
    ensures BuildSeparated("x 2.5", s => s, s => true) == FormatError(AdjacentOperands)
  {
    BuildNumeralAfterName();
    BuildSplitNumeral();
    NumeralTexts(render);
    SplitNumeralUnequal(render);
    SeparatedRejectsNumeral();
  }

  lemma SplitNumeralUnequal(render: real -> string)
    requires render(2.5) == "2.5" && render(0.5) == "0.5"
    ensures EqualsSpec(Formula([Var("x"), Num(2.5)], {"x"}), FormulaObj(Formula([Var("x2"), Num(0.5)], {"x2"})), render)
      == Decided(false)
    ensures !EqualsFixed(Formula([Var("x"), Num(2.5)], {"x"}), FormulaObj(Formula([Var("x2"), Num(0.5)], {"x2"})), render)
  {
    NumeralTexts(render);
    SplitNumeralTokens();
    NamesDiffer();
    FirstTokensDiffer(Formula([Var("x"), Num(2.5)], {"x"}), Formula([Var("x2"), Num(0.5)], {"x2"}), render,
      ["x2", ".5"], ["x20", ".5"]);
  }

  lemma NamesDiffer()
    ensures !SameToken("x2", "x20")
  {
    VariableIsNotNumber("x2");
  }

  /** Formulas whose texts start with different tokens are unequal to both
      comparisons. */
  lemma FirstTokensDiffer(f: Formula, g: Formula, render: real -> string, a: seq<string>, b: seq<string>)
    requires GetTokens(Trim(ToString(f, render))) == a && GetTokens(Trim(ToString(g, render))) == b
    requires |a| > 0 && |b| > 0 && !SameToken(a[0], b[0])
    ensures EqualsSpec(f, FormulaObj(g), render) == Decided(false)
    ensures !EqualsFixed(f, FormulaObj(g), render)
  {
  }

  lemma SeparatedRejectsNumeral()
    ensures BuildSeparated("x 2.5", s => s, s => true) == FormatError(AdjacentOperands)
  {
    BuildNumeralAfterName();
    assert Operand([Var("x"), Num(2.5)][0]) && Operand([Var("x"), Num(2.5)][1]);
    RejectsAdjacent("x 2.5", s => s, s => true);
  }

  lemma TwoPointFiveValue()
    ensures ParseNumber("2.5") == Some(2.5)
  {
    assert NumberLen("2.5") == 3;
    assert MantissaValue("2.5", 1, 3) == 2.5;
  }

  lemma PointFiveValue()
    ensures ParseNumber(".5") == Some(0.5)
  {
    assert NumberLen(".5") == 2;
    assert MantissaValue(".5", 0, 2) == 0.5;
  }

  lemma SplitNumeralTokens()
    ensures GetTokens("x2.5") == ["x2", ".5"]
    ensures GetTokens("x20.5") == ["x20", ".5"]
  {
    SplitTokens();
    PointFive();
    assert MatchLen("x20.5") == 3;
    Emit("x20.5", "x20", ".5");
  }

  lemma SplitTokens()
    ensures GetTokens("x2.5") == ["x2", ".5"]
  {
    PointFive();
    assert MatchLen("x2.5") == 2;
    Emit("x2.5", "x2", ".5");
  }

  lemma SpacedNumeralTokens()
    ensures GetTokens("x 2.5") == ["x", "2.5"]
  {
    SpacedTwoPointFive();
    assert MatchLen("x 2.5") == 1;
    Emit("x 2.5", "x", " 2.5");
  }

  lemma SpacedTwoPointFive()
    ensures GetTokens(" 2.5") == ["2.5"]
  {
    TwoPointFive();
    assert MatchLen(" 2.5") == 1;
    Skip(" 2.5", " ", "2.5");
  }

  lemma TwoPointFive()
    ensures GetTokens("2.5") == ["2.5"]
  {
    assert MatchLen("2.5") == 3 by {
      assert NumberLen("2.5") == 3;
    }
    Emit("2.5", "2.5", "");
  }

  lemma PointFive()
    ensures GetTokens(".5") == [".5"]
  {
    assert NumberLen(".5") == 2;
    Emit(".5", ".5", "");
  }

  lemma NumeralTexts(render: real -> string)
    requires render(2.5) == "2.5" && render(0.5) == "0.5"
    ensures ToString(Formula([Var("x"), Num(2.5)], {"x"}), render) == "x2.5"
    ensures ToString(Formula([Var("x2"), Num(0.5)], {"x2"}), render) == "x20.5"
    ensures Trim("x2.5") == "x2.5" && Trim("x20.5") == "x20.5"
  {
    var ts := [Var("x"), Num(2.5)];
    var us := [Var("x2"), Num(0.5)];
    assert ts[..1] == [Var("x")] && us[..1] == [Var("x2")];
    assert FormulaString(ts, render) == "x2.5";
    assert FormulaString(us, render) == "x20.5";
    assert NoSpace("x2.5") && NoSpace("x20.5");
  }

  /** `x 2.5` is accepted as the variable `x` followed by the number 2.5. */
  lemma BuildNumeralAfterName()
    ensures BuildDefault("x 2.5") == Built(Formula([Var("x"), Num(2.5)], {"x"}))
  {
    SpacedNumeralTokens();
    TwoPointFiveValue();
    BuildNameNumeral("x 2.5", "x", "2.5", 2.5);
  }

  /** `x2.5` is accepted as the variable `x2` followed by the number 0.5. */
  lemma BuildSplitNumeral()
    ensures BuildDefault("x2.5") == Built(Formula([Var("x2"), Num(0.5)], {"x2"}))
  {
    SplitTokens();
    PointFiveValue();
    assert IsVariable("x2");
    BuildNameNumeral("x2.5", "x2", ".5", 0.5);
  }

  /** A text read as a variable and a non-negative numeral builds the formula
      of those two tokens. */
  lemma BuildNameNumeral(text: string, x: string, n: string, v: real)
    requires GetTokens(text) == [x, n]
    requires IsVariable(x) && ParseNumber(n) == Some(v) && v >= 0.0 && |n| > 0 && (IsDigit(n[0]) || n[0] == '.')
    ensures BuildDefault(text) == Built(Formula([Var(x), Num(v)], {x}))
  {
    NameNumeralAcceptable(x, n, v);
    BuildCharacterised(text, s => s, s => true);
    assert VariablesOf([Var(x), Num(v)]) == {x};
  }

  /** A variable followed by a non-negative numeral is acceptable to the
      one-argument constructor and reads as those two tokens. */
  lemma NameNumeralAcceptable(x: string, n: string, v: real)
    requires IsVariable(x) && ParseNumber(n) == Some(v) && v >= 0.0 && |n| > 0 && (IsDigit(n[0]) || n[0] == '.')
    ensures Acceptable([x, n], s => s, s => true)
    ensures CanonicalFrom([x, n], s => s, 0) == [Var(x), Num(v)]
  {
    var normalize: string -> string := s => s;
    var isValid: string -> bool := s => true;
    NameNumeralPositions(x, n, v, normalize, isValid);
    NameNumeralCanonical(x, n, v, normalize);
  }

  lemma NameNumeralPositions(x: string, n: string, v: real, normalize: string -> string, isValid: string -> bool)
    requires IsVariable(x) && ParseNumber(n) == Some(v) && v >= 0.0 && |n| > 0 && (IsDigit(n[0]) || n[0] == '.')
    requires normalize(x) == x && normalize(n) == n && isValid(x)
    ensures Acceptable([x, n], normalize, isValid)
  {
    var raw := [x, n];
    assert PositionOk(raw, normalize, isValid, 0);
    assert PositionOk(raw, normalize, isValid, 1);
    NoParentheses(x, n, normalize);
  }

  lemma NoParentheses(x: string, n: string, normalize: string -> string)
    requires IsVariable(x) && |n| > 0 && (IsDigit(n[0]) || n[0] == '.')
    requires normalize(x) == x && normalize(n) == n
    ensures Count([x, n], normalize, 0, "(") == 0 == Count([x, n], normalize, 0, ")")
  {
    var raw := [x, n];
    assert n != "(" && n != ")" && x != "(" && x != ")";
    assert Count(raw, normalize, 2, "(") == 0 == Count(raw, normalize, 2, ")");
  }

  lemma NameNumeralCanonical(x: string, n: string, v: real, normalize: string -> string)
    requires IsVariable(x) && ParseNumber(n) == Some(v)
    requires normalize(x) == x && normalize(n) == n
    ensures CanonicalFrom([x, n], normalize, 0) == [Var(x), Num(v)]
  {
    var raw := [x, n];
    VariableIsNotNumber(x);
    assert Canonical(x) == Some(Var(x)) && Canonical(n) == Some(Num(v));
    assert CanonicalFrom(raw, normalize, 2) == [];
    assert CanonicalFrom(raw, normalize, 1) == Append([], Canonical(n)) + [];
    assert CanonicalFrom(raw, normalize, 0) == Append([], Canonical(x)) + CanonicalFrom(raw, normalize, 1);
  }
}
