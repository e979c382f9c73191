/** What a constructed Formula shows of itself: its normalised text
    (`ToString`), the hash of that text, the enumeration of its variables, and
    equality (`Equals`, `==`, `!=`).

    `Equals` re-tokenizes both normalised texts and walks the first token array
    only, so it never looks at the length of the second: it is modelled as
    written (`Equals`), and next to it the length-checking comparison the
    documentation describes (`EqualsFixed`), which is an equivalence relation
    consistent with the hash. */
module Views {
  import opened Chars
  import opened Wrappers
  import opened Tokenizer
  import opened Numbers
  import opened Syntax

  /** The text the constructor appends for a canonical token; a number is
      written by `render`, which stands for `double.ToString`. */
  function TokenText(t: Token, render: real -> string): string
  {
    match t
    case Num(v) => render(v)
    case Var(x) => x
    case Op(o) => OperatorSymbol(o)
    case LParen => "("
    case RParen => ")"
  }

  /** No token text holds whitespace. */
  predicate PlainTexts(ts: seq<Token>, render: real -> string)
  {
    forall i :: 0 <= i < |ts| ==> NoSpace(TokenText(ts[i], render))
  }

  /** The `formulaString` field: the token texts, concatenated in order. */
  function FormulaString(ts: seq<Token>, render: real -> string): (r: string)
    ensures PlainTexts(ts, render) ==> NoSpace(r)
  {
    if ts == [] then []
    else
      var r := FormulaString(ts[..|ts| - 1], render) + TokenText(ts[|ts| - 1], render);
      assert PlainTexts(ts, render) ==> PlainTexts(ts[..|ts| - 1], render);
      r
  }

  /** `ToString`: the formula string, trimmed. When no token text holds
      whitespace it is the formula string itself, and holds no whitespace. */
  function ToString(f: Formula, render: real -> string): (r: string)
    ensures r == [] || (!IsSpace(r[0]) && !IsSpace(r[|r| - 1]))
    ensures PlainTexts(f.tokens, render) ==> r == FormulaString(f.tokens, render) && NoSpace(r)
  {
    var s := FormulaString(f.tokens, render);
    assert PlainTexts(f.tokens, render) ==> NoSpace(s);
    Trim(s)
  }

  /** `GetHashCode`: the string hash `hash` of the formula string. It depends on
      the normalised text only: formulas with the same `ToString` (and no
      whitespace in their token texts) have the same hash. */
  function GetHashCode(f: Formula, render: real -> string, hash: string -> int): (r: int)
    ensures PlainTexts(f.tokens, render) ==> r == hash(ToString(f, render))
  {
    hash(FormulaString(f.tokens, render))
  }

  /** The variable set a formula keeps is the set of names of its variable
      tokens (so each normalised name occurs once). */
  predicate Consistent(f: Formula)
  {
    f.variables == VariablesOf(f.tokens)
  }

  /** `GetVariables`: the normalised names of the variables of the formula,
      each once. */
  function GetVariables(f: Formula): (r: set<string>)
    ensures Consistent(f) ==>
      forall v :: v in r <==> exists i :: 0 <= i < |f.tokens| && f.tokens[i] == Var(v)
  {
    f.variables
  }

  /** The argument of `Equals`: null, a Formula, or some other object. */
  datatype Obj = NullObj | FormulaObj(formula: Formula) | OtherObj

  /** A boolean answer, or the index error `Equals` runs into. */
  datatype Verdict = Decided(value: bool) | OutOfRange

  function Negate(v: Verdict): Verdict
  {
    if v.Decided? then Decided(!v.value) else OutOfRange
  }

  /** Token equality inside `Equals`: two tokens that both parse as numbers are
      compared by value, any other pair as strings. */
  predicate SameToken(x: string, y: string)
  {
    if ParseNumber(x).Some? && ParseNumber(y).Some? then ParseNumber(x).value == ParseNumber(y).value
    else x == y
  }

  /** The comparison loop of `Equals` from position `i`: it runs over the first
      array; an index past the end of the second is an error. */
  function EqualsFrom(a: seq<string>, b: seq<string>, i: nat): Verdict
    decreases |a| - i
  {
    if i >= |a| then Decided(true)
    else if i >= |b| then OutOfRange
    else if !SameToken(a[i], b[i]) then Decided(false)
    else EqualsFrom(a, b, i + 1)
  }

  /** The loop as the source runs it. */
  method CompareTokens(a: seq<string>, b: seq<string>) returns (r: Verdict)
    ensures r == EqualsFrom(a, b, 0)
  {
    var i := 0;
    while i < |a|
      invariant 0 <= i <= |a|
      invariant EqualsFrom(a, b, i) == EqualsFrom(a, b, 0)
    {
      if i >= |b| {
        return OutOfRange;
      }
      if !SameToken(a[i], b[i]) {
        return Decided(false);
      }
      i := i + 1;
    }
    return Decided(true);
  }

  /** What `f.Equals(obj)` does: false unless `obj` is a Formula, otherwise the
      loop over the tokens of the two `ToString` texts. */
  function EqualsSpec(f: Formula, obj: Obj, render: real -> string): Verdict
  {
    if !obj.FormulaObj? then Decided(false)
    else EqualsFrom(GetTokens(Trim(ToString(f, render))), GetTokens(Trim(ToString(obj.formula, render))), 0)
  }

  method Equals(f: Formula, obj: Obj, render: real -> string) returns (r: Verdict)
    ensures r == EqualsSpec(f, obj, render)
    ensures !obj.FormulaObj? ==> r == Decided(false)
  {
    if !obj.FormulaObj? {
      return Decided(false);
    }
    var first := GetTokens(Trim(ToString(f, render)));
    var second := GetTokens(Trim(ToString(obj.formula, render)));
    r := CompareTokens(first, second);
  }

  /** `f1 == f2`: two nulls are equal, a null and a formula are not, two
      formulas are compared with `Equals`. */
  function EqualOp(f1: Option<Formula>, f2: Option<Formula>, render: real -> string): (r: Verdict)
    ensures f1.None? || f2.None? ==> r == Decided(f1.None? && f2.None?)
  {
    if f1.None? && f2.None? then Decided(true)
    else if f1.None? || f2.None? then Decided(false)
    else EqualsSpec(f1.value, FormulaObj(f2.value), render)
  }

  /** `f1 != f2`: two nulls are not different, a null and a formula are, two
      formulas are compared with `Equals`. */
  function NotEqualOp(f1: Option<Formula>, f2: Option<Formula>, render: real -> string): (r: Verdict)
    ensures f1.None? || f2.None? ==> r == Decided(f1.None? != f2.None?)
  {
    if f1.None? && f2.None? then Decided(false)
    else if f1.None? || f2.None? then Decided(true)
    else Negate(EqualsSpec(f1.value, FormulaObj(f2.value), render))
  }

  /** `!=` is the negation of `==` in every case, and `==` on two formulas is `Equals`. */
  lemma OperatorsAgree(f1: Option<Formula>, f2: Option<Formula>, render: real -> string)
    ensures NotEqualOp(f1, f2, render) == Negate(EqualOp(f1, f2, render))
    ensures f1.Some? && f2.Some? ==> EqualOp(f1, f2, render) == EqualsSpec(f1.value, FormulaObj(f2.value), render)
    ensures EqualOp(f1, f2, render).Decided?
      ==> EqualOp(f1, f2, render).value != NotEqualOp(f1, f2, render).value
  {
  }

  /** What the loop decides: true exactly when the first array is no longer
      than the second and matches it token by token on its length; an index
      error exactly when the first is longer and its prefix matches. */
  lemma {:induction false} EqualsFromCharacterised(a: seq<string>, b: seq<string>, i: nat)
    requires i <= |a| && i <= |b|
    ensures EqualsFrom(a, b, i) == Decided(true) <==> |a| <= |b| && MatchesOn(a, b, i, |a|)
    ensures EqualsFrom(a, b, i) == OutOfRange <==> |b| < |a| && MatchesOn(a, b, i, |b|)
    decreases |a| - i
  {
    if i < |a| && i < |b| {
      if SameToken(a[i], b[i]) {
        EqualsFromCharacterised(a, b, i + 1);
        MatchesOnStep(a, b, i, |a|);
        MatchesOnStep(a, b, i, |b|);
      } else {
        assert !MatchesOn(a, b, i, |a|) && !MatchesOn(a, b, i, |b|);
      }
    }
  }

  /** The tokens at positions `i` to `n` match. */
  predicate MatchesOn(a: seq<string>, b: seq<string>, i: nat, n: nat)
  {
    forall k :: i <= k < n && k < |a| && k < |b| ==> SameToken(a[k], b[k])
  }

  lemma MatchesOnStep(a: seq<string>, b: seq<string>, i: nat, n: nat)
    requires i < n && i < |a| && i < |b|
    ensures MatchesOn(a, b, i, n) <==> SameToken(a[i], b[i]) && MatchesOn(a, b, i + 1, n)
  {
  }

  /** The token comparison is an equivalence. */
  lemma SameTokenEquivalence(x: string, y: string, z: string)
    ensures SameToken(x, x)
    ensures SameToken(x, y) ==> SameToken(y, x)
    ensures SameToken(x, y) && SameToken(y, z) ==> SameToken(x, z)
  {
  }

  /** The comparison the documentation describes: the same number of tokens,
      matching one by one. */
  predicate TokensMatch(a: seq<string>, b: seq<string>)
  {
    |a| == |b| && forall i :: 0 <= i < |a| ==> SameToken(a[i], b[i])
  }

  /** `Equals` with the missing length check. */
  function EqualsFixed(f: Formula, obj: Obj, render: real -> string): bool
  {
    obj.FormulaObj? &&
    TokensMatch(GetTokens(Trim(ToString(f, render))), GetTokens(Trim(ToString(obj.formula, render))))
  }

  /** The corrected comparison is reflexive, symmetric and transitive. */
  lemma TokensMatchEquivalence(a: seq<string>, b: seq<string>, c: seq<string>)
    ensures TokensMatch(a, a)
    ensures TokensMatch(a, b) ==> TokensMatch(b, a)
    ensures TokensMatch(a, b) && TokensMatch(b, c) ==> TokensMatch(a, c)
  {
    forall i | 0 <= i < |a| {
      SameTokenEquivalence(a[i], a[i], a[i]);
    }
    if TokensMatch(a, b) {
      forall i | 0 <= i < |a| ensures SameToken(b[i], a[i]) {
        SameTokenEquivalence(a[i], b[i], a[i]);
      }
      if TokensMatch(b, c) {
        forall i | 0 <= i < |a| ensures SameToken(a[i], c[i]) {
          SameTokenEquivalence(a[i], b[i], c[i]);
        }
      }
    }
  }

  /** The loop as written agrees with the corrected comparison whenever the
      two arrays have the same length, and says true whenever the corrected
      comparison does. */
  lemma EqualsFromAgrees(a: seq<string>, b: seq<string>)
    ensures TokensMatch(a, b) ==> EqualsFrom(a, b, 0) == Decided(true)
    ensures |a| == |b| ==> (EqualsFrom(a, b, 0) == Decided(true) <==> TokensMatch(a, b))
    ensures |a| == |b| ==> EqualsFrom(a, b, 0).Decided?
  {
    EqualsFromCharacterised(a, b, 0);
  }

  /** Numerals at the same position that denote the same number are written alike. */
  predicate SameNumerals(a: seq<string>, b: seq<string>)
  {
    forall i :: 0 <= i < |a| && i < |b| && ParseNumber(a[i]).Some? && ParseNumber(b[i]).Some? ==>
      (ParseNumber(a[i]).value == ParseNumber(b[i]).value ==> a[i] == b[i])
  }

  /** The hash is consistent with the corrected equality: formulas that are
      equal have the same hash, as long as equal numbers are written alike and
      no token text holds whitespace. */
  lemma HashConsistent(f: Formula, g: Formula, render: real -> string, hash: string -> int)
    requires PlainTexts(f.tokens, render) && PlainTexts(g.tokens, render)
    requires SameNumerals(GetTokens(ToString(f, render)), GetTokens(ToString(g, render)))
    requires EqualsFixed(f, FormulaObj(g), render)
    ensures GetHashCode(f, render, hash) == GetHashCode(g, render, hash)
  {
    var s, t := ToString(f, render), ToString(g, render);
    assert Trim(s) == s && Trim(t) == t;
    MatchingTextsAreEqual(s, t);
  }

  /** Two texts without whitespace whose tokens match one by one, with equal
      numbers written alike, are the same text. */
  lemma MatchingTextsAreEqual(s: string, t: string)
    requires NoSpace(s) && NoSpace(t)
    requires SameNumerals(GetTokens(s), GetTokens(t))
    requires TokensMatch(GetTokens(s), GetTokens(t))
    ensures s == t
  {
    var a, b := GetTokens(s), GetTokens(t);
    assert a == b by {
      forall i | 0 <= i < |a| ensures a[i] == b[i] {
        assert SameToken(a[i], b[i]);
      }
    }
    GetTokensFacts(s);
    GetTokensFacts(t);
    RemoveSpaceOfNoSpace(s);
    RemoveSpaceOfNoSpace(t);
  }

  /** The as-written loop lets a shorter formula equal any formula it is a
      prefix of: `x` equals `x+y`, while `x+y` compared with `x` runs past the
      end of the second array. The two texts differ, so no hash that tells
      `x` from `x+y` is consistent with it; the corrected comparison says false. */
  lemma EqualsIgnoresLength(render: real -> string)
    ensures var f := Formula([Var("x")], {"x"});
      var g := Formula([Var("x"), Op(Plus), Var("y")], {"x", "y"});
      && EqualsSpec(f, FormulaObj(g), render) == Decided(true)
      && EqualsSpec(g, FormulaObj(f), render) == OutOfRange
      && ToString(f, render) != ToString(g, render)
      && !EqualsFixed(f, FormulaObj(g), render)
  {
    var f := Formula([Var("x")], {"x"});
    var g := Formula([Var("x"), Op(Plus), Var("y")], {"x", "y"});
    ShortTexts(render);
    ShortTokens();
    ShortTrims();
    CompareShort(f, g, render);
  }

  lemma ShortTrims()
    ensures Trim("x") == "x" && Trim("x+y") == "x+y"
  {
    assert NoSpace("x") && NoSpace("x+y");
  }

  /** The comparison loop on the tokens `x` and `x`,`+`,`y`, both ways. */
  lemma CompareShort(f: Formula, g: Formula, render: real -> string)
    requires GetTokens(Trim(ToString(f, render))) == ["x"]
    requires GetTokens(Trim(ToString(g, render))) == ["x", "+", "y"]
    ensures EqualsSpec(f, FormulaObj(g), render) == Decided(true)
    ensures EqualsSpec(g, FormulaObj(f), render) == OutOfRange
    ensures !EqualsFixed(f, FormulaObj(g), render)
  {
    assert EqualsFrom(["x"], ["x", "+", "y"], 1) == Decided(true);
    assert EqualsFrom(["x", "+", "y"], ["x"], 1) == OutOfRange;
  }

  lemma ShortTexts(render: real -> string)
    ensures ToString(Formula([Var("x")], {"x"}), render) == "x"
    ensures ToString(Formula([Var("x"), Op(Plus), Var("y")], {"x", "y"}), render) == "x+y"
  {
    var ts := [Var("x"), Op(Plus), Var("y")];
    assert PlainTexts([Var("x")], render);
    assert PlainTexts(ts, render);
    assert FormulaString([Var("x")], render) == "x";
    assert ts[..2] == [Var("x"), Op(Plus)];
    assert ts[..2][..1] == [Var("x")];
    assert FormulaString(ts, render) == "x+y";
  }

  lemma ShortTokens()
    ensures GetTokens("x") == ["x"]
    ensures GetTokens("x+y") == ["x", "+", "y"]
  {
    Emit("x", "x", "");
    Emit("x+y", "x", "+y");
    Emit("+y", "+", "y");
    Emit("y", "y", "");
  }

  /** Formulas with the same canonical tokens have the same text and the same
      hash, and `Equals` says true between them. */
  lemma SameTokensAreEqual(f: Formula, g: Formula, render: real -> string, hash: string -> int)
    requires f.tokens == g.tokens
    ensures ToString(f, render) == ToString(g, render)
    ensures GetHashCode(f, render, hash) == GetHashCode(g, render, hash)
    ensures EqualsSpec(f, FormulaObj(g), render) == Decided(true)
    ensures EqualsFixed(f, FormulaObj(g), render)
  {
    SameTextsAreEqual(f, g, render);
  }

  /** `Equals` sees a formula only through its text: formulas written alike
      are equal, whatever their tokens. */
  lemma SameTextsAreEqual(f: Formula, g: Formula, render: real -> string)
    requires ToString(f, render) == ToString(g, render)
    ensures EqualsSpec(f, FormulaObj(g), render) == Decided(true)
    ensures EqualsFixed(f, FormulaObj(g), render)
  {
    var a := GetTokens(Trim(ToString(f, render)));
    TokensMatchEquivalence(a, a, a);
    EqualsFromAgrees(a, a);
  }
}
