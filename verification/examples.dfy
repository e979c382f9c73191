/** Worked values of the model: the machine on the token sequences of the
    formulas the repository's tests evaluate, the source's quirk after a bare
    `(`, the two error results of evaluation, two texts the constructor
    rejects, and one text taken from construction through `ToString` to the
    value `Evaluate` gives. Each value is read off the reference tree of the
    formula. */
module Examples {
  import opened Wrappers
  import opened Tokenizer
  import opened Numbers
  import opened Syntax
  import opened Validator
  import opened Evaluator
  import opened Reference
  import opened Chars
  import opened Acceptance
  import opened Views
  import RoundTrip
  import Resplit

  function Lit(v: real): Term
  {
    Unit(Number(v))
  }

  /** `2+6*3` is 20: `*` binds tighter than `+`. */
  lemma PlusThenTimes(variant: Variant, lookup: string -> Option<real>)
    ensures Evaluation(variant, lookup, [Num(2.0), Op(Plus), Num(6.0), Op(Times), Num(3.0)]) == Value(20.0)
  {
    var e := Sum(Single(Lit(2.0)), Add, Product(Lit(6.0), Mul, Number(3.0)));
    EvaluationMatchesReference(variant, lookup, e);
    assert FlattenExpr(e) == [Num(2.0), Op(Plus), Num(6.0), Op(Times), Num(3.0)];
    assert EvalExpr(e, lookup) == Value(20.0);
  }

  /** `2*6+3` is 15. */
  lemma TimesThenPlus(variant: Variant, lookup: string -> Option<real>)
    ensures Evaluation(variant, lookup, [Num(2.0), Op(Times), Num(6.0), Op(Plus), Num(3.0)]) == Value(15.0)
  {
    var e := Sum(Single(Product(Lit(2.0), Mul, Number(6.0))), Add, Lit(3.0));
    EvaluationMatchesReference(variant, lookup, e);
    assert FlattenExpr(e) == [Num(2.0), Op(Times), Num(6.0), Op(Plus), Num(3.0)];
    assert EvalExpr(e, lookup) == Value(15.0);
  }

  /** `(2+6)*3` is 24: the parentheses come first. */
  lemma GroupThenTimes(variant: Variant, lookup: string -> Option<real>)
    ensures Evaluation(variant, lookup, [LParen, Num(2.0), Op(Plus), Num(6.0), RParen, Op(Times), Num(3.0)])
      == Value(24.0)
  {
    var e := Single(Product(Unit(Group(Sum(Single(Lit(2.0)), Add, Lit(6.0)))), Mul, Number(3.0)));
    EvaluationMatchesReference(variant, lookup, e);
    assert FlattenExpr(e) == [LParen, Num(2.0), Op(Plus), Num(6.0), RParen, Op(Times), Num(3.0)];
    assert EvalExpr(e, lookup) == Value(24.0);
  }

  /** `2*(3+5)` is 16, as written too: the group ends in a `+`. */
  lemma TimesGroup(variant: Variant, lookup: string -> Option<real>)
    ensures Evaluation(variant, lookup, [Num(2.0), Op(Times), LParen, Num(3.0), Op(Plus), Num(5.0), RParen])
      == Value(16.0)
  {
    var e := Single(Product(Lit(2.0), Mul, Group(Sum(Single(Lit(3.0)), Add, Lit(5.0)))));
    EvaluationMatchesReference(variant, lookup, e);
    assert FlattenExpr(e) == [Num(2.0), Op(Times), LParen, Num(3.0), Op(Plus), Num(5.0), RParen];
    assert EvalExpr(e, lookup) == Value(16.0);
  }

  /** `(1*1)-2/2` is 0. */
  lemma GroupMinusQuotient(variant: Variant, lookup: string -> Option<real>)
    ensures Evaluation(variant, lookup,
      [LParen, Num(1.0), Op(Times), Num(1.0), RParen, Op(Minus), Num(2.0), Op(Divide), Num(2.0)]) == Value(0.0)
  {
    var e := Sum(Single(Unit(Group(Single(Product(Lit(1.0), Mul, Number(1.0)))))), Sub,
                 Product(Lit(2.0), Div, Number(2.0)));
    EvaluationMatchesReference(variant, lookup, e);
    assert FlattenExpr(e) == [LParen, Num(1.0), Op(Times), Num(1.0), RParen, Op(Minus), Num(2.0), Op(Divide), Num(2.0)];
    assert EvalExpr(e, lookup) == Value(0.0);
  }

  /** `5/0` is the divide-by-zero FormulaError. */
  lemma DivideByZeroExample(variant: Variant, lookup: string -> Option<real>)
    ensures Evaluation(variant, lookup, [Num(5.0), Op(Divide), Num(0.0)]) == Error(DivideByZero)
  {
    var e := Single(Product(Lit(5.0), Div, Number(0.0)));
    EvaluationMatchesReference(variant, lookup, e);
    assert FlattenExpr(e) == [Num(5.0), Op(Divide), Num(0.0)];
    assert EvalExpr(e, lookup) == Error(DivideByZero);
  }

  /** `2+X1` with `X1` undefined is the undefined-variable FormulaError. */
  lemma UndefinedExample(variant: Variant, lookup: string -> Option<real>)
    requires lookup("X1").None?
    ensures Evaluation(variant, lookup, [Num(2.0), Op(Plus), Var("X1")]) == Error(UndefinedVariable("X1"))
  {
    var e := Sum(Single(Lit(2.0)), Add, Unit(Name("X1")));
    EvaluationMatchesReference(variant, lookup, e);
    assert FlattenExpr(e) == [Num(2.0), Op(Plus), Var("X1")];
    assert EvalExpr(e, lookup) == Error(UndefinedVariable("X1"));
  }

  /** `2+X1` with `X1` bound to 4 is 6. */
  lemma DefinedExample(variant: Variant, lookup: string -> Option<real>)
    requires lookup("X1") == Some(4.0)
    ensures Evaluation(variant, lookup, [Num(2.0), Op(Plus), Var("X1")]) == Value(6.0)
  {
    var e := Sum(Single(Lit(2.0)), Add, Unit(Name("X1")));
    EvaluationMatchesReference(variant, lookup, e);
    assert FlattenExpr(e) == [Num(2.0), Op(Plus), Var("X1")];
    assert EvalExpr(e, lookup) == Value(6.0);
  }

  /** `2+(3+5)` is 10. */
  lemma PlusGroup(variant: Variant, lookup: string -> Option<real>)
    ensures Evaluation(variant, lookup, [Num(2.0), Op(Plus), LParen, Num(3.0), Op(Plus), Num(5.0), RParen])
      == Value(10.0)
  {
    var e := Sum(Single(Lit(2.0)), Add, Unit(Group(Sum(Single(Lit(3.0)), Add, Lit(5.0)))));
    EvaluationMatchesReference(variant, lookup, e);
    assert FlattenExpr(e) == [Num(2.0), Op(Plus), LParen, Num(3.0), Op(Plus), Num(5.0), RParen];
    assert EvalExpr(e, lookup) == Value(10.0);
  }

  /** `2+3*(3+5)` is 26. */
  lemma PlusTimesGroup(variant: Variant, lookup: string -> Option<real>)
    ensures Evaluation(variant, lookup,
      [Num(2.0), Op(Plus), Num(3.0), Op(Times), LParen, Num(3.0), Op(Plus), Num(5.0), RParen]) == Value(26.0)
  {
    var e := Sum(Single(Lit(2.0)), Add, Product(Lit(3.0), Mul, Group(Sum(Single(Lit(3.0)), Add, Lit(5.0)))));
    EvaluationMatchesReference(variant, lookup, e);
    assert FlattenExpr(e) == [Num(2.0), Op(Plus), Num(3.0), Op(Times), LParen, Num(3.0), Op(Plus), Num(5.0), RParen];
    assert EvalExpr(e, lookup) == Value(26.0);
  }

  /** `16/2` is 8. */
  lemma Quotient(variant: Variant, lookup: string -> Option<real>)
    ensures Evaluation(variant, lookup, [Num(16.0), Op(Divide), Num(2.0)]) == Value(8.0)
  {
    var e := Single(Product(Lit(16.0), Div, Number(2.0)));
    EvaluationMatchesReference(variant, lookup, e);
    assert FlattenExpr(e) == [Num(16.0), Op(Divide), Num(2.0)];
    assert EvalExpr(e, lookup) == Value(8.0);
  }

  /** `2+(3+5*9)` is 50: the product inside the group comes first. */
  lemma PlusGroupTimes(variant: Variant, lookup: string -> Option<real>)
    ensures Evaluation(variant, lookup,
      [Num(2.0), Op(Plus), LParen, Num(3.0), Op(Plus), Num(5.0), Op(Times), Num(9.0), RParen]) == Value(50.0)
  {
    var e := Sum(Single(Lit(2.0)), Add, Unit(Group(Sum(Single(Lit(3.0)), Add, Product(Lit(5.0), Mul, Number(9.0))))));
    EvaluationMatchesReference(variant, lookup, e);
    assert FlattenExpr(e) == [Num(2.0), Op(Plus), LParen, Num(3.0), Op(Plus), Num(5.0), Op(Times), Num(9.0), RParen];
    assert EvalExpr(e, lookup) == Value(50.0);
  }

  /** `2*(3)` is 6 when repaired; as written the `*` is left pending over the
      two values and the method ends with its `return 0`: the `int` 0, not a
      `double`. */
  lemma BareGroupExample(lookup: string -> Option<real>)
    ensures Evaluation(Repaired, lookup, [Num(2.0), Op(Times), LParen, Num(3.0), RParen]) == Value(6.0)
    ensures Evaluation(AsWritten, lookup, [Num(2.0), Op(Times), LParen, Num(3.0), RParen]) == IntZero
  {
    var e := Single(Product(Lit(2.0), Mul, Group(Single(Lit(3.0)))));
    EvaluationMatchesReference(Repaired, lookup, e);
    assert FlattenExpr(e) == [Num(2.0), Op(Times), LParen, Num(3.0), RParen];
    assert EvalExpr(e, lookup) == Value(6.0);
    BareGroupAsWritten(lookup);
  }

  lemma BareGroupAsWritten(lookup: string -> Option<real>)
    ensures Evaluation(AsWritten, lookup, [Num(2.0), Op(Times), LParen, Num(3.0), RParen]) == IntZero
  {
    var t1 := [Num(2.0)];
    ExecSingle(AsWritten, lookup, Initial, Num(2.0));
    var t2 := t1 + [Op(Times)];
    ExecSnoc(AsWritten, lookup, t1, Op(Times));
    var t3 := t2 + [LParen];
    ExecSnoc(AsWritten, lookup, t2, LParen);
    var t4 := t3 + [Num(3.0)];
    ExecSnoc(AsWritten, lookup, t3, Num(3.0));
    assert Exec(AsWritten, lookup, Running(Initial), t4) == Running(Machine([Pend(Times), Open], [2.0, 3.0]));
    var t5 := t4 + [RParen];
    ExecSnoc(AsWritten, lookup, t4, RParen);
    assert Exec(AsWritten, lookup, Running(Initial), t5) == Running(Machine([Pend(Times)], [2.0, 3.0]));
    assert t5 == [Num(2.0), Op(Times), LParen, Num(3.0), RParen];
  }

  /** One more token after a run from the start. */
  lemma ExecSnoc(variant: Variant, lookup: string -> Option<real>, ts: seq<Token>, t: Token)
    ensures Exec(variant, lookup, Running(Initial), ts + [t])
      == StepRun(variant, lookup, Exec(variant, lookup, Running(Initial), ts), t)
  {
    assert (ts + [t])[..|ts|] == ts;
  }

  /** The empty text and a lone operator are rejected before the loop; the
      closing and balance checks of longer texts are characterised once for
      all texts by `BuildCharacterised`. */
  lemma EmptyAndOperatorRejected()
    ensures BuildDefault("") == FormatError(EmptyText)
    ensures BuildDefault("+") == FormatError(InvalidFirst)
  {
    Emit("+", "+", "");
    assert GetTokens("+") == ["+"];
    assert ParseNumber("+").None?;
  }

  /** End to end: the text `2+X1` builds the formula of the number 2, `+` and
      the variable `X1`; its `ToString` is `2+X1` again, and evaluating that
      text the way `Evaluate` does gives 6 when `X1` is 4. */
  lemma DefinedFromText(variant: Variant, lookup: string -> Option<real>, render: real -> string)
    requires lookup("X1") == Some(4.0) && render(2.0) == "2"
    ensures BuildDefault("2+X1") == Built(Formula([Num(2.0), Op(Plus), Var("X1")], {"X1"}))
    ensures ToString(Formula([Num(2.0), Op(Plus), Var("X1")], {"X1"}), render) == "2+X1"
    ensures Resplit.TextEvaluation(variant, lookup, ToString(Formula([Num(2.0), Op(Plus), Var("X1")], {"X1"}), render))
      == Value(6.0)
  {
    var f := Formula([Num(2.0), Op(Plus), Var("X1")], {"X1"});
    BuildDefined();
    DefinedText(render);
    DefinedResplittable(render);
    Resplit.SeparatedEvaluation(variant, lookup, f, render);
    DefinedExample(variant, lookup);
  }

  lemma TwoValue()
    ensures ParseNumber("2") == Some(2.0)
  {
    assert NumberLen("2") == 1;
  }

  lemma DefinedTokens()
    ensures GetTokens("2+X1") == ["2", "+", "X1"]
  {
    PlusNameTokens();
    LeadingTwo();
    Emit("2+X1", "2", "+X1");
  }

  lemma LeadingTwo()
    ensures MatchLen("2+X1") == 1
  {
    assert DigitsFrom("2+X1", 0) == 1;
    assert NumberLen("2+X1") == 1;
  }

  lemma PlusNameTokens()
    ensures GetTokens("+X1") == ["+", "X1"]
  {
    Emit("X1", "X1", "");
    assert MatchLen("+X1") == 1;
    Emit("+X1", "+", "X1");
  }

  lemma DefinedAcceptable()
    ensures Acceptable(["2", "+", "X1"], s => s, s => true)
  {
    var raw := ["2", "+", "X1"];
    var normalize: string -> string := s => s;
    var isValid: string -> bool := s => true;
    DefinedPositions(normalize, isValid);
    assert Count(raw, normalize, 3, "(") == 0 == Count(raw, normalize, 3, ")");
    assert Count(raw, normalize, 0, "(") == 0 == Count(raw, normalize, 0, ")");
  }

  lemma DefinedPositions(normalize: string -> string, isValid: string -> bool)
    requires normalize("2") == "2" && normalize("+") == "+" && normalize("X1") == "X1" && isValid("X1")
    ensures forall i :: 0 <= i < 3 ==> PositionOk(["2", "+", "X1"], normalize, isValid, i)
  {
    var raw := ["2", "+", "X1"];
    TwoValue();
    VariableIsNotNumber("X1");
    assert PositionOk(raw, normalize, isValid, 0);
    assert PositionOk(raw, normalize, isValid, 1);
    assert PositionOk(raw, normalize, isValid, 2);
  }

  lemma DefinedCanonical()
    ensures CanonicalFrom(["2", "+", "X1"], s => s, 0) == [Num(2.0), Op(Plus), Var("X1")]
  {
    var raw := ["2", "+", "X1"];
    var normalize: string -> string := s => s;
    TwoValue();
    VariableIsNotNumber("X1");
    assert ParseNumber("+") == None;
    assert Canonical("2") == Some(Num(2.0)) && Canonical("+") == Some(Op(Plus)) && Canonical("X1") == Some(Var("X1"));
    assert CanonicalFrom(raw, normalize, 3) == [];
    assert CanonicalFrom(raw, normalize, 2) == Append([], Canonical("X1")) + [];
    assert CanonicalFrom(raw, normalize, 1) == Append([], Canonical("+")) + CanonicalFrom(raw, normalize, 2);
    assert CanonicalFrom(raw, normalize, 0) == Append([], Canonical("2")) + CanonicalFrom(raw, normalize, 1);
  }

  lemma BuildDefined()
    ensures BuildDefault("2+X1") == Built(Formula([Num(2.0), Op(Plus), Var("X1")], {"X1"}))
  {
    DefinedTokens();
    DefinedAcceptable();
    DefinedCanonical();
    BuildCharacterised("2+X1", s => s, s => true);
    assert VariablesOf([Num(2.0), Op(Plus), Var("X1")]) == {"X1"};
  }

  lemma DefinedResplittable(render: real -> string)
    requires render(2.0) == "2"
    ensures Resplit.Resplittable([Num(2.0), Op(Plus), Var("X1")], render)
    ensures RoundTrip.Separated([Num(2.0), Op(Plus), Var("X1")])
  {
    var ts := [Num(2.0), Op(Plus), Var("X1")];
    DefinedWritable(render);
    assert Resplit.Undelimited("2");
    forall k | 0 <= k < |ts| && ts[k].Num?
      ensures Resplit.Undelimited(render(ts[k].value))
    {
      assert k == 0;
    }
    forall i | 0 <= i < |ts| - 1 && RoundTrip.Operand(ts[i])
      ensures !RoundTrip.Operand(ts[i + 1])
    {
      assert i == 0;
    }
  }

  lemma DefinedWritable(render: real -> string)
    requires render(2.0) == "2"
    ensures RoundTrip.Writable([Num(2.0), Op(Plus), Var("X1")], render)
  {
    var ts := [Num(2.0), Op(Plus), Var("X1")];
    TwoRenders(render);
    assert IsVariable("X1");
    forall i | 0 <= i < |ts|
      ensures (ts[i].Num? ==> RoundTrip.Renders(render, ts[i].value)) && (ts[i].Var? ==> IsVariable(ts[i].name))
    {
      assert i == 0 || i == 1 || i == 2;
    }
  }

  lemma TwoRenders(render: real -> string)
    requires render(2.0) == "2"
    ensures RoundTrip.Renders(render, 2.0)
  {
    TwoValue();
    assert NumberLen("2") == 1;
  }

  lemma DefinedText(render: real -> string)
    requires render(2.0) == "2"
    ensures ToString(Formula([Num(2.0), Op(Plus), Var("X1")], {"X1"}), render) == "2+X1"
  {
    var ts := [Num(2.0), Op(Plus), Var("X1")];
    assert PlainTexts(ts, render);
    assert ts[..2][..1] == [Num(2.0)] && ts[..2] == [Num(2.0), Op(Plus)];
    assert FormulaString([Num(2.0)], render) == "2";
    assert FormulaString(ts[..2], render) == "2+";
    assert FormulaString(ts, render) == "2+X1";
  }
}
