/** An independent definition of what a formula means: expressions as trees
    following the usual grammar (a sum of terms, a term a product of factors,
    a factor a number, a variable or a parenthesised expression), their
    token sequences, and their values computed left to right with `*` and `/`
    binding tighter than `+` and `-`. Errors arise where the source reports
    them: an undefined variable, or a divisor exactly 0. */
module Reference {
  import opened Wrappers
  import opened Syntax
  import opened Evaluator

  datatype AddOp = Add | Sub
  datatype MulOp = Mul | Div

  datatype Expr = Single(t: Term) | Sum(e: Expr, addOp: AddOp, t: Term)
  datatype Term = Unit(f: Factor) | Product(t: Term, mulOp: MulOp, f: Factor)
  datatype Factor = Number(v: real) | Name(name: string) | Group(e: Expr)

  function AddOperator(a: AddOp): Operator
  {
    if a == Add then Plus else Minus
  }

  function MulOperator(m: MulOp): Operator
  {
    if m == Mul then Times else Divide
  }

  function FlattenExpr(e: Expr): seq<Token>
  {
    match e
    case Single(t) => FlattenTerm(t)
    case Sum(e1, a, t) => FlattenExpr(e1) + [Op(AddOperator(a))] + FlattenTerm(t)
  }

  function FlattenTerm(t: Term): seq<Token>
  {
    match t
    case Unit(f) => FlattenFactor(f)
    case Product(t1, m, f) => FlattenTerm(t1) + [Op(MulOperator(m))] + FlattenFactor(f)
  }

  function FlattenFactor(f: Factor): seq<Token>
  {
    match f
    case Number(v) => [Num(v)]
    case Name(x) => [Var(x)]
    case Group(e) => [LParen] + FlattenExpr(e) + [RParen]
  }

  /** The value of an expression, or the first error met evaluating it left to right. */
  function EvalExpr(e: Expr, lookup: string -> Option<real>): Outcome
  {
    match e
    case Single(t) => EvalTerm(t, lookup)
    case Sum(e1, a, t) =>
      var l := EvalExpr(e1, lookup);
      if !l.Value? then l
      else
        var r := EvalTerm(t, lookup);
        if !r.Value? then r
        else Value(Apply(AddOperator(a), l.value, r.value))
  }

  function EvalTerm(t: Term, lookup: string -> Option<real>): Outcome
  {
    match t
    case Unit(f) => EvalFactor(f, lookup)
    case Product(t1, m, f) =>
      var l := EvalTerm(t1, lookup);
      if !l.Value? then l
      else
        var r := EvalFactor(f, lookup);
        if !r.Value? then r
        else if m == Div && r.value == 0.0 then Error(DivideByZero)
        else Value(Apply(MulOperator(m), l.value, r.value))
  }

  function EvalFactor(f: Factor, lookup: string -> Option<real>): Outcome
  {
    match f
    case Number(v) => Value(v)
    case Name(x) => if lookup(x).Some? then Value(lookup(x).value) else Error(UndefinedVariable(x))
    case Group(e) => EvalExpr(e, lookup)
  }

  /** No parenthesised expression without a top-level `+` or `-` is the right
      operand of `*` or `/`: the trees on which the source's handling of `)`
      after a bare `(` does no harm. */
  predicate UnaffectedExpr(e: Expr)
  {
    match e
    case Single(t) => UnaffectedTerm(t)
    case Sum(e1, _, t) => UnaffectedExpr(e1) && UnaffectedTerm(t)
  }

  predicate UnaffectedTerm(t: Term)
  {
    match t
    case Unit(f) => UnaffectedFactor(f)
    case Product(t1, _, f) =>
      UnaffectedTerm(t1) && UnaffectedFactor(f) && (f.Group? ==> f.e.Sum?)
  }

  predicate UnaffectedFactor(f: Factor)
  {
    match f
    case Group(e) => UnaffectedExpr(e)
    case _ => true
  }

  /** What an expression leaves above the stacks it started from: just its
      value, or (for a top-level sum) its last `+` or `-` still pending over
      the two values it combines. */
  predicate Settles(pend: seq<Pending>, ws: seq<real>, v: real)
  {
    || (pend == [] && ws == [v])
    || (|pend| == 1 && IsAddSub(pend[0]) && |ws| == 2 && Apply(pend[0].op, ws[0], ws[1]) == v)
  }

  predicate Admits(variant: Variant, e: Expr)
  {
    variant == Repaired || UnaffectedExpr(e)
  }

  predicate AdmitsTerm(variant: Variant, t: Term)
  {
    variant == Repaired || UnaffectedTerm(t)
  }

  predicate AdmitsFactor(variant: Variant, f: Factor)
  {
    variant == Repaired || UnaffectedFactor(f)
  }

  /** A factor that may be the right operand of `*` or `/`. */
  predicate AdmitsRightOperand(variant: Variant, f: Factor)
  {
    variant == Repaired || (UnaffectedFactor(f) && (f.Group? ==> f.e.Sum?))
  }

  predicate TopIsOpen(m: Machine)
  {
    |m.ops| == 0 || Last(m.ops) == Open
  }

  /** The tokens of an expression, run from stacks with nothing pending on top,
      either stop with the expression's error or leave its settled form. */
  lemma {:induction false} ExprRun(variant: Variant, lookup: string -> Option<real>, e: Expr, m: Machine)
    returns (pend: seq<Pending>, ws: seq<real>)
    requires TopIsOpen(m) && Admits(variant, e)
    ensures EvalExpr(e, lookup).Value? ==>
      Exec(variant, lookup, Running(m), FlattenExpr(e)) == Running(Machine(m.ops + pend, m.vals + ws))
      && Settles(pend, ws, EvalExpr(e, lookup).value)
      && (pend == [] <==> e.Single?)
    ensures !EvalExpr(e, lookup).Value? ==>
      Exec(variant, lookup, Running(m), FlattenExpr(e)) == Stopped(EvalExpr(e, lookup))
    decreases e, 1
  {
    pend, ws := [], [];
    match e
    case Single(t) =>
      TermRun(variant, lookup, t, m);
      if EvalTerm(t, lookup).Value? {
        ws := [EvalTerm(t, lookup).value];
      }
    case Sum(e1, a, t) =>
      var p1, w1 := ExprRun(variant, lookup, e1, m);
      pend, ws := SumRun(variant, lookup, e1, a, t, m, p1, w1);
  }

  /** The step of `ExprRun` for a sum, given what the run of its left operand does. */
  lemma SumRun(variant: Variant, lookup: string -> Option<real>, e1: Expr, a: AddOp, t: Term, m: Machine,
               p1: seq<Pending>, w1: seq<real>)
    returns (pend: seq<Pending>, ws: seq<real>)
    requires TopIsOpen(m) && AdmitsTerm(variant, t)
    requires EvalExpr(e1, lookup).Value? ==>
      Exec(variant, lookup, Running(m), FlattenExpr(e1)) == Running(Machine(m.ops + p1, m.vals + w1))
      && Settles(p1, w1, EvalExpr(e1, lookup).value)
    requires !EvalExpr(e1, lookup).Value? ==>
      Exec(variant, lookup, Running(m), FlattenExpr(e1)) == Stopped(EvalExpr(e1, lookup))
    ensures EvalExpr(Sum(e1, a, t), lookup).Value? ==>
      Exec(variant, lookup, Running(m), FlattenExpr(Sum(e1, a, t))) == Running(Machine(m.ops + pend, m.vals + ws))
      && Settles(pend, ws, EvalExpr(Sum(e1, a, t), lookup).value)
      && pend != []
    ensures !EvalExpr(Sum(e1, a, t), lookup).Value? ==>
      Exec(variant, lookup, Running(m), FlattenExpr(Sum(e1, a, t))) == Stopped(EvalExpr(Sum(e1, a, t), lookup))
    decreases Sum(e1, a, t), 0
  {
    pend, ws := [], [];
    var tokens1 := FlattenExpr(e1) + [Op(AddOperator(a))];
    ExecAppend(variant, lookup, Running(m), tokens1, FlattenTerm(t));
    ExecAppend(variant, lookup, Running(m), FlattenExpr(e1), [Op(AddOperator(a))]);
    var l := EvalExpr(e1, lookup);
    if !l.Value? {
      ExecStopped(variant, lookup, l, [Op(AddOperator(a))]);
      ExecStopped(variant, lookup, l, FlattenTerm(t));
    } else {
      var m1 := Machine(m.ops + [Pend(AddOperator(a))], m.vals + [l.value]);
      PushAddOp(variant, lookup, m, p1, w1, l.value, a);
      TermRun(variant, lookup, t, m1);
      pend := [Pend(AddOperator(a))];
      if EvalTerm(t, lookup).Value? {
        ws := [l.value, EvalTerm(t, lookup).value];
        assert m1.ops + [] == m.ops + pend;
        assert m1.vals + [EvalTerm(t, lookup).value] == m.vals + ws;
      }
    }
  }

  /** A `+` or `-` arriving over a settled expression applies any pending `+`
      or `-` and becomes the pending operator itself. */
  lemma PushAddOp(variant: Variant, lookup: string -> Option<real>, m: Machine, pend: seq<Pending>, ws: seq<real>, v: real, a: AddOp)
    requires TopIsOpen(m) && Settles(pend, ws, v)
    ensures Exec(variant, lookup, Running(Machine(m.ops + pend, m.vals + ws)), [Op(AddOperator(a))])
      == Running(Machine(m.ops + [Pend(AddOperator(a))], m.vals + [v]))
  {
    var s := Machine(m.ops + pend, m.vals + ws);
    ExecSingle(variant, lookup, s, Op(AddOperator(a)));
    if pend != [] {
      assert Last(s.ops) == pend[0];
      assert Pop(s.ops) == m.ops;
      assert s.vals[..|s.vals| - 2] == m.vals;
    }
  }

  /** The tokens of a term, run from stacks with no `*` or `/` on top, either
      stop with the term's error or push its value. */
  lemma {:induction false} TermRun(variant: Variant, lookup: string -> Option<real>, t: Term, m: Machine)
    requires (|m.ops| == 0 || !IsMulDiv(Last(m.ops))) && AdmitsTerm(variant, t)
    ensures EvalTerm(t, lookup).Value? ==>
      Exec(variant, lookup, Running(m), FlattenTerm(t)) == Running(Machine(m.ops, m.vals + [EvalTerm(t, lookup).value]))
    ensures !EvalTerm(t, lookup).Value? ==>
      Exec(variant, lookup, Running(m), FlattenTerm(t)) == Stopped(EvalTerm(t, lookup))
    decreases t, 1
  {
    match t
    case Unit(f) =>
      FactorRun(variant, lookup, f, m);
    case Product(t1, mo, f) =>
      TermRun(variant, lookup, t1, m);
      ProductRun(variant, lookup, t1, mo, f, m);
  }

  /** A product, given what its left operand's tokens do. */
  lemma ProductRun(variant: Variant, lookup: string -> Option<real>, t1: Term, mo: MulOp, f: Factor, m: Machine)
    requires AdmitsTerm(variant, Product(t1, mo, f))
    requires EvalTerm(t1, lookup).Value? ==>
      Exec(variant, lookup, Running(m), FlattenTerm(t1)) == Running(Machine(m.ops, m.vals + [EvalTerm(t1, lookup).value]))
    requires !EvalTerm(t1, lookup).Value? ==>
      Exec(variant, lookup, Running(m), FlattenTerm(t1)) == Stopped(EvalTerm(t1, lookup))
    ensures var t := Product(t1, mo, f);
      && (EvalTerm(t, lookup).Value? ==>
        Exec(variant, lookup, Running(m), FlattenTerm(t)) == Running(Machine(m.ops, m.vals + [EvalTerm(t, lookup).value])))
      && (!EvalTerm(t, lookup).Value? ==>
        Exec(variant, lookup, Running(m), FlattenTerm(t)) == Stopped(EvalTerm(t, lookup)))
    decreases Product(t1, mo, f), 0
  {
    var tokens1 := FlattenTerm(t1) + [Op(MulOperator(mo))];
    ExecAppend(variant, lookup, Running(m), tokens1, FlattenFactor(f));
    ExecAppend(variant, lookup, Running(m), FlattenTerm(t1), [Op(MulOperator(mo))]);
    var l := EvalTerm(t1, lookup);
    if !l.Value? {
      ExecStopped(variant, lookup, l, [Op(MulOperator(mo))]);
      ExecStopped(variant, lookup, l, FlattenFactor(f));
    } else {
      PushMulOp(variant, lookup, m, mo, l.value);
      FactorRunAfterMulDiv(variant, lookup, f, m, mo, l.value);
    }
  }

  /** A `*` or `/` arriving over a value is pushed. */
  lemma PushMulOp(variant: Variant, lookup: string -> Option<real>, m: Machine, mo: MulOp, w: real)
    ensures Exec(variant, lookup, Running(Machine(m.ops, m.vals + [w])), [Op(MulOperator(mo))])
      == Running(Machine(m.ops + [Pend(MulOperator(mo))], m.vals + [w]))
  {
    ExecSingle(variant, lookup, Machine(m.ops, m.vals + [w]), Op(MulOperator(mo)));
  }

  /** The tokens of a factor, run from stacks with no `*` or `/` on top,
      either stop with its error or push its value. */
  lemma {:induction false} FactorRun(variant: Variant, lookup: string -> Option<real>, f: Factor, m: Machine)
    requires (|m.ops| == 0 || !IsMulDiv(Last(m.ops))) && AdmitsFactor(variant, f)
    ensures EvalFactor(f, lookup).Value? ==>
      Exec(variant, lookup, Running(m), FlattenFactor(f)) == Running(Machine(m.ops, m.vals + [EvalFactor(f, lookup).value]))
    ensures !EvalFactor(f, lookup).Value? ==>
      Exec(variant, lookup, Running(m), FlattenFactor(f)) == Stopped(EvalFactor(f, lookup))
    decreases f, 1
  {
    match f
    case Number(v) =>
      ExecSingle(variant, lookup, m, Num(v));
    case Name(x) =>
      ExecSingle(variant, lookup, m, Var(x));
    case Group(e) =>
      GroupFactorRun(variant, lookup, e, m);
  }

  /** A parenthesised expression as a factor leaves its value, or stops with
      its error. */
  lemma {:induction false} GroupFactorRun(variant: Variant, lookup: string -> Option<real>, e: Expr, m: Machine)
    requires (|m.ops| == 0 || !IsMulDiv(Last(m.ops))) && AdmitsFactor(variant, Group(e))
    ensures EvalExpr(e, lookup).Value? ==>
      Exec(variant, lookup, Running(m), FlattenFactor(Group(e))) == Running(Machine(m.ops, m.vals + [EvalExpr(e, lookup).value]))
    ensures !EvalExpr(e, lookup).Value? ==>
      Exec(variant, lookup, Running(m), FlattenFactor(Group(e))) == Stopped(EvalExpr(e, lookup))
    decreases Group(e), 0
  {
    var inner := Machine(m.ops + [Open], m.vals);
    var pend, ws := GroupRun(variant, lookup, e, m);
    var v := EvalExpr(e, lookup);
    if v.Value? {
      CloseGroup(variant, lookup, m, pend, ws, v.value);
      ExecSingle(variant, lookup, Machine(inner.ops + pend, inner.vals + ws), RParen);
      if pend == [] {
        assert Pop(inner.ops + pend) == m.ops;
      }
    }
  }

  /** `(` and the inner expression of a group, run from `m`. */
  lemma GroupRun(variant: Variant, lookup: string -> Option<real>, e: Expr, m: Machine)
    returns (pend: seq<Pending>, ws: seq<real>)
    requires Admits(variant, e)
    ensures var inner := Machine(m.ops + [Open], m.vals);
      && (EvalExpr(e, lookup).Value? ==>
        Exec(variant, lookup, Running(m), FlattenFactor(Group(e)))
          == Exec(variant, lookup, Running(Machine(inner.ops + pend, inner.vals + ws)), [RParen])
        && Settles(pend, ws, EvalExpr(e, lookup).value)
        && (pend == [] <==> e.Single?))
      && (!EvalExpr(e, lookup).Value? ==>
        Exec(variant, lookup, Running(m), FlattenFactor(Group(e))) == Stopped(EvalExpr(e, lookup)))
    decreases e, 2
  {
    var inner := Machine(m.ops + [Open], m.vals);
    ExecSingle(variant, lookup, m, LParen);
    pend, ws := ExprRun(variant, lookup, e, inner);
    assert FlattenFactor(Group(e)) == [LParen] + FlattenExpr(e) + [RParen];
    ExecAppend(variant, lookup, Running(m), [LParen] + FlattenExpr(e), [RParen]);
    ExecAppend(variant, lookup, Running(m), [LParen], FlattenExpr(e));
    if !EvalExpr(e, lookup).Value? {
      ExecStopped(variant, lookup, EvalExpr(e, lookup), [RParen]);
    }
  }

  /** The `)` of a group over a settled inner expression: any pending `+` or
      `-` is applied and the `(` is popped. */
  lemma CloseGroup(variant: Variant, lookup: string -> Option<real>, m: Machine, pend: seq<Pending>, ws: seq<real>, v: real)
    requires Settles(pend, ws, v)
    ensures var s := Machine(m.ops + [Open] + pend, m.vals + ws);
      && (pend != [] ==> Step(variant, lookup, s, RParen) == CloseMulDiv(Machine(m.ops, m.vals + [v])))
      && (pend == [] ==>
            Step(variant, lookup, s, RParen) ==
              if variant == Repaired then CloseMulDiv(Machine(m.ops, m.vals + [v])) else Running(Machine(m.ops, m.vals + [v])))
  {
    var s := Machine(m.ops + [Open] + pend, m.vals + ws);
    if pend != [] {
      assert Last(s.ops) == pend[0];
      var r := Reduce(s);
      assert r.ops == m.ops + [Open];
      assert r.vals == m.vals + [v];
    } else {
      assert Pop(s.ops) == m.ops;
    }
  }

  /** The tokens of a factor, run right after a `*` or `/` was pushed over the
      value `w`: they stop with an error, or leave `w` combined with the
      factor's value in place of `w`. */
  lemma {:induction false} FactorRunAfterMulDiv(variant: Variant, lookup: string -> Option<real>, f: Factor, m: Machine, mo: MulOp, w: real)
    requires AdmitsRightOperand(variant, f)
    ensures var s := Machine(m.ops + [Pend(MulOperator(mo))], m.vals + [w]);
      var r := EvalFactor(f, lookup);
      && (r.Value? && mo == Div && r.value == 0.0 ==>
            Exec(variant, lookup, Running(s), FlattenFactor(f)) == Stopped(Error(DivideByZero)))
      && (r.Value? && !(mo == Div && r.value == 0.0) ==>
            Exec(variant, lookup, Running(s), FlattenFactor(f))
              == Running(Machine(m.ops, m.vals + [Apply(MulOperator(mo), w, r.value)])))
      && (!r.Value? ==> Exec(variant, lookup, Running(s), FlattenFactor(f)) == Stopped(r))
    decreases f, 1
  {
    var s := Machine(m.ops + [Pend(MulOperator(mo))], m.vals + [w]);
    assert Pop(s.ops) == m.ops && Pop(s.vals) == m.vals && Last(s.vals) == w;
    match f
    case Number(v) =>
      ExecSingle(variant, lookup, s, Num(v));
    case Name(x) =>
      ExecSingle(variant, lookup, s, Var(x));
    case Group(e) =>
      var pend, ws := GroupRun(variant, lookup, e, s);
      var v := EvalExpr(e, lookup);
      if v.Value? {
        CloseGroup(variant, lookup, s, pend, ws, v.value);
        var c := Machine(s.ops, s.vals + [v.value]);
        assert Last(c.ops) == Pend(MulOperator(mo));
        assert c.vals[..|c.vals| - 2] == m.vals;
        ExecSingle(variant, lookup, Machine(s.ops + [Open] + pend, s.vals + ws), RParen);
      }
  }

  /** The machine computes the reference value of every expression: always
      in the repaired variant, and as written on every expression where no
      parenthesised term is the right operand of `*` or `/`. */
  lemma EvaluationMatchesReference(variant: Variant, lookup: string -> Option<real>, e: Expr)
    requires Admits(variant, e)
    ensures Evaluation(variant, lookup, FlattenExpr(e)) == EvalExpr(e, lookup)
  {
    var pend, ws := ExprRun(variant, lookup, e, Initial);
    if EvalExpr(e, lookup).Value? {
      assert Initial.ops + pend == pend && Initial.vals + ws == ws;
      FinishSettled(pend, ws, EvalExpr(e, lookup).value);
    }
  }

  /** Finishing on what a settled expression leaves gives its value. */
  lemma FinishSettled(pend: seq<Pending>, ws: seq<real>, v: real)
    requires Settles(pend, ws, v)
    ensures Finish(Machine(pend, ws)) == Value(v)
  {
  }
}
