/** The machine inside `Evaluate`: a two-stack evaluation of tokens. The
    operator stack holds pending operators and open parentheses, the value stack
    holds numbers; `*` and `/` are applied as soon as their right operand is
    known, `+` and `-` when the next `+`, `-` or `)` arrives or at the end.

    The machine is written once, with a switch between the source as written
    and a repaired variant that differs in one place: when `)` meets a bare `(`
    on top of the operator stack, the source pops the `(` and stops, leaving a
    pending `*` or `/` beneath it unapplied; the repaired variant applies it. */
module Evaluator {
  import opened Wrappers
  import opened Syntax

  datatype Variant = AsWritten | Repaired

  /** The reasons carried by the FormulaError objects Evaluate returns. */
  datatype Reason =
    | EmptyValueStack
    | DivideByZero
    | UndefinedVariable(name: string)
    | TooFewValues
    | MissingOpening
    | CloseWithoutOpen
    | WrongValueCount
    | UnknownSymbol

  /** What Evaluate returns or does: a number (a boxed `double`), a
      FormulaError, the FormulaFormatException object it returns (not throws)
      when the stacks end in an unexpected shape, the boxed `int` 0 of the
      method's last `return 0`, which is not a `double`, or the exception a pop
      on an empty stack throws. */
  datatype Outcome =
    | Value(value: real)
    | Error(reason: Reason)
    | FormatExceptionObject
    | IntZero
    | StackUnderflow

  /** An entry of the operator stack. */
  datatype Pending = Pend(op: Operator) | Open

  datatype Machine = Machine(ops: seq<Pending>, vals: seq<real>)

  /** The machine after some tokens: still running, or stopped with an outcome. */
  datatype Run = Running(m: Machine) | Stopped(outcome: Outcome)

  predicate IsAddSub(p: Pending)
  {
    p == Pend(Plus) || p == Pend(Minus)
  }

  predicate IsMulDiv(p: Pending)
  {
    p == Pend(Times) || p == Pend(Divide)
  }

  /** `left op right`; `-` and `/` take their left operand from deeper in the value stack. */
  function Apply(op: Operator, left: real, right: real): real
    requires op == Divide ==> right != 0.0
  {
    match op
    case Plus => left + right
    case Minus => left - right
    case Times => left * right
    case Divide => left / right
  }

  function Last<T>(s: seq<T>): T
    requires |s| > 0
  {
    s[|s| - 1]
  }

  function Pop<T>(s: seq<T>): seq<T>
    requires |s| > 0
  {
    s[..|s| - 1]
  }

  /** A number or a variable's value `x` arrives: a pending `*` or `/` on top
      is applied to it at once, otherwise it is pushed. */
  function Operand(m: Machine, x: real): Run
  {
    if |m.ops| > 0 && IsMulDiv(Last(m.ops)) then
      if |m.vals| == 0 then Stopped(Error(EmptyValueStack))
      else
        var op := Last(m.ops).op;
        if x == 0.0 && op == Divide then Stopped(Error(DivideByZero))
        else Running(Machine(Pop(m.ops), Pop(m.vals) + [Apply(op, Last(m.vals), x)]))
    else Running(Machine(m.ops, m.vals + [x]))
  }

  /** The two topmost values combined by the pending operator on top. */
  function Reduce(m: Machine): Machine
    requires |m.ops| > 0 && m.ops[|m.ops| - 1].Pend? && |m.vals| >= 2
    requires Last(m.ops).op == Divide ==> Last(m.vals) != 0.0
  {
    var v := m.vals;
    Machine(Pop(m.ops), v[..|v| - 2] + [Apply(Last(m.ops).op, v[|v| - 2], v[|v| - 1])])
  }

  /** After a `(` is closed: a `*` or `/` now on top is applied to the two topmost values. */
  function CloseMulDiv(m: Machine): Run
  {
    if |m.ops| > 0 && IsMulDiv(Last(m.ops)) then
      if |m.vals| < 2 then Stopped(Error(TooFewValues))
      else if Last(m.ops) == Pend(Divide) && Last(m.vals) == 0.0 then Stopped(Error(DivideByZero))
      else Running(Reduce(m))
    else Running(m)
  }

  /** An operator token arrives. A `+` or `-` first applies a `+` or `-`
      pending on top; `*` and `/` are only pushed. */
  function OperatorArrives(m: Machine, o: Operator): Run
  {
    if o == Plus || o == Minus then
      if |m.ops| > 0 then
        if IsAddSub(Last(m.ops)) then
          if |m.vals| < 2 then Stopped(Error(TooFewValues))
          else
            var r := Reduce(m);
            Running(Machine(r.ops + [Pend(o)], r.vals))
        else Running(Machine(m.ops + [Pend(o)], m.vals))
      else if |m.vals| < 1 then Stopped(Error(TooFewValues))
      else Running(Machine(m.ops + [Pend(o)], m.vals))
    else
      if |m.vals| < 1 then Stopped(Error(TooFewValues))
      else Running(Machine(m.ops + [Pend(o)], m.vals))
  }

  /** A `)` arrives: it is ignored over an empty operator stack; otherwise a
      pending `+` or `-` is applied, the `(` beneath is popped, and a `*` or
      `/` then on top is applied, except, as written, when `(` was on top. */
  function CloseArrives(variant: Variant, m: Machine): Run
  {
    if |m.ops| == 0 then Running(m)
    else if IsAddSub(Last(m.ops)) then
      if |m.vals| < 2 then Stopped(Error(TooFewValues))
      else
        var r := Reduce(m);
        if |r.ops| < 1 then Stopped(Error(TooFewValues))
        else if Last(r.ops) != Open then Stopped(Error(MissingOpening))
        else CloseMulDiv(Machine(Pop(r.ops), r.vals))
    else if Last(m.ops) != Open then Stopped(Error(CloseWithoutOpen))
    else if variant == Repaired then CloseMulDiv(Machine(Pop(m.ops), m.vals))
    else Running(Machine(Pop(m.ops), m.vals))
  }

  /** One token of the loop. */
  function Step(variant: Variant, lookup: string -> Option<real>, m: Machine, t: Token): Run
  {
    match t
    case Num(v) => Operand(m, v)
    case Var(x) =>
      if lookup(x).None? then Stopped(Error(UndefinedVariable(x))) else Operand(m, lookup(x).value)
    case Op(o) => OperatorArrives(m, o)
    case LParen => Running(Machine(m.ops + [Open], m.vals))
    case RParen => CloseArrives(variant, m)
  }

  function StepRun(variant: Variant, lookup: string -> Option<real>, r: Run, t: Token): Run
  {
    if r.Stopped? then r else Step(variant, lookup, r.m, t)
  }

  /** The machine after the tokens `ts`, starting from `r`. */
  function Exec(variant: Variant, lookup: string -> Option<real>, r: Run, ts: seq<Token>): Run
    decreases |ts|
  {
    if ts == [] then r
    else StepRun(variant, lookup, Exec(variant, lookup, r, ts[..|ts| - 1]), ts[|ts| - 1])
  }

  /** What happens once every token has been read. */
  function Finish(m: Machine): Outcome
  {
    if |m.ops| == 0 then
      if |m.vals| != 1 then Error(WrongValueCount) else Value(m.vals[0])
    else if (|m.ops| == 1 && |m.vals| != 2) || (|m.ops| != 1 && |m.vals| == 2) then FormatExceptionObject
    else if |m.vals| < 2 then StackUnderflow
    else
      var val1 := m.vals[|m.vals| - 1];
      var val2 := m.vals[|m.vals| - 2];
      match Last(m.ops)
      case Pend(Minus) => Value(val2 - val1)
      case Pend(Plus) => Value(val2 + val1)
      case _ => IntZero
  }

  const Initial := Machine([], [])

  /** The outcome of evaluating the tokens `ts`. */
  function Evaluation(variant: Variant, lookup: string -> Option<real>, ts: seq<Token>): Outcome
  {
    match Exec(variant, lookup, Running(Initial), ts)
    case Stopped(o) => o
    case Running(m) => Finish(m)
  }

  /** The body of the loop for one token: the new stacks, or the outcome to return. */
  method Advance(variant: Variant, lookup: string -> Option<real>, ops0: seq<Pending>, vals0: seq<real>, t: Token)
    returns (ops: seq<Pending>, vals: seq<real>, stop: Option<Outcome>)
    ensures Step(variant, lookup, Machine(ops0, vals0), t)
      == if stop.Some? then Stopped(stop.value) else Running(Machine(ops, vals))
  {
    ops, vals, stop := ops0, vals0, None;
    match t
    case Num(v) =>
      if |ops| > 0 && IsMulDiv(ops[|ops| - 1]) {
        if |vals| == 0 {
          return ops, vals, Some(Error(EmptyValueStack));
        }
        var op := ops[|ops| - 1].op;
        ops := ops[..|ops| - 1];
        var left := vals[|vals| - 1];
        vals := vals[..|vals| - 1];
        if v == 0.0 && op == Divide {
          return ops, vals, Some(Error(DivideByZero));
        }
        vals := vals + [Apply(op, left, v)];
      } else {
        vals := vals + [v];
      }
    case Var(x) =>
      var found := lookup(x);
      if found.None? {
        return ops, vals, Some(Error(UndefinedVariable(x)));
      }
      var v := found.value;
      if |ops| > 0 && IsMulDiv(ops[|ops| - 1]) {
        if |vals| == 0 {
          return ops, vals, Some(Error(EmptyValueStack));
        }
        var op := ops[|ops| - 1].op;
        ops := ops[..|ops| - 1];
        var left := vals[|vals| - 1];
        vals := vals[..|vals| - 1];
        if v == 0.0 && op == Divide {
          return ops, vals, Some(Error(DivideByZero));
        }
        vals := vals + [Apply(op, left, v)];
      } else {
        vals := vals + [v];
      }
    case Op(o) =>
      if o == Plus || o == Minus {
        if |ops| > 0 {
          if IsAddSub(ops[|ops| - 1]) {
            if |vals| < 2 {
              return ops, vals, Some(Error(TooFewValues));
            }
            var m := Reduce(Machine(ops, vals));
            ops, vals := m.ops, m.vals;
          }
        } else if |vals| < 1 {
          return ops, vals, Some(Error(TooFewValues));
        }
        ops := ops + [Pend(o)];
      } else {
        if |vals| < 1 {
          return ops, vals, Some(Error(TooFewValues));
        }
        ops := ops + [Pend(o)];
      }
    case LParen =>
      ops := ops + [Open];
    case RParen =>
      if |ops| > 0 {
        if IsAddSub(ops[|ops| - 1]) {
          if |vals| < 2 {
            return ops, vals, Some(Error(TooFewValues));
          }
          var m := Reduce(Machine(ops, vals));
          ops, vals := m.ops, m.vals;
          if |ops| < 1 {
            return ops, vals, Some(Error(TooFewValues));
          }
          var top := ops[|ops| - 1];
          ops := ops[..|ops| - 1];
          if top != Open {
            return ops, vals, Some(Error(MissingOpening));
          }
          var closed := CloseMulDiv(Machine(ops, vals));
          if closed.Stopped? {
            return ops, vals, Some(closed.outcome);
          }
          ops, vals := closed.m.ops, closed.m.vals;
        } else {
          var top := ops[|ops| - 1];
          ops := ops[..|ops| - 1];
          if top != Open {
            return ops, vals, Some(Error(CloseWithoutOpen));
          }
          if variant == Repaired {
            var closed := CloseMulDiv(Machine(ops, vals));
            if closed.Stopped? {
              return ops, vals, Some(closed.outcome);
            }
            ops, vals := closed.m.ops, closed.m.vals;
          }
        }
      }
  }

  lemma {:induction false} ExecAppend(variant: Variant, lookup: string -> Option<real>, r: Run, a: seq<Token>, b: seq<Token>)
    ensures Exec(variant, lookup, r, a + b) == Exec(variant, lookup, Exec(variant, lookup, r, a), b)
    decreases |b|
  {
    if b == [] {
      assert a + b == a;
    } else {
      assert (a + b)[..|a + b| - 1] == a + b[..|b| - 1];
      ExecAppend(variant, lookup, r, a, b[..|b| - 1]);
    }
  }

  lemma {:induction false} ExecStopped(variant: Variant, lookup: string -> Option<real>, o: Outcome, ts: seq<Token>)
    ensures Exec(variant, lookup, Stopped(o), ts) == Stopped(o)
    decreases |ts|
  {
    if ts != [] {
      ExecStopped(variant, lookup, o, ts[..|ts| - 1]);
    }
  }

  /** Once a token stops the machine, the rest of the tokens change nothing. */
  lemma StopIsFinal(variant: Variant, lookup: string -> Option<real>, ts: seq<Token>, i: nat, m: Machine)
    requires i < |ts| && Exec(variant, lookup, Running(Initial), ts[..i]) == Running(m)
    ensures Step(variant, lookup, m, ts[i]).Stopped? ==>
      Evaluation(variant, lookup, ts) == Step(variant, lookup, m, ts[i]).outcome
  {
    var step := Step(variant, lookup, m, ts[i]);
    if step.Stopped? {
      assert ts[..i + 1][..i] == ts[..i];
      assert ts == ts[..i + 1] + ts[i + 1..];
      ExecAppend(variant, lookup, Running(Initial), ts[..i + 1], ts[i + 1..]);
      ExecStopped(variant, lookup, step.outcome, ts[i + 1..]);
    }
  }

  lemma ExecSingle(variant: Variant, lookup: string -> Option<real>, m: Machine, t: Token)
    ensures Exec(variant, lookup, Running(m), [t]) == Step(variant, lookup, m, t)
  {
    assert [t][..0] == [];
  }

  /** The loop only ever stops by returning a FormulaError. */
  lemma {:induction false} StopsWithError(variant: Variant, lookup: string -> Option<real>, m: Machine, ts: seq<Token>)
    ensures Exec(variant, lookup, Running(m), ts).Stopped? ==> Exec(variant, lookup, Running(m), ts).outcome.Error?
    decreases |ts|
  {
    if ts != [] {
      StopsWithError(variant, lookup, m, ts[..|ts| - 1]);
      var r := Exec(variant, lookup, Running(m), ts[..|ts| - 1]);
      if r.Running? {
        StepStopsWithError(variant, lookup, r.m, ts[|ts| - 1]);
      }
    }
  }

  lemma StepStopsWithError(variant: Variant, lookup: string -> Option<real>, m: Machine, t: Token)
    ensures Step(variant, lookup, m, t).Stopped? ==> Step(variant, lookup, m, t).outcome.Error?
  {
    if t == RParen && |m.ops| > 0 && IsAddSub(Last(m.ops)) && |m.vals| >= 2 {
      var r := Reduce(m);
      if |r.ops| >= 1 && Last(r.ops) == Open {
        CloseMulDivStops(Machine(Pop(r.ops), r.vals));
      }
    } else if t == RParen && |m.ops| > 0 {
      CloseMulDivStops(Machine(Pop(m.ops), m.vals));
    }
  }

  lemma CloseMulDivStops(m: Machine)
    ensures CloseMulDiv(m).Stopped? ==> CloseMulDiv(m).outcome.Error?
  {
  }

  /** The machine reads only the variables that occur in the tokens: lookups
      that agree on them give the same run. */
  lemma {:induction false} ExecUsesVariables(variant: Variant, lookup1: string -> Option<real>,
                                             lookup2: string -> Option<real>, r: Run, ts: seq<Token>)
    requires forall v :: v in VariablesOf(ts) ==> lookup1(v) == lookup2(v)
    ensures Exec(variant, lookup1, r, ts) == Exec(variant, lookup2, r, ts)
    decreases |ts|
  {
    if ts != [] {
      var init := ts[..|ts| - 1];
      forall v | v in VariablesOf(init) ensures lookup1(v) == lookup2(v) {
        var i :| 0 <= i < |init| && init[i] == Var(v);
        assert ts[i] == Var(v);
      }
      ExecUsesVariables(variant, lookup1, lookup2, r, init);
      var t := ts[|ts| - 1];
      if t.Var? {
        assert t.name in VariablesOf(ts);
      }
    }
  }
}
