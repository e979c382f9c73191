/** The machine never throws on a structured token sequence. The only place it
    can throw is the pair of pops after the last token when two or
    more entries are left on the operator stack and fewer than two values; the
    proof shows that a structured token sequence never gets there.

    Along the run, every pending operator has a value beneath it, and one more
    value is present right after an operand. The `(` entries left at the end
    are as many as the `)` tokens that met an empty operator stack; the first
    such `)` was preceded by a value that stays below the lowest `(` for good. */
module Safety {
  import opened Wrappers
  import opened Syntax
  import opened Evaluator
  import opened Validator
  import opened Acceptance

  /** Number of pending operators on the operator stack. */
  function Binary(s: seq<Pending>): nat
  {
    if s == [] then 0 else Binary(Pop(s)) + (if Last(s).Pend? then 1 else 0)
  }

  /** Number of `(` entries on the operator stack. */
  function Opens(s: seq<Pending>): nat
  {
    if s == [] then 0 else Opens(Pop(s)) + (if Last(s) == Open then 1 else 0)
  }

  /** Number of pending operators beneath the lowest `(` (when there is one). */
  function Beneath(s: seq<Pending>): nat
  {
    if s == [] then 0
    else if Opens(Pop(s)) >= 1 then Beneath(Pop(s))
    else Binary(Pop(s))
  }

  lemma Snoc(s: seq<Pending>, x: Pending)
    ensures Pop(s + [x]) == s && Last(s + [x]) == x
  {
  }

  lemma {:induction false} CountsCover(s: seq<Pending>)
    ensures Binary(s) + Opens(s) == |s|
    decreases |s|
  {
    if s != [] {
      CountsCover(Pop(s));
    }
  }

  /** What holds of the machine after each token of a structured sequence.
      `started`: some token was read; `afterOperand`: the last one was a
      number, a variable or `)`; `ignored`: how many `)` met an empty operator
      stack. */
  predicate Safe(m: Machine, started: bool, afterOperand: bool, ignored: nat)
  {
    && |m.vals| >= Binary(m.ops) + (if afterOperand then 1 else 0)
    && (started && !afterOperand ==> |m.ops| >= 1)
    && (ignored >= 1 ==> started)
    && (Opens(m.ops) >= 1 && ignored >= 1 && Beneath(m.ops) == 0 ==>
          |m.vals| >= Binary(m.ops) + 1 + (if afterOperand then 1 else 0))
  }

  /** A pending operator pushed: above a `(`, the count beneath the lowest `(` is unchanged. */
  lemma PushPend(s: seq<Pending>, o: Operator)
    ensures Binary(s + [Pend(o)]) == Binary(s) + 1 && Opens(s + [Pend(o)]) == Opens(s)
    ensures Opens(s) >= 1 ==> Beneath(s + [Pend(o)]) == Beneath(s)
  {
    Snoc(s, Pend(o));
  }

  lemma PushOpen(s: seq<Pending>)
    ensures Binary(s + [Open]) == Binary(s) && Opens(s + [Open]) == Opens(s) + 1
    ensures Beneath(s + [Open]) == (if Opens(s) >= 1 then Beneath(s) else Binary(s))
  {
    Snoc(s, Open);
  }

  /** Popping the top entry. */
  lemma PopTop(s: seq<Pending>)
    requires |s| > 0
    ensures Binary(s) == Binary(Pop(s)) + (if Last(s).Pend? then 1 else 0)
    ensures Opens(s) == Opens(Pop(s)) + (if Last(s) == Open then 1 else 0)
    ensures Opens(Pop(s)) >= 1 ==> Beneath(s) == Beneath(Pop(s))
  {
  }

  /** An operand arrives. */
  lemma OperandSafe(m: Machine, x: real, started: bool, afterOperand: bool, ignored: nat)
    requires Safe(m, started, afterOperand, ignored) && Operand(m, x).Running?
    ensures var m' := Operand(m, x).m;
      Safe(m', true, true, ignored) && Opens(m'.ops) == Opens(m.ops)
  {
    if |m.ops| > 0 && IsMulDiv(Last(m.ops)) {
      PopTop(m.ops);
    }
  }

  /** An operator arrives right after an operand. */
  lemma OperatorSafe(m: Machine, o: Operator, ignored: nat)
    requires Safe(m, true, true, ignored) && OperatorArrives(m, o).Running?
    ensures var m' := OperatorArrives(m, o).m;
      Safe(m', true, false, ignored) && Opens(m'.ops) == Opens(m.ops)
  {
    if (o == Plus || o == Minus) && |m.ops| > 0 && IsAddSub(Last(m.ops)) {
      PopTop(m.ops);
      PushPend(Pop(m.ops), o);
    } else {
      PushPend(m.ops, o);
    }
  }

  /** A `(` arrives. */
  lemma OpenSafe(m: Machine, started: bool, afterOperand: bool, ignored: nat)
    requires Safe(m, started, afterOperand, ignored)
    ensures var m' := Machine(m.ops + [Open], m.vals);
      Safe(m', true, false, ignored) && Opens(m'.ops) == Opens(m.ops) + 1
  {
    PushOpen(m.ops);
    CountsCover(m.ops);
  }

  /** After a `(` is popped: a `*` or `/` applied then keeps the invariant. */
  lemma CloseMulDivSafe(m: Machine, ignored: nat)
    requires Safe(m, true, true, ignored) && CloseMulDiv(m).Running?
    requires Opens(m.ops) >= 1 && ignored >= 1 && Beneath(m.ops) == 0 ==> |m.vals| >= Binary(m.ops) + 2
    ensures var m' := CloseMulDiv(m).m;
      Safe(m', true, true, ignored) && Opens(m'.ops) == Opens(m.ops)
  {
    if |m.ops| > 0 && IsMulDiv(Last(m.ops)) {
      PopTop(m.ops);
    }
  }

  /** A `)` arrives right after an operand. */
  lemma CloseSafe(variant: Variant, m: Machine, ignored: nat)
    requires Safe(m, true, true, ignored) && CloseArrives(variant, m).Running?
    ensures var m' := CloseArrives(variant, m).m;
      var ignored' := if |m.ops| == 0 then ignored + 1 else ignored;
      && Safe(m', true, true, ignored')
      && Opens(m'.ops) + (if |m.ops| == 0 then 0 else 1) == Opens(m.ops)
  {
    if |m.ops| > 0 {
      PopTop(m.ops);
      if IsAddSub(Last(m.ops)) {
        var r := Reduce(m);
        PopTop(r.ops);
        var c := Machine(Pop(r.ops), r.vals);
        CloseMulDivSafe(c, ignored);
      } else {
        var c := Machine(Pop(m.ops), m.vals);
        if variant == Repaired {
          CloseMulDivSafe(c, ignored);
        }
      }
    }
  }

  /** One token of a structured sequence keeps the invariant and the count of `(` entries. */
  lemma StepSafe(variant: Variant, lookup: string -> Option<real>, m: Machine, t: Token,
                 started: bool, afterOperand: bool, ignored: nat)
    requires Safe(m, started, afterOperand, ignored)
    requires (t.Op? || t == RParen) ==> started && afterOperand
    requires Step(variant, lookup, m, t).Running?
    ensures var m' := Step(variant, lookup, m, t).m;
      var ignored' := if t == RParen && |m.ops| == 0 then ignored + 1 else ignored;
      && Safe(m', true, EndToken(t), ignored')
      && Opens(m'.ops) + (if t == RParen && |m.ops| > 0 then 1 else 0)
         == Opens(m.ops) + (if t == LParen then 1 else 0)
  {
    match t
    case Num(v) => OperandSafe(m, v, started, afterOperand, ignored);
    case Var(x) => OperandSafe(m, lookup(x).value, started, afterOperand, ignored);
    case Op(o) => OperatorSafe(m, o, ignored);
    case LParen => OpenSafe(m, started, afterOperand, ignored);
    case RParen => CloseSafe(variant, m, ignored);
  }

  /** The invariant along a structured sequence, with the accounting of `(`
      entries: each `(` token pushes one, each `)` pops one unless it met an
      empty stack. */
  lemma {:induction false} PrefixSafe(variant: Variant, lookup: string -> Option<real>, ts: seq<Token>, i: nat)
    returns (ignored: nat)
    requires Structured(ts) && i <= |ts|
    requires Exec(variant, lookup, Running(Initial), ts[..i]).Running?
    ensures PrefixInvariant(variant, lookup, ts, i, ignored)
  {
    if i == 0 {
      ignored := 0;
    } else {
      assert ts[..i][..i - 1] == ts[..i - 1];
      var ig := PrefixSafe(variant, lookup, ts, i - 1);
      ignored := PrefixStep(variant, lookup, ts, i, ig);
    }
  }

  predicate PrefixInvariant(variant: Variant, lookup: string -> Option<real>, ts: seq<Token>, i: nat, ignored: nat)
    requires i <= |ts|
  {
    var r := Exec(variant, lookup, Running(Initial), ts[..i]);
    && r.Running?
    && Safe(r.m, i > 0, i > 0 && EndToken(ts[i - 1]), ignored)
    && Opens(r.m.ops) + CountToken(ts[..i], RParen) == CountToken(ts[..i], LParen) + ignored
  }

  lemma PrefixStep(variant: Variant, lookup: string -> Option<real>, ts: seq<Token>, i: nat, ig: nat)
    returns (ignored: nat)
    requires Structured(ts) && 0 < i <= |ts|
    requires Exec(variant, lookup, Running(Initial), ts[..i]).Running?
    requires PrefixInvariant(variant, lookup, ts, i - 1, ig)
    ensures PrefixInvariant(variant, lookup, ts, i, ignored)
  {
    var t := ts[i - 1];
    var before := Exec(variant, lookup, Running(Initial), ts[..i - 1]).m;
    PrefixExec(variant, lookup, ts, i);
    OperatorAfterOperand(ts, i - 1);
    StepSafe(variant, lookup, before, t, i - 1 > 0, i - 1 > 0 && EndToken(ts[i - 2]), ig);
    var after := Step(variant, lookup, before, t).m;
    ignored := if t == RParen && |before.ops| == 0 then ig + 1 else ig;
    PrefixCounts(ts, i, before, after, ig, ignored);
    InvariantOf(variant, lookup, ts, i, ignored, after);
  }

  /** The invariant at `i`, from the machine the run over the prefix reaches. */
  lemma InvariantOf(variant: Variant, lookup: string -> Option<real>, ts: seq<Token>, i: nat, ignored: nat, m: Machine)
    requires 0 < i <= |ts| && Exec(variant, lookup, Running(Initial), ts[..i]) == Running(m)
    requires Safe(m, true, EndToken(ts[i - 1]), ignored)
    requires Opens(m.ops) + CountToken(ts[..i], RParen) == CountToken(ts[..i], LParen) + ignored
    ensures PrefixInvariant(variant, lookup, ts, i, ignored)
  {
  }

  /** The bracket balance carries over one step. */
  lemma PrefixCounts(ts: seq<Token>, i: nat, before: Machine, after: Machine, ig: nat, ignored: nat)
    requires 0 < i <= |ts|
    requires Opens(before.ops) + CountToken(ts[..i - 1], RParen) == CountToken(ts[..i - 1], LParen) + ig
    requires ignored == if ts[i - 1] == RParen && |before.ops| == 0 then ig + 1 else ig
    requires Opens(after.ops) + (if ts[i - 1] == RParen && |before.ops| > 0 then 1 else 0)
      == Opens(before.ops) + (if ts[i - 1] == LParen then 1 else 0)
    ensures Opens(after.ops) + CountToken(ts[..i], RParen) == CountToken(ts[..i], LParen) + ignored
  {
    assert ts[..i] == ts[..i - 1] + [ts[i - 1]];
    CountToken_Append(ts[..i - 1], [ts[i - 1]], LParen);
    CountToken_Append(ts[..i - 1], [ts[i - 1]], RParen);
  }

  /** The run over a prefix one token longer is one more step. */
  lemma PrefixExec(variant: Variant, lookup: string -> Option<real>, ts: seq<Token>, i: nat)
    requires 0 < i <= |ts|
    requires Exec(variant, lookup, Running(Initial), ts[..i - 1]).Running?
    ensures Exec(variant, lookup, Running(Initial), ts[..i])
      == Step(variant, lookup, Exec(variant, lookup, Running(Initial), ts[..i - 1]).m, ts[i - 1])
  {
    assert ts[..i][..i - 1] == ts[..i - 1];
  }

  /** In a structured sequence an operator or `)` comes right after the end of an operand. */
  lemma OperatorAfterOperand(ts: seq<Token>, j: nat)
    requires Structured(ts) && j < |ts|
    ensures (ts[j].Op? || ts[j] == RParen) ==> j > 0 && EndToken(ts[j - 1])
  {
    if ts[j].Op? || ts[j] == RParen {
      assert !StartToken(ts[j]);
      assert !(ts[j - 1] == LParen || ts[j - 1].Op?);
    }
  }

  /** Evaluating a structured token sequence never throws: it ends in a
      number, a FormulaError or the returned FormulaFormatException object. */
  lemma EvaluationNeverThrows(variant: Variant, lookup: string -> Option<real>, ts: seq<Token>)
    requires Structured(ts)
    ensures Evaluation(variant, lookup, ts) != StackUnderflow
  {
    assert ts[..|ts|] == ts;
    var r := Exec(variant, lookup, Running(Initial), ts);
    StopsWithError(variant, lookup, Initial, ts);
    if r.Running? {
      var ignored := PrefixSafe(variant, lookup, ts, |ts|);
      var m := r.m;
      CountsCover(m.ops);
      if |m.ops| >= 2 && |m.vals| < 2 {
        assert Binary(m.ops) == 0;
        assert ignored >= 2;
        Beneath_NoBinary(m.ops);
        assert false;
      }
    }
  }

  lemma {:induction false} Beneath_NoBinary(s: seq<Pending>)
    requires Binary(s) == 0
    ensures Beneath(s) == 0
    decreases |s|
  {
    if s != [] {
      Beneath_NoBinary(Pop(s));
    }
  }
}
