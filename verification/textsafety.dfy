/** `Evaluate` never throws on a formula the constructor built, although it
    evaluates the re-split text and not the checked tokens. Where the
    constructor let an operand directly follow another (`x y`, `x 23`), the
    text joins their pieces into one; reading that piece either fails, which
    ends the evaluation with a FormulaError, or gives one operand. Either way
    the pieces are read as the tokens with each run of consecutive operands
    fused into one, a sequence of the same shape as the tokens, on which the
    machine never throws. */
module TextSafety {
  import opened Wrappers
  import opened Syntax
  import opened Tokenizer
  import opened Evaluator
  import opened Validator
  import opened Acceptance
  import opened Views
  import opened Resplit
  import opened Safety
  import RoundTrip

  /** The tokens with each run of consecutive operands fused into its first operand. */
  function Fuse(ts: seq<Token>): seq<Token>
    decreases |ts|
  {
    if ts == [] then []
    else if RoundTrip.Operand(ts[0]) && |ts| > 1 && RoundTrip.Operand(ts[1]) then Fuse([ts[0]] + ts[2..])
    else [ts[0]] + Fuse(ts[1..])
  }

  /** The pieces with each run of consecutive runs joined into one. */
  function Group(xs: seq<string>): seq<string>
    decreases |xs|
  {
    if xs == [] then []
    else if IsRun(xs[0]) && |xs| > 1 && IsRun(xs[1]) then Group([xs[0] + xs[1]] + xs[2..])
    else [xs[0]] + Group(xs[1..])
  }

  lemma {:induction false} GroupConcat(xs: seq<string>)
    ensures Concat(Group(xs)) == Concat(xs)
    decreases |xs|
  {
    if xs != [] {
      if IsRun(xs[0]) && |xs| > 1 && IsRun(xs[1]) {
        var ys := [xs[0] + xs[1]] + xs[2..];
        GroupConcat(ys);
        assert ys[1..] == xs[2..];
        assert xs[1..][1..] == xs[2..];
        assert Concat(ys) == xs[0] + xs[1] + Concat(xs[2..]);
        assert Concat(xs) == xs[0] + (xs[1] + Concat(xs[2..]));
      } else {
        GroupConcat(xs[1..]);
      }
    }
  }

  predicate AllWellSplit(xs: seq<string>)
  {
    forall k :: 0 <= k < |xs| ==> WellSplit(xs[k])
  }

  predicate NoAdjacentRuns(xs: seq<string>)
  {
    forall k :: 0 <= k < |xs| - 1 && IsRun(xs[k]) ==> !IsRun(xs[k + 1])
  }

  lemma {:induction false} GroupShape(xs: seq<string>)
    requires AllWellSplit(xs)
    ensures AllWellSplit(Group(xs)) && NoAdjacentRuns(Group(xs))
    ensures xs != [] ==> Group(xs) != [] && (IsRun(Group(xs)[0]) <==> IsRun(xs[0]))
    decreases |xs|
  {
    if xs != [] {
      if IsRun(xs[0]) && |xs| > 1 && IsRun(xs[1]) {
        var ys := [xs[0] + xs[1]] + xs[2..];
        assert WellSplit(xs[0]) && WellSplit(xs[1]);
        assert WellSplit(ys[0]);
        assert forall k :: 1 <= k < |ys| ==> ys[k] == xs[k + 1];
        GroupShape(ys);
      } else {
        var g := Group(xs[1..]);
        GroupShape(xs[1..]);
        assert Group(xs) == [xs[0]] + g;
        assert WellSplit(xs[0]);
        if IsRun(xs[0]) && g != [] {
          assert !IsRun(xs[1]);
        }
        assert NoAdjacentRuns([xs[0]] + g) by {
          forall k | 1 <= k < |g| && IsRun(([xs[0]] + g)[k]) ensures !IsRun(([xs[0]] + g)[k + 1]) {
            assert ([xs[0]] + g)[k] == g[k - 1];
            assert ([xs[0]] + g)[k + 1] == g[k];
          }
        }
      }
    }
  }

  /** The split of concatenated pieces joins adjacent runs and nothing else. */
  lemma PiecesOfPieces(xs: seq<string>)
    requires AllWellSplit(xs)
    ensures Pieces(Concat(xs)) == Group(xs)
  {
    GroupShape(xs);
    GroupConcat(xs);
    PiecesOfConcat(Group(xs));
  }

  /** The pieces `xs` stand for the tokens `ts`: a run for each operand, the
      token's own text for each operator and parenthesis. */
  predicate Stands(xs: seq<string>, ts: seq<Token>, render: real -> string)
  {
    && |xs| == |ts|
    && AllWellSplit(xs)
    && (forall k :: 0 <= k < |xs| ==> (IsRun(xs[k]) <==> RoundTrip.Operand(ts[k])))
    && (forall k :: 0 <= k < |xs| && !RoundTrip.Operand(ts[k]) ==> xs[k] == TokenText(ts[k], render))
  }

  /** Joining runs of pieces mirrors fusing runs of operands. */
  lemma {:induction false} GroupStands(xs: seq<string>, ts: seq<Token>, render: real -> string)
    requires Stands(xs, ts, render)
    ensures Stands(Group(xs), Fuse(ts), render)
    decreases |xs|
  {
    if xs != [] {
      if IsRun(xs[0]) && |xs| > 1 && IsRun(xs[1]) {
        var ys := [xs[0] + xs[1]] + xs[2..];
        var us := [ts[0]] + ts[2..];
        assert Group(xs) == Group(ys) && Fuse(ts) == Fuse(us);
        StandsJoined(xs, ts, render);
        GroupStands(ys, us, render);
      } else {
        assert Group(xs) == [xs[0]] + Group(xs[1..]) && Fuse(ts) == [ts[0]] + Fuse(ts[1..]);
        StandsTail(xs, ts, render);
        GroupStands(xs[1..], ts[1..], render);
        StandsCons(xs[0], ts[0], Group(xs[1..]), Fuse(ts[1..]), render);
      }
    }
  }

  /** Two leading runs joined still stand for the tokens without the second operand. */
  lemma StandsJoined(xs: seq<string>, ts: seq<Token>, render: real -> string)
    requires Stands(xs, ts, render) && |xs| > 1 && IsRun(xs[0]) && IsRun(xs[1])
    ensures Stands([xs[0] + xs[1]] + xs[2..], [ts[0]] + ts[2..], render)
  {
    var ys := [xs[0] + xs[1]] + xs[2..];
    var us := [ts[0]] + ts[2..];
    assert WellSplit(xs[0]) && WellSplit(xs[1]);
    assert forall k :: 1 <= k < |ys| ==> ys[k] == xs[k + 1] && us[k] == ts[k + 1];
  }

  lemma StandsTail(xs: seq<string>, ts: seq<Token>, render: real -> string)
    requires Stands(xs, ts, render) && xs != []
    ensures Stands(xs[1..], ts[1..], render)
  {
    assert forall k :: 0 <= k < |xs| - 1 ==> xs[1..][k] == xs[k + 1] && ts[1..][k] == ts[k + 1];
  }

  lemma StandsCons(x: string, t: Token, g: seq<string>, f: seq<Token>, render: real -> string)
    requires Stands(g, f, render) && WellSplit(x) && (IsRun(x) <==> RoundTrip.Operand(t))
    requires !RoundTrip.Operand(t) ==> x == TokenText(t, render)
    ensures Stands([x] + g, [t] + f, render)
  {
    assert forall k :: 1 <= k < |g| + 1 ==> ([x] + g)[k] == g[k - 1] && ([t] + f)[k] == f[k - 1];
  }

  /** The texts of resplittable tokens stand for them. */
  lemma TextsStand(ts: seq<Token>, render: real -> string)
    requires Resplittable(ts, render)
    ensures Stands(RoundTrip.Texts(ts, render), ts, render)
  {
    var xs := RoundTrip.Texts(ts, render);
    forall k | 0 <= k < |ts|
      ensures WellSplit(xs[k]) && (IsRun(xs[k]) <==> RoundTrip.Operand(ts[k]))
    {
      TextIsPiece(ts[k], render);
    }
  }

  /** Tokens that differ at most in which operand stands at a position. */
  predicate SameKinds(us: seq<Token>, vs: seq<Token>)
  {
    && |us| == |vs|
    && forall k :: 0 <= k < |us| ==> (RoundTrip.Operand(us[k]) && RoundTrip.Operand(vs[k])) || us[k] == vs[k]
  }

  /** A run piece that can be read is read as an operand. */
  lemma RunIsOperand(p: string)
    requires IsRun(p) && Lex(p).Some?
    ensures RoundTrip.Operand(Lex(p).value)
  {
  }

  /** When every piece can be read, the tokens read are the fused tokens up to
      which operand stands where. */
  lemma ReadKinds(ps: seq<string>, vs: seq<Token>, render: real -> string)
    requires Stands(ps, vs, render) && LexAll(ps).complete
    ensures SameKinds(LexAll(ps).tokens, vs)
  {
    var us := LexAll(ps).tokens;
    forall k | 0 <= k < |us|
      ensures (RoundTrip.Operand(us[k]) && RoundTrip.Operand(vs[k])) || us[k] == vs[k]
    {
      if IsRun(ps[k]) {
        RunIsOperand(ps[k]);
      } else {
        TextIsPiece(vs[k], render);
      }
    }
  }

  lemma {:induction false} CountSameKinds(us: seq<Token>, vs: seq<Token>, t: Token)
    requires SameKinds(us, vs) && !RoundTrip.Operand(t)
    ensures CountToken(us, t) == CountToken(vs, t)
    decreases |us|
  {
    if us != [] {
      assert SameKinds(us[1..], vs[1..]) by {
        forall k | 0 <= k < |us| - 1 ensures us[1..][k] == us[k + 1] && vs[1..][k] == vs[k + 1] {
        }
      }
      CountSameKinds(us[1..], vs[1..], t);
    }
  }

  /** The shape of a token sequence depends only on the kinds of its tokens. */
  lemma StructuredSameKinds(us: seq<Token>, vs: seq<Token>)
    requires SameKinds(us, vs) && Structured(vs)
    ensures Structured(us)
  {
    CountSameKinds(us, vs, LParen);
    CountSameKinds(us, vs, RParen);
    forall i | 0 <= i < |us| - 1 && (us[i] == LParen || us[i].Op?) ensures StartToken(us[i + 1]) {
      assert us[i] == vs[i];
    }
  }

  predicate Follows(ts: seq<Token>)
  {
    forall i :: 0 <= i < |ts| - 1 && (ts[i] == LParen || ts[i].Op?) ==> StartToken(ts[i + 1])
  }

  lemma {:induction false} FuseFacts(ts: seq<Token>)
    ensures ts != [] ==> Fuse(ts) != [] && Fuse(ts)[0] == ts[0]
    ensures ts != [] && EndToken(ts[|ts| - 1]) ==> EndToken(Fuse(ts)[|Fuse(ts)| - 1])
    ensures CountToken(Fuse(ts), LParen) == CountToken(ts, LParen)
    ensures CountToken(Fuse(ts), RParen) == CountToken(ts, RParen)
    ensures Follows(ts) ==> Follows(Fuse(ts))
    decreases |ts|
  {
    if ts != [] {
      if RoundTrip.Operand(ts[0]) && |ts| > 1 && RoundTrip.Operand(ts[1]) {
        var us := [ts[0]] + ts[2..];
        assert Fuse(ts) == Fuse(us);
        FuseFacts(us);
        DropSecond(ts);
      } else {
        var f := Fuse(ts[1..]);
        assert Fuse(ts) == [ts[0]] + f;
        FuseFacts(ts[1..]);
        CountCons(ts[0], f);
        if Follows(ts) {
          FollowsTail(ts);
          FollowsCons(ts[0], f);
        }
        if |ts| > 1 {
          LastOfTail(ts);
          LastOfCons(ts[0], f);
        }
      }
    }
  }

  /** Dropping the second of two leading operands keeps the parenthesis counts,
      the last token and the follow rule. */
  lemma DropSecond(ts: seq<Token>)
    requires |ts| > 1 && RoundTrip.Operand(ts[0]) && RoundTrip.Operand(ts[1])
    ensures CountToken([ts[0]] + ts[2..], LParen) == CountToken(ts, LParen)
    ensures CountToken([ts[0]] + ts[2..], RParen) == CountToken(ts, RParen)
    ensures EndToken(ts[|ts| - 1]) ==> EndToken(([ts[0]] + ts[2..])[|ts| - 2])
    ensures Follows(ts) ==> Follows([ts[0]] + ts[2..])
  {
    var us := [ts[0]] + ts[2..];
    assert us[1..] == ts[2..] && ts[1..][1..] == ts[2..];
    if Follows(ts) {
      forall i | 0 <= i < |us| - 1 && (us[i] == LParen || us[i].Op?) ensures StartToken(us[i + 1]) {
        assert i > 0;
        assert us[i] == ts[i + 1] && us[i + 1] == ts[i + 2];
      }
    }
  }

  lemma CountCons(t: Token, f: seq<Token>)
    ensures CountToken([t] + f, LParen) == (if t == LParen then 1 else 0) + CountToken(f, LParen)
    ensures CountToken([t] + f, RParen) == (if t == RParen then 1 else 0) + CountToken(f, RParen)
  {
    assert ([t] + f)[1..] == f;
  }

  lemma LastOfTail(ts: seq<Token>)
    requires |ts| > 1
    ensures ts[1..][|ts| - 2] == ts[|ts| - 1]
  {
  }

  lemma LastOfCons(t: Token, f: seq<Token>)
    requires f != []
    ensures ([t] + f)[|f|] == f[|f| - 1]
  {
  }

  lemma FollowsTail(ts: seq<Token>)
    requires Follows(ts) && ts != []
    ensures Follows(ts[1..])
  {
    forall i | 0 <= i < |ts| - 2 && (ts[1..][i] == LParen || ts[1..][i].Op?) ensures StartToken(ts[1..][i + 1]) {
      assert ts[1..][i] == ts[i + 1] && ts[1..][i + 1] == ts[i + 2];
    }
  }

  lemma FollowsCons(t: Token, f: seq<Token>)
    requires Follows(f)
    requires (t == LParen || t.Op?) && f != [] ==> StartToken(f[0])
    ensures Follows([t] + f)
  {
    forall i | 0 <= i < |f| && (([t] + f)[i] == LParen || ([t] + f)[i].Op?)
      ensures StartToken(([t] + f)[i + 1])
    {
      assert ([t] + f)[i + 1] == f[i];
      if i > 0 {
        assert ([t] + f)[i] == f[i - 1];
      }
    }
  }

  /** Fusing runs of operands keeps the shape of a structured sequence. */
  lemma FuseStructured(ts: seq<Token>)
    requires Structured(ts)
    ensures Structured(Fuse(ts))
  {
    FuseFacts(ts);
  }

  /** `Evaluate` never throws on a formula the constructor built: it returns a
      number, a FormulaError or the FormulaFormatException object. */
  lemma EvaluateNeverThrows(text: string, normalize: string -> string, isValid: string -> bool,
                            variant: Variant, lookup: string -> Option<real>, render: real -> string)
    requires Build(text, normalize, isValid).Built?
    requires Resplittable(Build(text, normalize, isValid).formula.tokens, render)
    ensures TextEvaluation(variant, lookup, ToString(Build(text, normalize, isValid).formula, render)) != StackUnderflow
  {
    var f := Build(text, normalize, isValid).formula;
    var ts := f.tokens;
    var xs := RoundTrip.Texts(ts, render);
    BuiltIsAdmitted(text, normalize, isValid);
    RoundTrip.WritableIsPlain(ts, render);
    RoundTrip.FormulaStringIsConcat(ts, render);
    TextsStand(ts, render);
    PiecesOfPieces(xs);
    var ps := Group(xs);
    assert ToString(f, render) == Concat(xs);
    assert Pieces(ToString(f, render)) == ps;
    GroupStands(xs, ts, render);
    var lexed := LexAll(ps);
    var r := Exec(variant, lookup, Running(Initial), lexed.tokens);
    StopsWithError(variant, lookup, Initial, lexed.tokens);
    if r.Running? && lexed.complete {
      ReadKinds(ps, Fuse(ts), render);
      FuseStructured(ts);
      StructuredSameKinds(lexed.tokens, Fuse(ts));
      EvaluationNeverThrows(variant, lookup, lexed.tokens);
    }
  }
}
