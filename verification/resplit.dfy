/** `Evaluate` does not read the tokens the constructor checked: it reads the
    formula back from its text. The trimmed formulaString is split at `(`,
    `)`, `-`, `+`, `*` and `/`, each of these kept as a piece of its own and
    empty pieces skipped; each piece is then read as a number, a variable, an
    operator or a parenthesis and drives the two-stack machine. A piece that is
    none of these ends the evaluation with a FormulaError.

    For a formula in which no operand directly follows another, the pieces are
    exactly the texts of its tokens and the evaluation is the machine run over
    those tokens. As written, the constructor also admits `x y` and `x 23`;
    their texts `xy` and `x23` are read back as a single variable. */
module Resplit {
  import opened Wrappers
  import opened Chars
  import opened Tokenizer
  import opened Numbers
  import opened Syntax
  import opened Evaluator
  import opened Validator
  import opened Acceptance
  import opened Views
  import RoundTrip

  /** The characters the split pattern matches. */
  predicate IsDelimiter(c: char)
  {
    c == '(' || c == ')' || c == '-' || c == '+' || c == '*' || c == '/'
  }

  predicate Undelimited(s: string)
  {
    forall k :: 0 <= k < |s| ==> !IsDelimiter(s[k])
  }

  /** A piece made of characters other than delimiters. */
  predicate IsRun(p: string)
  {
    p != [] && !IsDelimiter(p[0])
  }

  /** A piece as the split yields it: one delimiter, or a non-empty run of other characters. */
  predicate WellSplit(p: string)
  {
    (|p| == 1 && IsDelimiter(p[0])) || (p != [] && Undelimited(p))
  }

  /** The split with the empty pieces skipped; `run` holds the characters
      gathered since the last delimiter. */
  function SplitFrom(s: string, run: string): seq<string>
    decreases |s|
  {
    if s == [] then Flush(run)
    else if IsDelimiter(s[0]) then Flush(run) + [[s[0]]] + SplitFrom(s[1..], [])
    else SplitFrom(s[1..], run + [s[0]])
  }

  function Pieces(s: string): seq<string>
  {
    SplitFrom(s, [])
  }

  lemma {:induction false} SplitFromConcat(s: string, run: string)
    ensures Concat(SplitFrom(s, run)) == run + s
    decreases |s|
  {
    if s == [] {
      assert run + s == run;
      FlushConcat(run);
    } else if IsDelimiter(s[0]) {
      var rest := SplitFrom(s[1..], []);
      assert SplitFrom(s, run) == Flush(run) + [[s[0]]] + rest;
      SplitFromConcat(s[1..], []);
      JoinDelimiter(run, s[0], rest);
      HeadTail(run, s);
    } else {
      assert SplitFrom(s, run) == SplitFrom(s[1..], run + [s[0]]);
      SplitFromConcat(s[1..], run + [s[0]]);
      HeadTail(run, s);
    }
  }

  lemma HeadTail(run: string, s: string)
    requires s != []
    ensures run + [s[0]] + s[1..] == run + s
  {
    assert s == [s[0]] + s[1..];
  }

  lemma JoinDelimiter(run: string, c: char, rest: seq<string>)
    ensures Concat(Flush(run) + [[c]] + rest) == run + [c] + Concat(rest)
  {
    ConcatAppend(Flush(run) + [[c]], rest);
    ConcatAppend(Flush(run), [[c]]);
    assert Concat([[c]]) == [c] + Concat([[c]][1..]);
    FlushConcat(run);
  }

  lemma {:induction false} SplitFromShape(s: string, run: string)
    requires Undelimited(run)
    ensures forall k :: 0 <= k < |SplitFrom(s, run)| ==> WellSplit(SplitFrom(s, run)[k])
    ensures forall k :: 0 <= k < |SplitFrom(s, run)| - 1 && IsRun(SplitFrom(s, run)[k]) ==> !IsRun(SplitFrom(s, run)[k + 1])
    decreases |s|
  {
    if s != [] {
      if IsDelimiter(s[0]) {
        SplitFromShape(s[1..], []);
        var rest := SplitFrom(s[1..], []);
        var r := Flush(run) + [[s[0]]] + rest;
        assert r == SplitFrom(s, run);
        forall k | 0 <= k < |r| ensures WellSplit(r[k]) {
          if k < |Flush(run)| {
            assert r[k] == run;
          } else if k == |Flush(run)| {
            assert r[k] == [s[0]];
          } else {
            assert r[k] == rest[k - |Flush(run)| - 1];
          }
        }
        forall k | 0 <= k < |r| - 1 && IsRun(r[k]) ensures !IsRun(r[k + 1]) {
          if k < |Flush(run)| {
            assert r[k + 1] == [s[0]];
          } else if k > |Flush(run)| {
            assert r[k] == rest[k - |Flush(run)| - 1];
            assert r[k + 1] == rest[k + 1 - |Flush(run)| - 1];
          }
        }
      } else {
        assert Undelimited(run + [s[0]]);
        SplitFromShape(s[1..], run + [s[0]]);
        assert SplitFrom(s, run) == SplitFrom(s[1..], run + [s[0]]);
      }
    } else if run != [] {
      assert SplitFrom(s, run) == [run];
    }
  }

  /** The split loses and adds nothing, yields one delimiter or a run of other
      characters per piece, and never leaves two runs side by side. */
  lemma PiecesCharacterised(s: string)
    ensures Concat(Pieces(s)) == s
    ensures forall k :: 0 <= k < |Pieces(s)| ==> WellSplit(Pieces(s)[k])
    ensures forall k :: 0 <= k < |Pieces(s)| - 1 && IsRun(Pieces(s)[k]) ==> !IsRun(Pieces(s)[k + 1])
  {
    SplitFromConcat(s, []);
    SplitFromShape(s, []);
    assert [] + s == s;
  }

  lemma PiecesNonEmpty(s: string)
    ensures forall k :: 0 <= k < |Pieces(s)| ==> Pieces(s)[k] != ""
  {
    PiecesCharacterised(s);
  }

  /** Characters without a delimiter join the run being gathered. */
  lemma {:induction false} SplitRun(p: string, rest: string, run: string)
    requires Undelimited(p)
    ensures SplitFrom(p + rest, run) == SplitFrom(rest, run + p)
    decreases |p|
  {
    if p == [] {
      assert p + rest == rest;
      assert run + p == run;
    } else {
      assert (p + rest)[0] == p[0];
      assert (p + rest)[1..] == p[1..] + rest;
      SplitRun(p[1..], rest, run + [p[0]]);
      assert run + [p[0]] + p[1..] == run + p;
    }
  }

  /** Conversely, pieces of that shape are what the split of their concatenation gives back. */
  lemma {:induction false} PiecesOfConcat(ps: seq<string>)
    requires forall k :: 0 <= k < |ps| ==> WellSplit(ps[k])
    requires forall k :: 0 <= k < |ps| - 1 && IsRun(ps[k]) ==> !IsRun(ps[k + 1])
    ensures Pieces(Concat(ps)) == ps
    decreases |ps|
  {
    if ps != [] {
      var p := ps[0];
      if IsDelimiter(p[0]) {
        assert p == [p[0]];
        PiecesOfConcat(ps[1..]);
        assert Concat(ps) == [p[0]] + Concat(ps[1..]);
        assert ps == [p] + ps[1..];
      } else {
        assert Undelimited(p);
        SplitRun(p, Concat(ps[1..]), []);
        assert [] + p == p;
        if |ps| == 1 {
          assert Concat(ps[1..]) == [];
        } else {
          var q := ps[1];
          assert !IsRun(q);
          assert q == [q[0]] && IsDelimiter(q[0]);
          assert Concat(ps[1..]) == [q[0]] + Concat(ps[2..]) by {
            assert ps[1..][1..] == ps[2..];
          }
          PiecesOfConcat(ps[2..]);
          assert ps == [p] + [q] + ps[2..];
        }
      }
    }
  }

  /** How `Evaluate` reads a piece: as a number, else as a variable, else as an
      operator or a parenthesis; anything else is an unknown symbol. */
  function Lex(p: string): Option<Token>
  {
    match ParseNumber(p)
    case Some(v) => Some(Num(v))
    case None =>
      if IsVariable(p) then Some(Var(p))
      else match ParseOperator(p)
        case Some(op) => Some(Op(op))
        case None =>
          if p == "(" then Some(LParen)
          else if p == ")" then Some(RParen)
          else None
  }

  /** A piece is read as the constructor reads the same token, except that a
      token the constructor takes for a variable must have the variable shape. */
  lemma LexCanonical(p: string)
    ensures Lex(p).Some? ==> Canonical(p) == Lex(p)
    ensures Lex(p).None? ==> p == "" || (Canonical(p) == Some(Var(p)) && !IsVariable(p))
  {
  }

  /** The tokens read from the pieces up to the first unknown symbol, and whether there was none. */
  datatype Lexing = Lexing(tokens: seq<Token>, complete: bool)

  function LexAll(ps: seq<string>): (r: Lexing)
    ensures |r.tokens| <= |ps|
    ensures r.complete <==> |r.tokens| == |ps|
    ensures forall k :: 0 <= k < |r.tokens| ==> Lex(ps[k]) == Some(r.tokens[k])
    ensures !r.complete ==> Lex(ps[|r.tokens|]).None?
  {
    UpToUnknown(seq(|ps|, k requires 0 <= k < |ps| => Lex(ps[k])))
  }

  /** The tokens of `os` up to its first `None`, and whether there was none. */
  function UpToUnknown(os: seq<Option<Token>>): (r: Lexing)
    ensures |r.tokens| <= |os|
    ensures r.complete <==> |r.tokens| == |os|
    ensures forall k :: 0 <= k < |r.tokens| ==> os[k] == Some(r.tokens[k])
    ensures !r.complete ==> os[|r.tokens|].None?
  {
    if os == [] then Lexing([], true)
    else match os[0]
      case None => Lexing([], false)
      case Some(t) =>
        var rest := UpToUnknown(os[1..]);
        Lexing([t] + rest.tokens, rest.complete)
  }

  /** The first pieces of `ps` are read as `ts`. */
  predicate ReadsAs(ps: seq<string>, ts: seq<Token>)
  {
    |ts| <= |ps| && forall k :: 0 <= k < |ts| ==> Lex(ps[k]) == Some(ts[k])
  }

  lemma ReadsAsSnoc(ps: seq<string>, ts: seq<Token>, t: Token)
    requires ReadsAs(ps, ts) && |ts| < |ps| && Lex(ps[|ts|]) == Some(t)
    ensures ReadsAs(ps, ts + [t])
  {
  }

  /** Tokens read from a prefix of the pieces are a prefix of what is read from all of them. */
  lemma LexedPrefix(ps: seq<string>, ts: seq<Token>)
    requires ReadsAs(ps, ts)
    ensures |LexAll(ps).tokens| >= |ts| && LexAll(ps).tokens[..|ts|] == ts
    ensures |ts| == |ps| ==> LexAll(ps) == Lexing(ts, true)
    ensures |ts| < |ps| && Lex(ps[|ts|]).None? ==> LexAll(ps) == Lexing(ts, false)
  {
    var r := LexAll(ps);
    assert r.tokens[..|ts|] == ts;
    if |ts| < |ps| && Lex(ps[|ts|]).None? {
      assert |r.tokens| == |ts|;
    }
  }

  /** What `Evaluate` computes from the pieces: the machine run over the
      tokens read before the first unknown symbol; if it has not stopped, the
      final stack handling when every piece was read, an error otherwise. */
  function PiecesEvaluation(variant: Variant, lookup: string -> Option<real>, ps: seq<string>): Outcome
  {
    var lexed := LexAll(ps);
    match Exec(variant, lookup, Running(Initial), lexed.tokens)
    case Stopped(o) => o
    case Running(m) => if lexed.complete then Finish(m) else Error(UnknownSymbol)
  }

  function TextEvaluation(variant: Variant, lookup: string -> Option<real>, text: string): Outcome
  {
    PiecesEvaluation(variant, lookup, Pieces(text))
  }

  /** The pieces `isAVariable` adds to the variable set: those starting with a letter or an underscore. */
  function Named(ps: seq<string>): (r: set<string>)
    ensures forall p :: p in r <==> p in ps && p != "" && IsIdentStart(p[0])
  {
    set p | p in ps && p != "" && IsIdentStart(p[0])
  }

  /** `Evaluate`: the trimmed text is split into pieces, and each piece in
      turn is read and handed to the machine, returning as soon as a step
      stops it or a piece is an unknown symbol. Reading a piece calls
      `isAVariable`, which adds the pieces starting with a letter or `_` to the
      formula's variable set; `variables` is that set afterwards. */
  method Evaluate(variant: Variant, f: Formula, render: real -> string, lookup: string -> Option<real>)
    returns (r: Outcome, variables: set<string>)
    ensures r == TextEvaluation(variant, lookup, ToString(f, render))
    ensures f.variables <= variables <= f.variables + Named(Pieces(ToString(f, render)))
  {
    var text := Trim(FormulaString(f.tokens, render));
    var ps := Pieces(text);
    PiecesNonEmpty(text);
    r, variables := RunPieces(variant, ps, lookup, f.variables);
  }

  /** The loop of `Evaluate` over the pieces. */
  method RunPieces(variant: Variant, ps: seq<string>, lookup: string -> Option<real>, variables0: set<string>)
    returns (r: Outcome, variables: set<string>)
    requires forall k :: 0 <= k < |ps| ==> ps[k] != ""
    ensures r == PiecesEvaluation(variant, lookup, ps)
    ensures variables0 <= variables <= variables0 + Named(ps)
  {
    variables := variables0;
    var ops: seq<Pending> := [];
    var vals: seq<real> := [];
    ghost var ts: seq<Token> := [];
    for i := 0 to |ps|
      invariant |ts| == i && ReadsAs(ps, ts)
      invariant Exec(variant, lookup, Running(Initial), ts) == Running(Machine(ops, vals))
      invariant variables0 <= variables <= variables0 + Named(ps)
    {
      var t;
      ghost var before := variables;
      t, variables := ReadPiece(ps[i], variables);
      AddedIsNamed(ps, i);
      if t.None? {
        LexedPrefix(ps, ts);
        return Error(UnknownSymbol), variables;
      }
      var stop;
      ops, vals, stop := Advance(variant, lookup, ops, vals, t.value);
      if stop.Some? {
        StopAtPiece(variant, lookup, ps, ts, t.value, stop.value);
        return stop.value, variables;
      }
      assert (ts + [t.value])[..i] == ts;
      ReadsAsSnoc(ps, ts, t.value);
      ts := ts + [t.value];
    }
    LexedPrefix(ps, ts);
    r := Finish(Machine(ops, vals));
  }

  /** What reading a piece adds to the variable set: `isAVariable` is called on
      a piece that is not a number, and adds it when it starts with a letter or `_`. */
  function Added(piece: string): set<string>
  {
    if ParseNumber(piece).None? && piece != "" && IsIdentStart(piece[0]) then {piece} else {}
  }

  lemma AddedIsNamed(ps: seq<string>, i: nat)
    requires i < |ps|
    ensures Added(ps[i]) <= Named(ps)
  {
  }

  /** One piece read as the loop body reads it: `Double.TryParse`, then
      `isAVariable` with its side effect, then the operators and parentheses. */
  method ReadPiece(piece: string, variables0: set<string>) returns (t: Option<Token>, variables: set<string>)
    requires piece != ""
    ensures t == Lex(piece)
    ensures variables == variables0 + Added(piece)
  {
    variables := variables0;
    var number := ParseNumber(piece);
    if number.Some? {
      return Some(Num(number.value)), variables;
    }
    var probe;
    probe, variables := IsAVariable(piece, variables);
    if probe == Pass {
      t := Some(Var(piece));
    } else if piece == "+" {
      t := Some(Op(Plus));
    } else if piece == "-" {
      t := Some(Op(Minus));
    } else if piece == "*" {
      t := Some(Op(Times));
    } else if piece == "/" {
      t := Some(Op(Divide));
    } else if piece == "(" {
      t := Some(LParen);
    } else if piece == ")" {
      t := Some(RParen);
    } else {
      t := None;
    }
  }

  /** A piece read as `t` that stops the machine decides the outcome. */
  lemma StopAtPiece(variant: Variant, lookup: string -> Option<real>, ps: seq<string>, ts: seq<Token>,
                    t: Token, o: Outcome)
    requires ReadsAs(ps, ts) && |ts| < |ps| && Lex(ps[|ts|]) == Some(t)
    requires Exec(variant, lookup, Running(Initial), ts).Running?
    requires Step(variant, lookup, Exec(variant, lookup, Running(Initial), ts).m, t) == Stopped(o)
    ensures Exec(variant, lookup, Running(Initial), LexAll(ps).tokens) == Stopped(o)
  {
    ReadsAsSnoc(ps, ts, t);
    LexedPrefix(ps, ts + [t]);
    StopInPrefix(variant, lookup, ts, t, o, LexAll(ps).tokens);
  }

  /** A run that stops at token `t` stops the same way on every longer run. */
  lemma StopInPrefix(variant: Variant, lookup: string -> Option<real>, ts: seq<Token>, t: Token, o: Outcome,
                     all: seq<Token>)
    requires |all| >= |ts| + 1 && all[..|ts| + 1] == ts + [t]
    requires Exec(variant, lookup, Running(Initial), ts).Running?
    requires Step(variant, lookup, Exec(variant, lookup, Running(Initial), ts).m, t) == Stopped(o)
    ensures Exec(variant, lookup, Running(Initial), all) == Stopped(o)
  {
    var u := ts + [t];
    assert all == u + all[|u|..];
    assert u[..|ts|] == ts;
    ExecAppend(variant, lookup, Running(Initial), u, all[|u|..]);
    ExecStopped(variant, lookup, o, all[|u|..]);
  }

  /** Every number is rendered faithfully and without a sign character, and
      every variable has the variable shape: each token text is then a piece of
      its own. */
  predicate Resplittable(ts: seq<Token>, render: real -> string)
  {
    && RoundTrip.Writable(ts, render)
    && forall k :: 0 <= k < |ts| && ts[k].Num? ==> Undelimited(render(ts[k].value))
  }

  /** A token text is one piece, a run exactly for numbers and variables, and reads back as the token. */
  lemma TextIsPiece(t: Token, render: real -> string)
    requires t.Num? ==> RoundTrip.Renders(render, t.value) && Undelimited(render(t.value))
    requires t.Var? ==> IsVariable(t.name)
    ensures WellSplit(TokenText(t, render))
    ensures IsRun(TokenText(t, render)) <==> RoundTrip.Operand(t)
    ensures Lex(TokenText(t, render)) == Some(t)
  {
    match t
    case Num(v) => NumberPiece(v, render);
    case Var(x) => VariablePiece(x, render);
    case Op(o) => OperatorPiece(o, render);
    case LParen => ParenPiece(LParen, render);
    case RParen => ParenPiece(RParen, render);
  }

  lemma NumberPiece(v: real, render: real -> string)
    requires RoundTrip.Renders(render, v) && Undelimited(render(v))
    ensures WellSplit(TokenText(Num(v), render)) && IsRun(TokenText(Num(v), render))
    ensures Lex(TokenText(Num(v), render)) == Some(Num(v))
  {
  }

  lemma VariablePiece(x: string, render: real -> string)
    requires IsVariable(x)
    ensures WellSplit(TokenText(Var(x), render)) && IsRun(TokenText(Var(x), render))
    ensures Lex(TokenText(Var(x), render)) == Some(Var(x))
  {
    VariableIsNotNumber(x);
  }

  lemma OperatorPiece(o: Operator, render: real -> string)
    ensures WellSplit(TokenText(Op(o), render)) && !IsRun(TokenText(Op(o), render))
    ensures Lex(TokenText(Op(o), render)) == Some(Op(o))
  {
    assert MantissaLen(OperatorSymbol(o)) == 0;
  }

  lemma ParenPiece(t: Token, render: real -> string)
    requires t == LParen || t == RParen
    ensures WellSplit(TokenText(t, render)) && !IsRun(TokenText(t, render))
    ensures Lex(TokenText(t, render)) == Some(t)
  {
    if t == LParen {
      assert MantissaLen("(") == 0;
    } else {
      assert MantissaLen(")") == 0;
    }
  }

  /** The texts of a resplittable, separated token sequence are the pieces of
      their concatenation, and they read back as the tokens. */
  lemma TextsArePieces(ts: seq<Token>, render: real -> string)
    requires Resplittable(ts, render) && RoundTrip.Separated(ts)
    ensures Pieces(Concat(RoundTrip.Texts(ts, render))) == RoundTrip.Texts(ts, render)
    ensures LexAll(RoundTrip.Texts(ts, render)) == Lexing(ts, true)
  {
    var xs := RoundTrip.Texts(ts, render);
    forall k | 0 <= k < |ts|
      ensures WellSplit(xs[k]) && (IsRun(xs[k]) <==> RoundTrip.Operand(ts[k])) && Lex(xs[k]) == Some(ts[k])
    {
      TextIsPiece(ts[k], render);
    }
    PiecesOfConcat(xs);
    assert ReadsAs(xs, ts);
    LexedPrefix(xs, ts);
  }

  /** Only a variable's text starts with a letter or `_`. */
  lemma NameText(t: Token, render: real -> string)
    requires t.Num? ==> RoundTrip.Renders(render, t.value)
    ensures TokenText(t, render) != "" && IsIdentStart(TokenText(t, render)[0]) ==> t.Var?
  {
  }

  /** The pieces of a resplittable token sequence that start with a letter or
      `_` are its variables. */
  lemma NamedTexts(ts: seq<Token>, render: real -> string)
    requires Resplittable(ts, render)
    ensures Named(RoundTrip.Texts(ts, render)) == VariablesOf(ts)
  {
    var xs := RoundTrip.Texts(ts, render);
    forall p | p in Named(xs) ensures p in VariablesOf(ts) {
      var k :| 0 <= k < |xs| && xs[k] == p;
      NameText(ts[k], render);
    }
    forall v | v in VariablesOf(ts) ensures v in Named(xs) {
      var k :| 0 <= k < |ts| && ts[k] == Var(v);
      assert xs[k] == v;
    }
  }

  /** For a formula in which no operand directly follows another, `Evaluate`
      computes what the machine computes over the formula's tokens, and the
      pieces it adds to the variable set are the formula's own variables. */
  lemma SeparatedEvaluation(variant: Variant, lookup: string -> Option<real>, f: Formula, render: real -> string)
    requires Resplittable(f.tokens, render) && RoundTrip.Separated(f.tokens)
    ensures TextEvaluation(variant, lookup, ToString(f, render)) == Evaluation(variant, lookup, f.tokens)
    ensures Named(Pieces(ToString(f, render))) == VariablesOf(f.tokens)
  {
    RoundTrip.WritableIsPlain(f.tokens, render);
    RoundTrip.FormulaStringIsConcat(f.tokens, render);
    TextsArePieces(f.tokens, render);
    NamedTexts(f.tokens, render);
  }

  /** As written, `x y` builds a formula whose variables are `x` and `y`, but
      `Evaluate` reads its text `xy` as a single variable: it looks up `xy`,
      which `GetVariables` does not list, adds it to the variable set, and
      fails for every lookup that leaves `xy` undefined. */
  lemma MergedVariables(variant: Variant, lookup: string -> Option<real>, render: real -> string)
    requires lookup("xy").None?
    ensures BuildDefault("x y") == Built(Formula([Var("x"), Var("y")], {"x", "y"}))
    ensures Pieces(ToString(Formula([Var("x"), Var("y")], {"x", "y"}), render)) == ["xy"]
    ensures TextEvaluation(variant, lookup, ToString(Formula([Var("x"), Var("y")], {"x", "y"}), render))
      == Error(UndefinedVariable("xy"))
    ensures Named(["xy"]) == {"xy"}
  {
    RoundTrip.BuildTwoVariables();
    RoundTrip.MergedText(render);
    MergedPieces();
    MergedLookup(variant, lookup);
    MergedNamed();
  }

  lemma MergedNamed()
    ensures Named(["xy"]) == {"xy"}
  {
    assert "xy" in Named(["xy"]);
  }

  lemma MergedLookup(variant: Variant, lookup: string -> Option<real>)
    requires lookup("xy").None?
    ensures TextEvaluation(variant, lookup, "xy") == Error(UndefinedVariable("xy"))
  {
    MergedPieces();
    ExecSingle(variant, lookup, Initial, Var("xy"));
  }

  lemma MergedPieces()
    ensures Pieces("xy") == ["xy"]
    ensures LexAll(["xy"]) == Lexing([Var("xy")], true)
  {
    assert !IsDelimiter('x') && !IsDelimiter('y');
    assert "xy"[1..] == "y" && "y"[1..] == [];
    assert [] + ['x'] == "x" && "x" + ['y'] == "xy";
    assert SplitFrom("xy", []) == SplitFrom("y", "x");
    assert SplitFrom("y", "x") == SplitFrom([], "xy");
    VariableIsNotNumber("xy");
    assert Lex("xy") == Some(Var("xy"));
    assert ["xy"][1..] == [];
  }

  /** With the follow rule after a variable, `Evaluate` on a constructed
      formula is the machine run over its tokens: it adds nothing to the
      variable set, and it depends on the lookup only at the variables
      `GetVariables` lists. */
  lemma SeparatedEvaluate(text: string, render: real -> string, variant: Variant,
                          lookup1: string -> Option<real>, lookup2: string -> Option<real>)
    requires RoundTrip.BuildSeparated(text, s => s, s => true).Built?
    requires Resplittable(RoundTrip.BuildSeparated(text, s => s, s => true).formula.tokens, render)
    ensures var f := RoundTrip.BuildSeparated(text, s => s, s => true).formula;
      && TextEvaluation(variant, lookup1, ToString(f, render)) == Evaluation(variant, lookup1, f.tokens)
      && Named(Pieces(ToString(f, render))) == GetVariables(f)
      && ((forall v :: v in GetVariables(f) ==> lookup1(v) == lookup2(v)) ==>
            TextEvaluation(variant, lookup1, ToString(f, render)) == TextEvaluation(variant, lookup2, ToString(f, render)))
  {
    var f := RoundTrip.BuildSeparated(text, s => s, s => true).formula;
    assert BuildDefault(text) == Built(f);
    BuildCharacterised(text, s => s, s => true);
    SeparatedEvaluation(variant, lookup1, f, render);
    SeparatedEvaluation(variant, lookup2, f, render);
    if forall v :: v in GetVariables(f) ==> lookup1(v) == lookup2(v) {
      ExecUsesVariables(variant, lookup1, lookup2, Running(Initial), f.tokens);
    }
  }
}
