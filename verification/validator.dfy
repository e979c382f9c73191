/** The Formula constructor: it tokenizes the text once, normalises every
    token, checks the first and last tokens, walks the tokens checking what may
    follow what, counts the parentheses, and collects the canonical tokens and
    the variables. The model reproduces the source's checks as written:
    parentheses are compared by their final totals only, the follow rules after
    a number or `)` look at the raw next token while those after `(` or an
    operator look at the normalised one, no follow rule applies after a
    variable, and a text without tokens ends in an index error. */
module Validator {
  import opened Chars
  import opened Wrappers
  import opened Tokenizer
  import opened Numbers
  import opened Syntax

  /** The reasons the constructor throws a FormulaFormatException, one per throw site. */
  datatype FormatFault =
    | EmptyText
    | InvalidFirst
    | InvalidLast
    | NegativeNumber
    | BadAfterNumber
    | BadAfterLeftParen
    | BadAfterRightParen
    | BadAfterOperator
    | NotAVariable(symbol: string)
    | RejectedVariable(name: string)
    | UnequalParens
    | AdjacentOperands  // raised only by the constructor with the follow rule after a variable

  /** What construction ends in: a formula, a format error, or the index error
      the source runs into (an empty token array, or an empty string handed to
      the variable check). */
  datatype Construction = Built(formula: Formula) | FormatError(fault: FormatFault) | IndexOutOfRange

  /** The three outcomes of the source's test `t == paren || TryParse(t) || isAVariable(t)`. */
  datatype Probe = Pass | Fail | Crash

  /** The test applied to the first token (with `(`), the last token (with `)`)
      and to the normalised token after `(` or an operator (with `(`). */
  function ProbeOperand(t: string, paren: string): (p: Probe)
    ensures p == Pass <==> t == paren || ParseNumber(t).Some? || IsVariable(t)
    ensures p == Crash <==> t == "" && paren != ""
  {
    if t == paren || ParseNumber(t).Some? then Pass
    else if t == "" then Crash
    else if IsVariable(t) then Pass
    else Fail
  }

  /** The raw token after a number or `)` must be an operator or `)`. */
  predicate OperatorOrClose(r: string)
  {
    r == "+" || r == "-" || r == "*" || r == "/" || r == ")"
  }

  /** One iteration of the constructor's loop at position `i`: it either stops
      with the construction's outcome, or continues with the updated counters
      and the canonical token to append (none for a token normalised to ""). */
  datatype Iteration = Stop(result: Construction) | Next(left: nat, right: nat, token: Option<Token>)

  function StepAt(raw: seq<string>, normalize: string -> string, isValid: string -> bool,
                  i: nat, left: nat, right: nat): Iteration
    requires i < |raw|
  {
    var t := normalize(raw[i]);
    var hasNext := i < |raw| - 1;
    if t == "" then Next(left, right, None)
    else match ParseNumber(t)
      case Some(v) =>
        if v < 0.0 then Stop(FormatError(NegativeNumber))
        else if hasNext && !OperatorOrClose(raw[i + 1]) then Stop(FormatError(BadAfterNumber))
        else Next(left, right, Some(Num(v)))
      case None =>
        if t == "(" then
          var p := if hasNext then ProbeOperand(normalize(raw[i + 1]), "(") else Pass;
          if p == Crash then Stop(IndexOutOfRange)
          else if p == Fail then Stop(FormatError(BadAfterLeftParen))
          else Next(left + 1, right, Some(LParen))
        else if t == ")" then
          if hasNext && !OperatorOrClose(raw[i + 1]) then Stop(FormatError(BadAfterRightParen))
          else Next(left, right + 1, Some(RParen))
        else match ParseOperator(t)
          case Some(op) =>
            var p := if hasNext then ProbeOperand(normalize(raw[i + 1]), "(") else Pass;
            if p == Crash then Stop(IndexOutOfRange)
            else if p == Fail then Stop(FormatError(BadAfterOperator))
            else Next(left, right, Some(Op(op)))
          case None =>
            if !IsVariable(t) then Stop(FormatError(NotAVariable(t)))
            else if !isValid(t) then Stop(FormatError(RejectedVariable(t)))
            else Next(left, right, Some(Var(t)))
  }

  /** `acc` extended by an optional token. */
  function Append(acc: seq<Token>, t: Option<Token>): seq<Token>
  {
    if t.Some? then acc + [t.value] else acc
  }

  /** The constructor's loop from position `i`, with the parenthesis counters
      and the canonical tokens gathered so far; at the end the totals of `(`
      and `)` are compared. */
  function Check(raw: seq<string>, normalize: string -> string, isValid: string -> bool,
                 i: nat, left: nat, right: nat, acc: seq<Token>): Construction
    requires i <= |raw|
    decreases |raw| - i
  {
    if i == |raw| then
      if right != left then FormatError(UnequalParens) else Built(Formula(acc, VariablesOf(acc)))
    else
      match StepAt(raw, normalize, isValid, i, left, right)
      case Stop(c) => c
      case Next(l, r, t) => Check(raw, normalize, isValid, i + 1, l, r, Append(acc, t))
  }

  /** Construction from the token array: the first and last tokens are checked
      before the loop. */
  function FromTokens(raw: seq<string>, normalize: string -> string, isValid: string -> bool): Construction
  {
    if |raw| == 0 then IndexOutOfRange
    else
      var first := ProbeOperand(normalize(raw[0]), "(");
      if first == Crash then IndexOutOfRange
      else if first == Fail then FormatError(InvalidFirst)
      else
        var last := ProbeOperand(normalize(raw[|raw| - 1]), ")");
        if last == Crash then IndexOutOfRange
        else if last == Fail then FormatError(InvalidLast)
        else Check(raw, normalize, isValid, 0, 0, 0, [])
  }

  /** What `new Formula(text, normalize, isValid)` does. */
  function Build(text: string, normalize: string -> string, isValid: string -> bool): Construction
  {
    if text == "" then FormatError(EmptyText) else FromTokens(GetTokens(text), normalize, isValid)
  }

  /** The one-argument constructor: identity normaliser, every variable valid. */
  function BuildDefault(text: string): Construction
  {
    Build(text, s => s, s => true)
  }

  /** `isAVariable`: the token has the variable shape. The source reads the
      first character before anything else (an index error on ""), and adds
      the token to the variable set once for every character it accepts, so a
      token whose first character is a letter or `_` is added even when a later
      character rejects it. */
  method IsAVariable(token: string, variables0: set<string>) returns (p: Probe, variables: set<string>)
    ensures p == Crash <==> token == ""
    ensures p == Pass <==> IsVariable(token)
    ensures variables == if token != "" && IsIdentStart(token[0]) then variables0 + {token} else variables0
  {
    variables := variables0;
    if token == "" {
      return Crash, variables;
    }
    if !IsIdentStart(token[0]) {
      return Fail, variables;
    }
    var j := 0;
    while j < |token|
      invariant 0 <= j <= |token|
      invariant forall k :: 0 <= k < j ==> IsIdentChar(token[k])
      invariant variables == if j == 0 then variables0 else variables0 + {token}
    {
      if !IsIdentChar(token[j]) {
        return Fail, variables;
      }
      variables := variables + {token};
      j := j + 1;
    }
    return Pass, variables;
  }

  /** What a probe adds to the variable set: `isAVariable` is reached only
      when the token is neither the parenthesis nor a number. */
  function Touched(t: string, paren: string): set<string>
  {
    if t != paren && ParseNumber(t).None? && t != "" && IsIdentStart(t[0]) then {t} else {}
  }

  /** The test `t == paren || TryParse(t) || isAVariable(t)`, with the
      side effect of `isAVariable` on the variable set. */
  method ProbeToken(t: string, paren: string, variables0: set<string>) returns (p: Probe, variables: set<string>)
    ensures p == ProbeOperand(t, paren)
    ensures variables == variables0 + Touched(t, paren)
  {
    if t == paren || ParseNumber(t).Some? {
      return Pass, variables0;
    }
    p, variables := IsAVariable(t, variables0);
  }

  /** Some token at position `i` or later normalises to `v`. */
  predicate Ahead(raw: seq<string>, normalize: string -> string, i: nat, v: string)
  {
    exists j :: i <= j < |raw| && normalize(raw[j]) == v
  }

  /** Every name in `variables` has the variable's first character and is
      either a variable of `tokens` or a normalised token at `i` or later. */
  predicate Anticipated(raw: seq<string>, normalize: string -> string, i: nat,
                        variables: set<string>, tokens: seq<Token>)
  {
    && VariablesOf(tokens) <= variables
    && forall v :: v in variables ==>
         v != "" && IsIdentStart(v[0]) && (v in VariablesOf(tokens) || Ahead(raw, normalize, i, v))
  }

  /** The constructor as the source runs it: one pass over the token array that
      updates the two parenthesis counters and appends to the canonical tokens
      and to the variable set. The variable set is filled by the side effect
      of `isAVariable`, including the probes of the first, last and next
      tokens; on success it is exactly the set of variables of the tokens. */
  method Construct(text: string, normalize: string -> string, isValid: string -> bool)
    returns (r: Construction)
    ensures r == Build(text, normalize, isValid)
  {
    if text == "" {
      return FormatError(EmptyText);
    }
    var raw := GetTokens(text);
    if |raw| == 0 {
      return IndexOutOfRange;
    }
    var variables: set<string> := {};
    var first, last;
    first, variables := ProbeToken(normalize(raw[0]), "(", variables);
    if first != Pass {
      return if first == Crash then IndexOutOfRange else FormatError(InvalidFirst);
    }
    last, variables := ProbeToken(normalize(raw[|raw| - 1]), ")", variables);
    if last != Pass {
      return if last == Crash then IndexOutOfRange else FormatError(InvalidLast);
    }
    assert Anticipated(raw, normalize, 0, variables, []) by {
      forall v | v in variables
        ensures Ahead(raw, normalize, 0, v)
      {
        if v == normalize(raw[0]) {
          assert normalize(raw[0]) == v;
        } else {
          assert normalize(raw[|raw| - 1]) == v;
        }
      }
    }
    r := ScanTokens(raw, normalize, isValid, variables);
  }

  /** A name anticipated at `i` that is not the token at `i` is anticipated at `i + 1`. */
  lemma AheadNext(raw: seq<string>, normalize: string -> string, i: nat, v: string)
    requires i < |raw| && Ahead(raw, normalize, i, v) && normalize(raw[i]) != v
    ensures Ahead(raw, normalize, i + 1, v)
  {
    var j :| i <= j < |raw| && normalize(raw[j]) == v;
    assert i + 1 <= j;
  }

  /** The variable bookkeeping of one iteration: the token at `i` is consumed,
      and the probe of the token at `i + 1` may add it. */
  lemma AnticipatedStep(raw: seq<string>, normalize: string -> string, i: nat,
                        variables: set<string>, tokens: seq<Token>,
                        variables': set<string>, tokens': seq<Token>)
    requires i < |raw| && Anticipated(raw, normalize, i, variables, tokens)
    requires VariablesOf(tokens) <= VariablesOf(tokens')
    requires VariablesOf(tokens') <= variables'
    requires variables <= variables'
    requires var t := normalize(raw[i]);
      t != "" && IsIdentStart(t[0]) && t in variables ==> t in VariablesOf(tokens')
    requires forall v :: v in variables' - variables ==>
      v != "" && IsIdentStart(v[0]) &&
      (v in VariablesOf(tokens') || (i + 1 < |raw| && v == normalize(raw[i + 1])))
    ensures Anticipated(raw, normalize, i + 1, variables', tokens')
  {
    forall v | v in variables'
      ensures v != "" && IsIdentStart(v[0]) && (v in VariablesOf(tokens') || Ahead(raw, normalize, i + 1, v))
    {
      if v in VariablesOf(tokens') {
      } else if v in variables {
        AheadNext(raw, normalize, i, v);
      } else {
        assert normalize(raw[i + 1]) == v;
      }
    }
  }

  /** One iteration of the constructor's loop at position `i`, with the
      variables that `isAVariable` adds on the way. */
  method Visit(raw: seq<string>, normalize: string -> string, isValid: string -> bool,
               i: nat, leftPar: nat, rightPar: nat, variables0: set<string>)
    returns (step: Iteration, variables: set<string>)
    requires i < |raw|
    ensures step == StepAt(raw, normalize, isValid, i, leftPar, rightPar)
    ensures variables0 <= variables
    ensures step.Next? ==> forall v :: v in variables - variables0 ==>
      v != "" && IsIdentStart(v[0]) &&
      ((step.Next? && step.token == Some(Var(v))) || (i + 1 < |raw| && v == normalize(raw[i + 1])))
    ensures step.Next? && step.token.Some? && step.token.value.Var? ==> step.token.value.name in variables
    ensures var t := normalize(raw[i]);
      t != "" && IsIdentStart(t[0]) ==> step.Stop? || step.token == Some(Var(t))
  {
    variables := variables0;
    var t := normalize(raw[i]);
    var hasNext := i < |raw| - 1;
    if t == "" {
      return Next(leftPar, rightPar, None), variables;
    }
    var number := ParseNumber(t);
    if number.Some? {
      if number.value < 0.0 {
        return Stop(FormatError(NegativeNumber)), variables;
      }
      if hasNext && !OperatorOrClose(raw[i + 1]) {
        return Stop(FormatError(BadAfterNumber)), variables;
      }
      return Next(leftPar, rightPar, Some(Num(number.value))), variables;
    } else if t == "(" {
      if hasNext {
        var p;
        p, variables := ProbeToken(normalize(raw[i + 1]), "(", variables);
        if p != Pass {
          return Stop(if p == Crash then IndexOutOfRange else FormatError(BadAfterLeftParen)), variables;
        }
      }
      return Next(leftPar + 1, rightPar, Some(LParen)), variables;
    } else if t == ")" {
      if hasNext && !OperatorOrClose(raw[i + 1]) {
        return Stop(FormatError(BadAfterRightParen)), variables;
      }
      return Next(leftPar, rightPar + 1, Some(RParen)), variables;
    } else if ParseOperator(t).Some? {
      if hasNext {
        var p;
        p, variables := ProbeToken(normalize(raw[i + 1]), "(", variables);
        if p != Pass {
          return Stop(if p == Crash then IndexOutOfRange else FormatError(BadAfterOperator)), variables;
        }
      }
      return Next(leftPar, rightPar, Some(Op(ParseOperator(t).value))), variables;
    } else {
      var p;
      p, variables := IsAVariable(t, variables);
      if p != Pass {
        return Stop(FormatError(NotAVariable(t))), variables;
      }
      if !isValid(t) {
        return Stop(FormatError(RejectedVariable(t))), variables;
      }
      return Next(leftPar, rightPar, Some(Var(t))), variables;
    }
  }

  /** After the last token nothing is left to anticipate: the set is exactly
      the variables of the tokens. */
  lemma AnticipatedEnd(raw: seq<string>, normalize: string -> string, variables: set<string>, tokens: seq<Token>)
    requires Anticipated(raw, normalize, |raw|, variables, tokens)
    ensures variables == VariablesOf(tokens)
  {
    forall v | v in variables
      ensures v in VariablesOf(tokens)
    {
      assert !Ahead(raw, normalize, |raw|, v);
    }
  }

  /** The constructor's loop over the token array. */
  method ScanTokens(raw: seq<string>, normalize: string -> string, isValid: string -> bool,
                    variables0: set<string>)
    returns (r: Construction)
    requires Anticipated(raw, normalize, 0, variables0, [])
    ensures r == Check(raw, normalize, isValid, 0, 0, 0, [])
  {
    var leftPar, rightPar := 0, 0;
    var tokens: seq<Token> := [];
    var variables := variables0;
    var i := 0;
    while i < |raw|
      invariant 0 <= i <= |raw|
      invariant Check(raw, normalize, isValid, i, leftPar, rightPar, tokens) == Check(raw, normalize, isValid, 0, 0, 0, [])
      invariant Anticipated(raw, normalize, i, variables, tokens)
      decreases |raw| - i
    {
      var before := variables;
      var step;
      step, variables := Visit(raw, normalize, isValid, i, leftPar, rightPar, variables);
      if step.Stop? {
        return step.result;
      }
      var tokens' := Append(tokens, step.token);
      if step.token.Some? {
        VariablesOfAppend(tokens, step.token.value);
      }
      AnticipatedStep(raw, normalize, i, before, tokens, variables, tokens');
      leftPar, rightPar := step.left, step.right;
      tokens := tokens';
      i := i + 1;
    }
    if rightPar != leftPar {
      return FormatError(UnequalParens);
    }
    AnticipatedEnd(raw, normalize, variables, tokens);
    return Built(Formula(tokens, variables));
  }

  lemma VariablesOfAppend(ts: seq<Token>, t: Token)
    ensures VariablesOf(ts + [t]) == VariablesOf(ts) + (if t.Var? then {t.name} else {})
  {
    var whole := ts + [t];
    forall v ensures v in VariablesOf(whole) <==> v in VariablesOf(ts) + (if t.Var? then {t.name} else {}) {
      if v in VariablesOf(ts) {
        var i :| 0 <= i < |ts| && ts[i] == Var(v);
        assert whole[i] == Var(v);
      }
      if t.Var? && v == t.name {
        assert whole[|ts|] == Var(v);
      }
      if v in VariablesOf(whole) {
        var i :| 0 <= i < |whole| && whole[i] == Var(v);
        if i < |ts| { assert ts[i] == Var(v); }
      }
    }
  }
}

/** What the constructor guarantees, stated without reference to its loop. */
module Acceptance {
  import opened Chars
  import opened Wrappers
  import opened Tokenizer
  import opened Numbers
  import opened Syntax
  import opened Validator

  /** A normalised token that may open an operand: `(`, a number or a variable. */
  predicate StartsOperand(t: string)
  {
    t == "(" || ParseNumber(t).Some? || IsVariable(t)
  }

  /** A normalised token that may close an operand: `)`, a number or a variable. */
  predicate EndsOperand(t: string)
  {
    t == ")" || ParseNumber(t).Some? || IsVariable(t)
  }

  /** The demands on the token at position `i`, given what follows it. */
  predicate PositionOk(raw: seq<string>, normalize: string -> string, isValid: string -> bool, i: nat)
    requires i < |raw|
  {
    var t := normalize(raw[i]);
    var hasNext := i + 1 < |raw|;
    t == ""
    || (ParseNumber(t).Some? && ParseNumber(t).value >= 0.0 && (hasNext ==> OperatorOrClose(raw[i + 1])))
    || ((t == "(" || ParseOperator(t).Some?) && (hasNext ==> StartsOperand(normalize(raw[i + 1]))))
    || (t == ")" && (hasNext ==> OperatorOrClose(raw[i + 1])))
    || (IsVariable(t) && isValid(t))
  }

  /** How many tokens from position `i` on normalise to `p`. */
  function Count(raw: seq<string>, normalize: string -> string, i: nat, p: string): nat
    requires i <= |raw|
    decreases |raw| - i
  {
    if i == |raw| then 0 else (if normalize(raw[i]) == p then 1 else 0) + Count(raw, normalize, i + 1, p)
  }

  /** Everything the constructor demands of its token array. */
  predicate Acceptable(raw: seq<string>, normalize: string -> string, isValid: string -> bool)
  {
    && |raw| > 0
    && StartsOperand(normalize(raw[0]))
    && EndsOperand(normalize(raw[|raw| - 1]))
    && (forall i :: 0 <= i < |raw| ==> PositionOk(raw, normalize, isValid, i))
    && Count(raw, normalize, 0, "(") == Count(raw, normalize, 0, ")")
  }

  /** The canonical token of a normalised token; none for the empty string. */
  function Canonical(t: string): Option<Token>
  {
    if t == "" then None
    else match ParseNumber(t)
      case Some(v) => Some(Num(v))
      case None =>
        if t == "(" then Some(LParen)
        else if t == ")" then Some(RParen)
        else match ParseOperator(t)
          case Some(op) => Some(Op(op))
          case None => Some(Var(t))
  }

  /** The canonical tokens of the normalised tokens from position `i` on. */
  function CanonicalFrom(raw: seq<string>, normalize: string -> string, i: nat): seq<Token>
    requires i <= |raw|
    decreases |raw| - i
  {
    if i == |raw| then [] else Append([], Canonical(normalize(raw[i]))) + CanonicalFrom(raw, normalize, i + 1)
  }

  lemma AppendAssoc(acc: seq<Token>, t: Option<Token>, rest: seq<Token>)
    ensures Append(acc, t) + rest == acc + (Append([], t) + rest)
  {
  }

  /** Every position from `i` on is acceptable. */
  predicate RestOk(raw: seq<string>, normalize: string -> string, isValid: string -> bool, i: nat)
    requires i <= |raw|
  {
    forall j :: i <= j < |raw| ==> PositionOk(raw, normalize, isValid, j)
  }

  /** The loop from position `i` builds a formula exactly when every remaining
      position is acceptable and the counters end up equal; the tokens it
      gathers are the canonical tokens of the remaining positions. */
  lemma {:induction false} CheckCharacterised(raw: seq<string>, normalize: string -> string, isValid: string -> bool,
                                              i: nat, left: nat, right: nat, acc: seq<Token>)
    requires i <= |raw|
    ensures Check(raw, normalize, isValid, i, left, right, acc).Built?
      <==> RestOk(raw, normalize, isValid, i)
           && left + Count(raw, normalize, i, "(") == right + Count(raw, normalize, i, ")")
    ensures Check(raw, normalize, isValid, i, left, right, acc).Built? ==>
      var f := Check(raw, normalize, isValid, i, left, right, acc).formula;
      f.tokens == acc + CanonicalFrom(raw, normalize, i) && f.variables == VariablesOf(f.tokens)
    decreases |raw| - i
  {
    if i < |raw| {
      var step := StepAt(raw, normalize, isValid, i, left, right);
      StepCharacterised(raw, normalize, isValid, i, left, right);
      RestOkStep(raw, normalize, isValid, i);
      if step.Next? {
        var acc' := Append(acc, step.token);
        CheckCharacterised(raw, normalize, isValid, i + 1, step.left, step.right, acc');
        AppendAssoc(acc, step.token, CanonicalFrom(raw, normalize, i + 1));
      }
    }
  }

  lemma RestOkStep(raw: seq<string>, normalize: string -> string, isValid: string -> bool, i: nat)
    requires i < |raw|
    ensures RestOk(raw, normalize, isValid, i) <==> PositionOk(raw, normalize, isValid, i) && RestOk(raw, normalize, isValid, i + 1)
  {
  }

  /** One iteration continues exactly when its position is acceptable, and then
      appends that position's canonical token and counts its parenthesis. */
  lemma StepCharacterised(raw: seq<string>, normalize: string -> string, isValid: string -> bool,
                          i: nat, left: nat, right: nat)
    requires i < |raw|
    ensures StepAt(raw, normalize, isValid, i, left, right).Next? <==> PositionOk(raw, normalize, isValid, i)
    ensures StepAt(raw, normalize, isValid, i, left, right).Next? ==>
      var step := StepAt(raw, normalize, isValid, i, left, right);
      var t := normalize(raw[i]);
      && step.token == Canonical(t)
      && step.left == left + (if t == "(" then 1 else 0)
      && step.right == right + (if t == ")" then 1 else 0)
  {
    StepContinues(raw, normalize, isValid, i, left, right);
    StepUpdates(raw, normalize, isValid, i, left, right);
  }

  lemma StepContinues(raw: seq<string>, normalize: string -> string, isValid: string -> bool,
                      i: nat, left: nat, right: nat)
    requires i < |raw|
    ensures StepAt(raw, normalize, isValid, i, left, right).Next? <==> PositionOk(raw, normalize, isValid, i)
  {
    var t := normalize(raw[i]);
    if IsVariable(t) {
      VariableIsNotNumber(t);
      assert t != "(" && t != ")" && ParseOperator(t).None?;
    }
    if i + 1 < |raw| {
      var u := normalize(raw[i + 1]);
      assert ProbeOperand(u, "(") == Pass <==> StartsOperand(u);
    }
  }

  lemma StepUpdates(raw: seq<string>, normalize: string -> string, isValid: string -> bool,
                    i: nat, left: nat, right: nat)
    requires i < |raw|
    ensures StepAt(raw, normalize, isValid, i, left, right).Next? ==>
      var step := StepAt(raw, normalize, isValid, i, left, right);
      var t := normalize(raw[i]);
      && step.token == Canonical(t)
      && step.left == left + (if t == "(" then 1 else 0)
      && step.right == right + (if t == ")" then 1 else 0)
  {
    var t := normalize(raw[i]);
    if t != "" && ParseNumber(t).None? && t != "(" && t != ")" && ParseOperator(t).None? {
      assert Canonical(t) == Some(Var(t));
    }
  }

  /** Construction from a token array succeeds exactly when the array is
      acceptable; the formula then holds the array's canonical tokens and the
      variables among them. */
  lemma FromTokensCharacterised(raw: seq<string>, normalize: string -> string, isValid: string -> bool)
    ensures FromTokens(raw, normalize, isValid).Built? <==> Acceptable(raw, normalize, isValid)
    ensures FromTokens(raw, normalize, isValid).Built? ==>
      var ts := CanonicalFrom(raw, normalize, 0);
      FromTokens(raw, normalize, isValid).formula == Formula(ts, VariablesOf(ts))
  {
    if |raw| > 0 {
      CheckFromStart(raw, normalize, isValid);
    }
  }

  /** The loop run from the start, with both counters at 0 and no tokens gathered. */
  lemma CheckFromStart(raw: seq<string>, normalize: string -> string, isValid: string -> bool)
    ensures Check(raw, normalize, isValid, 0, 0, 0, []).Built?
      <==> (forall i :: 0 <= i < |raw| ==> PositionOk(raw, normalize, isValid, i))
           && Count(raw, normalize, 0, "(") == Count(raw, normalize, 0, ")")
    ensures Check(raw, normalize, isValid, 0, 0, 0, []).Built? ==>
      var ts := CanonicalFrom(raw, normalize, 0);
      Check(raw, normalize, isValid, 0, 0, 0, []).formula == Formula(ts, VariablesOf(ts))
  {
    CheckCharacterised(raw, normalize, isValid, 0, 0, 0, []);
    assert [] + CanonicalFrom(raw, normalize, 0) == CanonicalFrom(raw, normalize, 0);
    assert RestOk(raw, normalize, isValid, 0) <==> forall i :: 0 <= i < |raw| ==> PositionOk(raw, normalize, isValid, i);
  }

  /** Construction succeeds exactly when the text is non-empty and its token
      array is acceptable; the formula then holds the canonical tokens of the
      array and the variables among them. */
  lemma BuildCharacterised(text: string, normalize: string -> string, isValid: string -> bool)
    ensures Build(text, normalize, isValid).Built? <==> text != "" && Acceptable(GetTokens(text), normalize, isValid)
    ensures Build(text, normalize, isValid).Built? ==>
      var ts := CanonicalFrom(GetTokens(text), normalize, 0);
      Build(text, normalize, isValid).formula == Formula(ts, VariablesOf(ts))
  {
    FromTokensCharacterised(GetTokens(text), normalize, isValid);
  }

  predicate StartToken(t: Token)
  {
    t.Num? || t.Var? || t == LParen
  }

  predicate EndToken(t: Token)
  {
    t.Num? || t.Var? || t == RParen
  }

  /** How many tokens of `ts` equal `t`. */
  function CountToken(ts: seq<Token>, t: Token): nat
  {
    if ts == [] then 0 else (if ts[0] == t then 1 else 0) + CountToken(ts[1..], t)
  }

  /** The shape of the canonical token sequence of every built formula:
      non-empty, opening and closing with an operand, `(` and operators always
      followed by the start of an operand, and as many `(` as `)`. */
  predicate Structured(ts: seq<Token>)
  {
    && |ts| > 0
    && StartToken(ts[0])
    && EndToken(ts[|ts| - 1])
    && (forall i :: 0 <= i < |ts| - 1 && (ts[i] == LParen || ts[i].Op?) ==> StartToken(ts[i + 1]))
    && CountToken(ts, LParen) == CountToken(ts, RParen)
  }

  /** A structured sequence whose numbers are non-negative and whose variables
      are well-shaped and accepted by the validity predicate. */
  predicate Admitted(ts: seq<Token>, isValid: string -> bool)
  {
    && Structured(ts)
    && (forall i :: 0 <= i < |ts| && ts[i].Num? ==> ts[i].value >= 0.0)
    && (forall i :: 0 <= i < |ts| && ts[i].Var? ==> IsVariable(ts[i].name) && isValid(ts[i].name))
  }

  lemma CanonicalOfStart(t: string)
    requires t != "" && StartsOperand(t)
    ensures Canonical(t).Some? && StartToken(Canonical(t).value)
  {
    if IsVariable(t) { VariableIsNotNumber(t); }
  }

  lemma CanonicalOfEnd(t: string)
    requires t != "" && EndsOperand(t)
    ensures Canonical(t).Some? && EndToken(Canonical(t).value)
  {
    if IsVariable(t) { VariableIsNotNumber(t); }
  }

  /** The canonical tokens from `i` on begin with that of position `i`, unless it normalised to "". */
  lemma {:induction false} CanonicalFirst(raw: seq<string>, normalize: string -> string, i: nat)
    requires i < |raw| && normalize(raw[i]) != ""
    ensures Canonical(normalize(raw[i])).Some?
    ensures |CanonicalFrom(raw, normalize, i)| > 0
    ensures CanonicalFrom(raw, normalize, i)[0] == Canonical(normalize(raw[i])).value
  {
  }

  /** The canonical tokens from `i` on end with that of the last position, unless it normalised to "". */
  lemma {:induction false} CanonicalLast(raw: seq<string>, normalize: string -> string, i: nat)
    requires i < |raw| && normalize(raw[|raw| - 1]) != ""
    ensures Canonical(normalize(raw[|raw| - 1])).Some?
    ensures |CanonicalFrom(raw, normalize, i)| > 0
    ensures CanonicalFrom(raw, normalize, i)[|CanonicalFrom(raw, normalize, i)| - 1] == Canonical(normalize(raw[|raw| - 1])).value
    decreases |raw| - i
  {
    var c := Canonical(normalize(raw[i]));
    var rest := CanonicalFrom(raw, normalize, i + 1);
    assert CanonicalFrom(raw, normalize, i) == Append([], c) + rest;
    CanonicalPresent(normalize(raw[|raw| - 1]));
    if i < |raw| - 1 {
      CanonicalLast(raw, normalize, i + 1);
      LastOfConcat(Append([], c), rest);
    } else {
      LastOfConcat([], Append([], c));
    }
  }

  lemma CanonicalPresent(t: string)
    requires t != ""
    ensures Canonical(t).Some?
  {
  }

  lemma LastOfConcat(a: seq<Token>, b: seq<Token>)
    requires b != []
    ensures |a + b| > 0 && (a + b)[|a + b| - 1] == b[|b| - 1]
  {
  }

  lemma {:induction false} CountToken_Append(a: seq<Token>, b: seq<Token>, t: Token)
    ensures CountToken(a + b, t) == CountToken(a, t) + CountToken(b, t)
  {
    if a == [] {
      assert a + b == b;
    } else {
      assert (a + b)[1..] == a[1..] + b;
      CountToken_Append(a[1..], b, t);
    }
  }

  /** The parenthesis counts of the canonical tokens are those of the normalised tokens. */
  lemma {:induction false} CanonicalCounts(raw: seq<string>, normalize: string -> string, i: nat)
    requires i <= |raw|
    ensures CountToken(CanonicalFrom(raw, normalize, i), LParen) == Count(raw, normalize, i, "(")
    ensures CountToken(CanonicalFrom(raw, normalize, i), RParen) == Count(raw, normalize, i, ")")
    decreases |raw| - i
  {
    if i < |raw| {
      var t := normalize(raw[i]);
      var head := Append([], Canonical(t));
      var rest := CanonicalFrom(raw, normalize, i + 1);
      assert CanonicalFrom(raw, normalize, i) == head + rest;
      CanonicalCounts(raw, normalize, i + 1);
      CountToken_Append(head, rest, LParen);
      CountToken_Append(head, rest, RParen);
      HeadCounts(t);
    }
  }

  /** The canonical token of `t` is `(` or `)` exactly when `t` is. */
  lemma HeadCounts(t: string)
    ensures CountToken(Append([], Canonical(t)), LParen) == if t == "(" then 1 else 0
    ensures CountToken(Append([], Canonical(t)), RParen) == if t == ")" then 1 else 0
  {
    if IsVariable(t) { VariableIsNotNumber(t); }
  }

  /** Numbers, variables and the follow rule for `(` and operators, in the canonical tokens. */
  predicate CanonicalOk(ts: seq<Token>, isValid: string -> bool)
  {
    && (forall k :: 0 <= k < |ts| - 1 && (ts[k] == LParen || ts[k].Op?) ==> StartToken(ts[k + 1]))
    && (forall k :: 0 <= k < |ts| && ts[k].Num? ==> ts[k].value >= 0.0)
    && (forall k :: 0 <= k < |ts| && ts[k].Var? ==> IsVariable(ts[k].name) && isValid(ts[k].name))
  }

  lemma {:induction false} CanonicalFromOk(raw: seq<string>, normalize: string -> string, isValid: string -> bool, i: nat)
    requires i <= |raw| && RestOk(raw, normalize, isValid, i)
    ensures CanonicalOk(CanonicalFrom(raw, normalize, i), isValid)
    decreases |raw| - i
  {
    if i < |raw| {
      var t := normalize(raw[i]);
      var rest := CanonicalFrom(raw, normalize, i + 1);
      assert CanonicalFrom(raw, normalize, i) == Append([], Canonical(t)) + rest;
      RestOkStep(raw, normalize, isValid, i);
      CanonicalFromOk(raw, normalize, isValid, i + 1);
      if t != "" {
        var c := Canonical(t).value;
        HeadOk(raw, normalize, isValid, i);
        if (c == LParen || c.Op?) && i + 1 < |raw| {
          CanonicalFirst(raw, normalize, i + 1);
          CanonicalOfStart(normalize(raw[i + 1]));
        }
        ConsOk(c, rest, isValid);
        AppendPresent(Canonical(t), rest);
      } else {
        AppendAbsent(Canonical(t), rest);
      }
    }
  }

  lemma AppendPresent(o: Option<Token>, rest: seq<Token>)
    requires o.Some?
    ensures Append([], o) + rest == [o.value] + rest
  {
  }

  lemma AppendAbsent(o: Option<Token>, rest: seq<Token>)
    requires o.None?
    ensures Append([], o) + rest == rest
  {
  }

  lemma ConsOk(c: Token, rest: seq<Token>, isValid: string -> bool)
    requires CanonicalOk(rest, isValid)
    requires c.Num? ==> c.value >= 0.0
    requires c.Var? ==> IsVariable(c.name) && isValid(c.name)
    requires (c == LParen || c.Op?) && rest != [] ==> StartToken(rest[0])
    ensures CanonicalOk([c] + rest, isValid)
  {
    var ts := [c] + rest;
    forall k | 0 <= k < |ts| - 1 && (ts[k] == LParen || ts[k].Op?) ensures StartToken(ts[k + 1]) {
      assert ts[k + 1] == rest[k];
      if k > 0 { assert ts[k] == rest[k - 1]; }
    }
    forall k | 0 <= k < |ts| && ts[k].Num? ensures ts[k].value >= 0.0 {
      if k > 0 { assert ts[k] == rest[k - 1]; }
    }
    forall k | 0 <= k < |ts| && ts[k].Var? ensures IsVariable(ts[k].name) && isValid(ts[k].name) {
      if k > 0 { assert ts[k] == rest[k - 1]; }
    }
  }

  /** What an acceptable position's own canonical token satisfies. */
  lemma HeadOk(raw: seq<string>, normalize: string -> string, isValid: string -> bool, i: nat)
    requires i < |raw| && normalize(raw[i]) != "" && PositionOk(raw, normalize, isValid, i)
    ensures Canonical(normalize(raw[i])).Some?
    ensures var c := Canonical(normalize(raw[i])).value;
      && (c.Num? ==> c.value >= 0.0)
      && (c.Var? ==> IsVariable(c.name) && isValid(c.name))
      && ((c == LParen || c.Op?) && i + 1 < |raw| ==> normalize(raw[i + 1]) != "" && StartsOperand(normalize(raw[i + 1])))
  {
    var t := normalize(raw[i]);
    if IsVariable(t) { VariableIsNotNumber(t); }
  }

  /** Every built formula's canonical tokens are admitted, and so its variables
      are well-shaped and accepted by the validity predicate. */
  lemma BuiltIsAdmitted(text: string, normalize: string -> string, isValid: string -> bool)
    requires Build(text, normalize, isValid).Built?
    ensures Admitted(Build(text, normalize, isValid).formula.tokens, isValid)
    ensures forall v :: v in Build(text, normalize, isValid).formula.variables ==> IsVariable(v) && isValid(v)
  {
    BuildCharacterised(text, normalize, isValid);
    var raw := GetTokens(text);
    var ts := CanonicalFrom(raw, normalize, 0);
    CanonicalFromOk(raw, normalize, isValid, 0);
    CanonicalCounts(raw, normalize, 0);
    CanonicalFirst(raw, normalize, 0);
    CanonicalOfStart(normalize(raw[0]));
    CanonicalLast(raw, normalize, 0);
    CanonicalOfEnd(normalize(raw[|raw| - 1]));
  }
}
