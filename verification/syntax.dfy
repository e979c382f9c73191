/** The canonical tokens a Formula stores, and the Formula value itself. */
module Syntax {
  import opened Wrappers

  datatype Operator = Plus | Minus | Times | Divide

  /** A canonical token: a number by its value, a variable by its normalised
      name, an operator, or a parenthesis. */
  datatype Token = Num(value: real) | Var(name: string) | Op(op: Operator) | LParen | RParen

  /** A constructed formula: its canonical tokens, in order, and the set of
      normalised variables occurring in them. */
  datatype Formula = Formula(tokens: seq<Token>, variables: set<string>)

  function OperatorSymbol(op: Operator): string
  {
    match op
    case Plus => "+"
    case Minus => "-"
    case Times => "*"
    case Divide => "/"
  }

  /** The operator a one-character token names, if any. */
  function ParseOperator(t: string): (r: Option<Operator>)
    ensures r.Some? ==> OperatorSymbol(r.value) == t
    ensures r.None? ==> forall op :: OperatorSymbol(op) != t
  {
    if t == "+" then Some(Plus)
    else if t == "-" then Some(Minus)
    else if t == "*" then Some(Times)
    else if t == "/" then Some(Divide)
    else None
  }

  /** The set of names of the variable tokens of `ts`. */
  function VariablesOf(ts: seq<Token>): (r: set<string>)
    ensures forall v :: v in r <==> exists i :: 0 <= i < |ts| && ts[i] == Var(v)
  {
    if ts == [] then {}
    else
      var rest := VariablesOf(ts[1..]);
      assert forall v :: (exists i :: 1 <= i < |ts| && ts[i] == Var(v)) <==> (exists j :: 0 <= j < |ts[1..]| && ts[1..][j] == Var(v)) by {
        forall v | exists i :: 1 <= i < |ts| && ts[i] == Var(v)
          ensures exists j :: 0 <= j < |ts[1..]| && ts[1..][j] == Var(v)
        {
          var i :| 1 <= i < |ts| && ts[i] == Var(v);
          assert ts[1..][i - 1] == Var(v);
        }
      }
      (if ts[0].Var? then {ts[0].name} else {}) + rest
  }
}
