/** Numeric literals. A token is a number when the whole of it is an optional
    sign followed by a double literal of the tokenizer's grammar; its value is
    the exact real the digits denote. */
module Numbers {
  import opened Chars
  import opened Wrappers
  import opened Tokenizer

  function Pow10(e: nat): (r: nat)
    ensures r >= 1
  {
    if e == 0 then 1 else 10 * Pow10(e - 1)
  }

  /** The value of the digits `s[i..j]`, read as a decimal numeral. */
  function DigitsValue(s: string, i: nat, j: nat): nat
    requires i <= j <= |s|
    decreases j - i
  {
    if i == j then 0
    else 10 * DigitsValue(s, i, j - 1) + (if IsDigit(s[j - 1]) then (s[j - 1] as int - '0' as int) else 0)
  }

  /** 10 raised to an integer power. */
  function Scale(e: int): (r: real)
    ensures r > 0.0
  {
    if e >= 0 then Pow10(e) as real else 1.0 / Pow10(-e) as real
  }

  /** The value of a literal `body` that is entirely a double literal: integer
      part, optional fraction, optional exponent. */
  function LiteralValue(body: string): (r: real)
    requires NumberLen(body) == |body|
    ensures r >= 0.0
  {
    var m := MantissaLen(body);
    var k := if m + 1 < |body| && (body[m + 1] == '+' || body[m + 1] == '-') then m + 2 else m + 1;
    var exponent := if m < |body| then DigitsValue(body, k, |body|) else 0;
    var sign := if m + 1 < |body| && body[m + 1] == '-' then -1 else 1;
    MantissaCoversDigits(body);
    Scaled(MantissaValue(body, DigitsFrom(body, 0), m), sign * exponent)
  }

  lemma MantissaCoversDigits(s: string)
    ensures DigitsFrom(s, 0) <= MantissaLen(s)
  {
  }

  /** The value of the mantissa `body[..m]` whose integer part is `body[..d]`. */
  function MantissaValue(body: string, d: nat, m: nat): (r: real)
    requires d <= m <= |body|
    ensures r >= 0.0
  {
    var whole := DigitsValue(body, 0, d) as real;
    var fraction := if m > d + 1 then DigitsValue(body, d + 1, m) as real / Pow10(m - d - 1) as real else 0.0;
    whole + fraction
  }

  /** `x` times 10 to the power `e`. */
  function Scaled(x: real, e: int): (r: real)
    requires x >= 0.0
    ensures r >= 0.0
  {
    x * Scale(e)
  }

  /** Parses a whole token as a number: an optional `+` or `-`, then a double literal. */
  function ParseNumber(t: string): (r: Option<real>)
    ensures r.Some? ==> |t| > 0 && (IsDigit(t[0]) || t[0] == '.' || t[0] == '+' || t[0] == '-')
    ensures r.Some? && r.value < 0.0 ==> t[0] == '-'
  {
    var k := if |t| > 0 && (t[0] == '+' || t[0] == '-') then 1 else 0;
    var body := t[k..];
    if |body| > 0 && NumberLen(body) == |body| then
      var v := LiteralValue(body);
      Some(if k == 1 && t[0] == '-' then -v else v)
    else None
  }

  /** A variable-shaped token never parses as a number. */
  lemma VariableIsNotNumber(t: string)
    requires IsVariable(t)
    ensures ParseNumber(t) == None
  {
  }
}
