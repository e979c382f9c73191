# Formula: a verified model of the infix formula engine

This project models the `Formula` class of `PS3/Formula/Formula.cs`. The class
reads a text made of numbers, variables, `+ - * /` and parentheses. It checks
the text, keeps a normalised string of it and its set of variables, and
evaluates it with two stacks. The model covers each step:

- **Tokenizer** (`Tokenizer`): `GetTokens`, written as an explicit scanner over
  the same ordered patterns as the source's regular expression.
  - Whitespace runs are dropped.
  - A run that no pattern starts on is yielded as it is.
- **Constructor** (`Validator`, `Acceptance`):
  - the loop of the three-argument constructor, as the method
    `Validator.Construct` with its invariants;
  - `isAVariable`, including its habit of adding a token to the variable
    set before the token's later characters are checked;
  - a declarative account of what the constructor accepts and what it
    builds.
- **Evaluator** (`Evaluator`, `Resplit`, `Reference`, `Safety`, `TextSafety`):
  - the two-stack machine, one step per token;
  - `Evaluate`, which splits the trimmed formula string again and runs the
    machine over the pieces;
  - a reference evaluator over an expression grammar with precedence, which
    the machine agrees with;
  - the proof that `Evaluate` never throws on a formula the constructor
    built.
- **Views** (`Views`, `RoundTrip`):
  - `ToString`, `GetHashCode`, `GetVariables`, `Equals` and the `==` and
    `!=` operators;
  - the round trip from `ToString` back through the constructor.

Numbers are exact reals.
- Reading a numeral follows the tokenizer's double-literal grammar.
- Writing a number (`double.ToString`) is a parameter `render`.
- The caller's delegates are parameters:
  - `normalize: string -> string`;
  - `isValid: string -> bool`;
  - `lookup: string -> Option<real>`, where `None` stands for the lookup
    throwing.

A formula is the datatype `Formula(tokens, variables)`. `tokens` holds its
canonical tokens. The formula string is derived from them.

The source's quirks are reproduced where the source has them:
- Parentheses are compared by their final totals only.
- The follow rule after a number or `)` reads the raw next token. The rules
  after `(` and after an operator read the normalised one.
- No rule applies after a variable.
- A text that is only whitespace reaches `array[0]` and ends in an index
  error (`IndexOutOfRange`). It does not reach the empty-text check.
- A `)` over an empty operator stack is ignored.
- Evaluation returns, rather than throws, the `FormulaFormatException` object
  when the stacks end in an unexpected shape (`FormatExceptionObject`).
- It ends with its final `return 0` when a `*` or `/` is left on top of the
  operator stack. That result is the `int` 0, not a `double`
  (`Evaluator.IntZero`), so a caller casting it to `double` fails.

The model follows the code wherever the code and its documentation or tests
disagree. The tests that expect an exception for an undefined variable or for
`5/0` are the clearest case: the code returns a FormulaError for both.

## Model

| member | source | states |
|---|---|---|
| Chars.Trim | PS3/Formula/Formula.cs:270 | The trimmed text is a contiguous part of the text, and everything cut off before and after it is whitespace. It neither starts nor ends with whitespace. A text without whitespace is left unchanged. |
| Chars.TrimUnique | PS3/Formula/Formula.cs:564-567 | Every cut of whitespace only, off both ends, that leaves no whitespace at either end is `Trim`'s result: exactly the leading and trailing whitespace is removed. |
| Chars.RemoveSpaceAppend | PS3/Formula/Formula.cs:697-703 | Removing whitespace from a concatenation removes it from each part. |
| Tokenizer.MatchLen | PS3/Formula/Formula.cs:684-697 | The match at the head of the text is either a non-empty whitespace run or a piece without whitespace. |
| Tokenizer.NumberLen | PS3/Formula/Formula.cs:688 | The double-literal match is a prefix made only of digits, `.`, `e`, `E` and signs. |
| Tokenizer.ScanFacts | PS3/Formula/Formula.cs:697-703 | The scanner yields no empty token and no token with whitespace. Its tokens concatenated equal the pending text followed by the input with whitespace removed. |
| Tokenizer.GetTokensFacts | PS3/Formula/Formula.cs:682-705 | `GetTokens` yields no empty token and no token with whitespace. Its tokens concatenated are the input with whitespace removed. |
| Numbers.ParseNumber | PS3/Formula/Formula.cs:134-137 | A token that reads as a number starts with a digit, `.` or a sign. A negative value needs a leading `-`. |
| Numbers.LiteralValue | PS3/Formula/Formula.cs:688 | An unsigned double literal has a non-negative value. |
| Numbers.VariableIsNotNumber | PS3/Formula/Formula.cs:192-197 | A token of variable shape never reads as a number, so it reaches the variable branch. |
| Syntax.ParseOperator | PS3/Formula/Formula.cs:179-180 | A token is an operator exactly when it is the symbol of one of `+ - * /`. |
| Syntax.VariablesOf | PS3/Formula/Formula.cs:194-201 | The variable set holds exactly the names of the variable tokens, each once. |
| Validator.ProbeOperand | PS3/Formula/Formula.cs:105-116 | The test "paren, number or variable" passes exactly for those three. It throws an index error exactly on an empty normalised token. |
| Validator.IsAVariable | PS3/Formula/Formula.cs:213-240 | The method fails with an index error exactly on "". It passes exactly on variable shape. It adds the token to the set whenever the first character is a letter or `_`. |
| Validator.ProbeToken | PS3/Formula/Formula.cs:179-190 | The combined test answers as `ProbeOperand`. It adds to the variable set exactly what `isAVariable` touches. |
| Validator.Visit | PS3/Formula/Formula.cs:127-204 | One loop iteration yields `StepAt`. Variables it adds are the current token or the normalised next one. |
| Validator.ScanTokens | PS3/Formula/Formula.cs:124-210 | The loop and the final parenthesis check compute `Check`. The incrementally filled variable set ends equal to the names of the canonical tokens. |
| Validator.Construct | PS3/Formula/Formula.cs:90-211 | The constructor yields `Build`: the empty-text check, the first and last token checks, then the loop. |
| Validator.AnticipatedEnd | PS3/Formula/Formula.cs:225-237 | At the end of the loop the variable set, including entries added ahead by `isAVariable`, equals the variables of the canonical tokens. |
| Acceptance.StepCharacterised | PS3/Formula/Formula.cs:127-204 | An iteration continues exactly when the token meets its rule. It then appends the canonical token and counts `(` and `)`. |
| Acceptance.CheckCharacterised | PS3/Formula/Formula.cs:124-210 | The loop succeeds exactly when every remaining position is fine and the `(` and `)` totals agree. The formula then holds the canonical tokens and their variables. |
| Acceptance.FromTokensCharacterised | PS3/Formula/Formula.cs:101-210 | The token array is accepted exactly when it meets all of these: it is non-empty, it opens and closes with an operand, every position meets its follow rule, and the totals agree. The result is the canonical tokens with their variable set. |
| Acceptance.BuildCharacterised | PS3/Formula/Formula.cs:90-211 | `new Formula(text, N, V)` succeeds exactly when the text is non-empty and its tokens are acceptable. On success it builds the canonical tokens and exactly their variables. |
| Acceptance.CanonicalCounts | PS3/Formula/Formula.cs:152-210 | The canonical tokens hold as many `(` and `)` as the loop counted. |
| Acceptance.CanonicalFromOk | PS3/Formula/Formula.cs:134-201 | Accepted positions give canonical tokens with these properties: numbers are non-negative, variables are well-shaped and valid, and `(` or an operator is followed by an operand start. |
| Acceptance.BuiltIsAdmitted | PS3/Formula/Formula.cs:90-211 | Every built formula opens and closes with an operand and keeps the follow rules after `(` and operators. Its parentheses balance in total, its numbers are non-negative, and every variable is well-shaped and accepted by `isValid`. |
| Evaluator.Advance | PS3/Formula/Formula.cs:274-495 | One iteration of the `foreach` over a token computes the machine step `Step`: the new stacks, or the outcome returned. |
| Evaluator.ExecAppend | PS3/Formula/Formula.cs:274 | Running over `a + b` is running over `a`, then over `b`. |
| Evaluator.StopsWithError | PS3/Formula/Formula.cs:284-495 | Inside the loop, evaluation only ever stops with a FormulaError. |
| Evaluator.StepStopsWithError | PS3/Formula/Formula.cs:284-495 | A single token only ever stops the machine with a FormulaError. |
| Evaluator.ExecUsesVariables | PS3/Formula/Formula.cs:326-335 | The run depends on `lookup` only at the formula's variables. |
| Reference.ExprRun | PS3/Formula/Formula.cs:376-408 | A sum run from an open context leaves pending `+`/`-` entries that settle to the expression's reference value, or stops with its reference error. |
| Reference.TermRun | PS3/Formula/Formula.cs:409-416 | A product leaves exactly its value on the value stack, or stops with its reference error. |
| Reference.FactorRun | PS3/Formula/Formula.cs:284-375 | A number, a variable or a group leaves exactly its value, or stops with its reference error. |
| Reference.FactorRunAfterMulDiv | PS3/Formula/Formula.cs:284-325 | An operand after `*` or `/` is applied at once. A zero divisor is the divide-by-zero error. |
| Reference.GroupRun | PS3/Formula/Formula.cs:417-491 | A parenthesised expression runs its inner expression over a `(` marker. |
| Reference.CloseGroup | PS3/Formula/Formula.cs:421-491 | `)` folds the pending sum, pops `(` and applies a waiting `*` or `/`. As written, after a bare `(` it does not. |
| Reference.EvaluationMatchesReference | PS3/Formula/Formula.cs:263-536 | Evaluating the tokens of an expression gives its precedence-respecting reference value or error. The expression must avoid the bare-`(` quirk unless the variant is repaired. |
| Safety.StepSafe | PS3/Formula/Formula.cs:274-495 | Each step keeps the stack invariant that rules out popping an empty stack. |
| Safety.PrefixSafe | PS3/Formula/Formula.cs:274-495 | The stack invariant holds after every prefix of a structured token sequence. |
| Safety.EvaluationNeverThrows | PS3/Formula/Formula.cs:498-535 | On a structured token sequence the final handling never pops an empty stack. |
| Resplit.PiecesCharacterised | PS3/Formula/Formula.cs:270-271 | The split pieces concatenate back to the text. Each piece is a delimiter or a delimiter-free run. No two runs are adjacent. |
| Resplit.PiecesOfConcat | PS3/Formula/Formula.cs:271 | Splitting the concatenation of such pieces gives them back. |
| Resplit.LexCanonical | PS3/Formula/Formula.cs:274-495 | A piece is read as the constructor reads the same token. A token the constructor takes for a variable is unknown to `Evaluate` when it lacks variable shape. |
| Resplit.LexAll | PS3/Formula/Formula.cs:274-495 | The pieces are read up to the first unknown symbol. The run is complete exactly when every piece is read. |
| Resplit.ReadPiece | PS3/Formula/Formula.cs:274-495 | Reading one piece gives its token and adds to the variable set what `isAVariable` touches. |
| Resplit.RunPieces | PS3/Formula/Formula.cs:274-535 | The loop over the pieces computes `PiecesEvaluation`. It only adds pieces starting with a letter or `_` to the variable set. |
| Resplit.Evaluate | PS3/Formula/Formula.cs:263-536 | `Evaluate` computes the evaluation of the re-split `ToString` text. The variable set grows at most by that text's named pieces. |
| Resplit.SeparatedEvaluation | PS3/Formula/Formula.cs:263-536 | If no operand directly follows another, the re-split text evaluates exactly as the stored tokens do. Its named pieces are the variables. |
| Resplit.SeparatedEvaluate | PS3/Formula/Formula.cs:263-536 | With the follow rule after a variable, `Evaluate` equals the token evaluation. Its value depends on `lookup` only at `GetVariables()`. |
| Resplit.MergedVariables | PS3/Formula/Formula.cs:270-271 | `x y` is built as two variables, but its text is the single piece `xy`. `xy` is evaluated as an undefined variable. |
| TextSafety.GroupConcat | PS3/Formula/Formula.cs:271 | Joining adjacent runs keeps the text. |
| TextSafety.PiecesOfPieces | PS3/Formula/Formula.cs:271 | Re-splitting the joined token texts gives the token texts with adjacent runs joined. |
| TextSafety.FuseStructured | PS3/Formula/Formula.cs:90-211 | Fusing adjacent operands keeps the structure the constructor guarantees. |
| TextSafety.EvaluateNeverThrows | PS3/Formula/Formula.cs:255-536 | On every built formula, evaluating its text never pops an empty stack. |
| Views.FormulaString | PS3/Formula/Formula.cs:149-203 | The formula string has no whitespace when no token text has any. |
| Views.ToString | PS3/Formula/Formula.cs:555-568 | `ToString` neither starts nor ends with whitespace. When no token text holds whitespace it is exactly the formula string and holds none. |
| Views.GetHashCode | PS3/Formula/Formula.cs:669-674 | The hash is the string hash of `ToString`'s text. |
| Views.GetVariables | PS3/Formula/Formula.cs:540-553 | The enumeration holds exactly the names of the variable tokens, each once. |
| Views.CompareTokens | PS3/Formula/Formula.cs:603-625 | The index loop computes `EqualsFrom`. |
| Views.Equals | PS3/Formula/Formula.cs:570-626 | `Equals` is false for null and for non-Formula objects. Otherwise it is the loop over the tokens of both `ToString` texts. |
| Views.EqualOp | PS3/Formula/Formula.cs:626-645 | `==` is true for two nulls and false for exactly one null. |
| Views.NotEqualOp | PS3/Formula/Formula.cs:647-666 | `!=` is false for two nulls and true for exactly one null. |
| Views.OperatorsAgree | PS3/Formula/Formula.cs:626-666 | `!=` is always the negation of `==`. On two formulas `==` is `Equals`. |
| Views.EqualsFromCharacterised | PS3/Formula/Formula.cs:603-625 | The loop answers true exactly when the first array is no longer and matches the second position by position. It throws exactly when the second array is shorter and matches up to its end. |
| Views.SameTokenEquivalence | PS3/Formula/Formula.cs:606-620 | Token equality, with numbers compared by value, is an equivalence. |
| Views.TokensMatchEquivalence | PS3/Formula/Formula.cs:570-580 | Equality with the length check is reflexive, symmetric and transitive. |
| Views.EqualsFromAgrees | PS3/Formula/Formula.cs:570-625 | On arrays of equal length the loop decides, and it answers true exactly when the documented comparison does. |
| Views.HashConsistent | PS3/Formula/Formula.cs:667-674 | Equal formulas under the documented comparison have equal hash codes. The numbers must be written alike and no token text may hold whitespace. |
| Views.MatchingTextsAreEqual | PS3/Formula/Formula.cs:570-580 | Two whitespace-free texts whose tokens match, with equal numbers written alike, are the same text. |
| Views.SameTokensAreEqual | PS3/Formula/Formula.cs:565-674 | Formulas with the same tokens have the same text and hash, and are equal. |
| Views.SameTextsAreEqual | PS3/Formula/Formula.cs:570-626 | Formulas with the same `ToString` are equal, as written and as documented. |
| RoundTrip.Texts | PS3/Formula/Formula.cs:149-203 | The formula string is made of one text per token, in order. |
| RoundTrip.FormulaStringIsConcat | PS3/Formula/Formula.cs:149-203 | The formula string is the concatenation of the token texts. |
| RoundTrip.ScanTexts | PS3/Formula/Formula.cs:682-705 | Re-tokenizing the concatenated texts of well-written, separated tokens gives back exactly those texts. |
| RoundTrip.TextsAcceptable | PS3/Formula/Formula.cs:90-211 | The texts of readable tokens pass every check of the constructor. They normalise back to the same tokens. |
| RoundTrip.RoundTripBuild | PS3/Formula/Formula.cs:555-568 | Handing `ToString` back to the constructor rebuilds the same tokens and variables. |
| RoundTrip.DefaultBuiltIsReadable | PS3/Formula/Formula.cs:62-66 | A formula built by the one-argument constructor keeps the follow rules, has variable-shaped names and a consistent variable set. |
| RoundTrip.ToStringRoundTrip | PS3/Formula/Formula.cs:555-568 | For a separated formula, `ToString` builds back the same formula. That formula is `Equals` to the original, as written and as documented, and has the same hash. |
| RoundTrip.SeparatedRoundTrip | PS3/Formula/Formula.cs:555-568 | With the follow rule after a variable, every built formula's text builds the same formula, and `Equals` finds the two equal. |
| RoundTrip.RejectsAdjacent | PS3/Formula/Formula.cs:127-204 | The constructor with the added rule rejects every built formula that has an operand directly after an operand. |
| RoundTrip.WrittenNumerals | PS3/Formula/Formula.cs:576-579 | In the texts of two formulas whose numbers `render` writes as literals, numerals of equal value at the same position are the same text. |
| RoundTrip.EqualsImpliesSameHash | PS3/Formula/Formula.cs:667-674 | Two formulas in which no operand directly follows another, with numbers written as literals, that the comparison with the length check finds equal have equal hash codes. No hypothesis about the re-tokenised texts is left. |
| RoundTrip.SeparatedHash | PS3/Formula/Formula.cs:667-674 | Every two formulas built with the follow rule, whose numbers `render` writes as literals, have equal hash codes when the comparison with the length check finds them equal. |
| RoundTrip.VariablesMergeInText | PS3/Formula/Formula.cs:192-204 | `x y` builds the variables `x` and `y`, but its text is `xy`, which builds one variable `xy`. Only the variable set changes: `Equals` still finds the two equal. |
| RoundTrip.NumeralMergesInText | PS3/Formula/Formula.cs:555-558 | As written, `x 2.5` builds `x` and 2.5, but its text `x2.5` builds `x2` and 0.5, whose text is `x20.5`. `Equals` finds the original and the rebuilt formula different, so `ToString`'s promise fails. The constructor with the follow rule rejects `x 2.5`. |
| Views.EqualsIgnoresLength | PS3/Formula/Formula.cs:598-625 | `x` equals `x+y` as written. With the arguments swapped, the loop runs past the end of the shorter array. The documented comparison tells them apart. |
| Examples.PlusThenTimes | PS3/FormulaTests/FormulaTester.cs:158-159 | The tokens of `2+6*3` evaluate to 20. |
| Examples.TimesThenPlus | PS3/FormulaTests/FormulaTester.cs:151-152 | The tokens of `2*6+3` evaluate to 15. |
| Examples.GroupThenTimes | PS3/FormulaTests/FormulaTester.cs:165-166 | The tokens of `(2+6)*3` evaluate to 24. |
| Examples.TimesGroup | PS3/FormulaTests/FormulaTester.cs:172-173 | The tokens of `2*(3+5)` evaluate to 16. |
| Examples.PlusGroup | PS3/FormulaTests/FormulaTester.cs:179-180 | The tokens of `2+(3+5)` evaluate to 10. |
| Examples.GroupMinusQuotient | PS3/FormulaTests/FormulaTester.cs:193-194 | The tokens of `(1*1)-2/2` evaluate to 0. |
| Examples.PlusTimesGroup | PS3/FormulaTests/FormulaTester.cs:200-201 | The tokens of `2+3*(3+5)` evaluate to 26. |
| Examples.DefinedExample | PS3/FormulaTests/FormulaTester.cs:136-137 | The tokens of `2+X1`, with `X1` bound to 4, evaluate to 6. |
| Examples.DefinedFromText | PS3/FormulaTests/FormulaTester.cs:136-137 | End to end: the text `2+X1` builds the number 2, `+` and the variable `X1`. Its `ToString` is `2+X1`, and that text, split and evaluated as `Evaluate` does with `X1` bound to 4, gives 6. |
| Examples.UndefinedExample | PS3/FormulaTests/FormulaTester.cs:144-145 | The tokens of `2+X1`, with `X1` undefined, give the undefined-variable FormulaError. |
| Examples.Quotient | PS3/FormulaTests/FormulaTester.cs:129-130 | The tokens of `16/2` evaluate to 8. |
| Examples.PlusGroupTimes | PS3/FormulaTests/FormulaTester.cs:186-187 | The tokens of `2+(3+5*9)` evaluate to 50. |
| Examples.DivideByZeroExample | PS3/FormulaTests/FormulaTester.cs:215-216 | The tokens of `5/0` give the divide-by-zero FormulaError. |
| Examples.BareGroupExample | PS3/Formula/Formula.cs:486-489 | `2*(3)` evaluates to 6 when repaired. As written it leaves `*` pending and returns the `int` 0 (`IntZero`), not a `double`. |
| Examples.BareGroupAsWritten | PS3/Formula/Formula.cs:520-535 | As written, `2*(3)` ends with `*` over two values and reaches the final `return 0`: the `int` 0 (`IntZero`), not a `double`. |
| Examples.EmptyAndOperatorRejected | PS3/Formula/Formula.cs:93-110 | As the tests for `""` and `+` expect, the empty text is rejected as empty, and `+` is rejected as an invalid first token. |

## Left out

- Double arithmetic: numbers are exact reals. Rounding, overflow to infinity, NaN and `double.Equals` on those are not modelled.
- `Double.TryParse` is replaced by the tokenizer's double-literal grammar with an optional sign. Culture settings, surrounding whitespace, thousands separators and the `Infinity`/`NaN` spellings are not modelled. The character test `Double.TryParse(letter)` inside `isAVariable` is read as "is a decimal digit".
- `double.ToString` is the parameter `render`. Lemmas about the text assume it writes an unsigned literal that reads back as the same value (`RoundTrip.Renders`).
- The .NET regular expression engine: `GetTokens` and the split in `Evaluate` are explicit scanners over the same patterns and delimiters. Unicode letter and digit classes are reduced to ASCII letters, ASCII digits and ASCII whitespace.
- A `lookup` that throws is modelled as `lookup` returning `None`. Nothing else a throwing delegate could do is modelled.
- `String.GetHashCode` is the parameter `hash`. Only its consistency with the text is proved, not its value or its spread.
- `null` arguments: a `null` text is not modelled, and only the empty text is. The null checks of `==` and `!=` are modelled with `Option`.
- In-place update: `Evaluate` trims the formula string in place before splitting it. The model computes the trimmed text as a value, and the stored string is the trimmed one from then on. The model does not show the mutation.
- `ToString` and `Evaluate` read only the formula string, so storing the canonical tokens beside it changes nothing observable.
- TextSafety.EvaluateNeverThrows: proved only when `render` writes numbers without a sign or exponent sign (`Resplit.Resplittable`). A rendered `-` or `+` would be split as an operator.
- Resplit.SeparatedEvaluation: same restriction on `render`.
- Resplit.SeparatedEvaluate: same restriction on `render`.
- Views.HashConsistent: keeps as a hypothesis that numerals of equal value in the two texts are written alike. The hypothesis is discharged for formulas in which no operand directly follows another (`RoundTrip.EqualsImpliesSameHash`, `RoundTrip.SeparatedHash`). For a formula with adjacent operands, such as `x 2.5`, it stays a hypothesis.
- Resplit.Evaluate: the variable set is bounded from above and below, not computed exactly.
- Examples: the construction tests with longer texts (`2+5+`, `2+5*7)`, `5+7+(5)8`) and the evaluation of `2+3*5+(3+4*8)*5+2` are not worked out as separate lemmas. These are the ending, balance and follow rules, and precedence. Each is covered for every text by `Acceptance.BuildCharacterised` and `Reference.EvaluationMatchesReference`.
- The test harness `PS3/FormulaTests/FormulaTester.cs` is not part of this model. Its evaluation values appear as the `Examples` lemmas. The tests that contradict the code are followed by the code: exceptions expected where a FormulaError is returned, the variable `xx` rejected, and counts compared to sets.
- `FormulaFormatException` and `FormulaError` are reduced to the reasons they carry (`Validator.FormatFault`, `Evaluator.Reason`). The message strings are not modelled.

## Findings

| source | as written | input that shows it | evidently intended | confidence | as-written member | corrected member |
|---|---|---|---|---|---|---|
| PS3/Formula/Formula.cs:604 | `Equals` loops over the first formula's tokens only | `x` against `x+y` is true; `x+y` against `x` indexes past the end | same number of tokens, matching in order (lines 574-575) | not executed | Views.EqualsIgnoresLength | Views.EqualsFromAgrees |
| PS3/Formula/Formula.cs:484-489 | `)` over a bare `(` pops it without applying a pending `*` or `/` | `2*(3)` returns the `int` 0 | `2*(3)` evaluates to 6, as every other group does | not executed | Examples.BareGroupAsWritten | Reference.EvaluationMatchesReference |
| PS3/Formula/Formula.cs:192-204 | no follow rule after a variable, while the formula string has no separators | `x 2.5` is built as `x`,`2.5`; `ToString` gives `x2.5`, built back as `x2`,`.5` with text `x20.5`, and `Equals` between the two is false | an operand is never directly followed by another, so `ToString` builds back an equal formula (lines 555-558) | not executed | RoundTrip.NumeralMergesInText | RoundTrip.SeparatedRoundTrip |
