# math-mcp-server calculator core in Dafny

math-mcp-server exposes a small calculator to remote callers. Its core is
`src/math_functions.py`:

- the arithmetic operations `add`, `subtract`, `multiply` and `divide`;
- the domain-checked operations `sqrt`, `log` and `factorial`;
- the expression evaluator `evaluate_expression`.

The evaluator refuses any text with a character outside `0123456789+-*/.() `.
It hands the rest to Python's `eval` and returns the result as a float. A
result that is not a number, and every exception `eval` raises, becomes an
"evaluation error".

The model is pure and uses no classes or loops, because the source has none.
It has these modules:

- `NumericOperations` (`numeric_operations.dfy`): the single-number operations
  and their domain errors.
- `Lexer` (`lexer.dfy`):
  - the allow-list;
  - Python's tokenizer restricted to those characters, except for the `...`
    token (see "Left out"): decimal literals, where `01` is refused while `00`,
    `1.` and `.5` are accepted; the one-character operators; and `//` and `**`;
  - a printer (`Layout`/`Render`) that the scanner inverts, and a soundness
    lemma (`ScanSound`): an accepted text, spaces left out, is its tokens' texts.
- `Parser` (`parser.dfy`): Python's expression grammar over those tokens:
  - a sum of terms, each a product of factors;
  - unary `+` and `-`;
  - parenthesised sums, and `()` as the empty tuple;
  - a printer `Unparse` with minimal parentheses, which the parser inverts.
- `Evaluator` (`evaluator.dfy`): Python's semantics for the values this grammar
  can produce:
  - int, float and the empty tuple;
  - true division always gives a float;
  - `//` is the floor of the exact quotient;
  - operands are evaluated left to right and the first error wins;
  - `() + ()` and `() * n` or `n * ()` for an int n give a tuple, whatever the
    size of n (see "Left out"); anything else applied to `()` is a `TypeError`;
  - `Evaluate` is the whole of `evaluate_expression`.
- `Scenarios` (`scenarios.dfy`): the documented examples, each proved from the
  text to the reported outcome.
- `Options` (`options.dfy`): the option type.

Numbers are exact `real`s and integers are unbounded. The host's `math.sqrt` and
`math.log` are function parameters. Where a property needs them to be a true
square root or logarithm, the lemma says so in its `requires`.

The evaluator hands the text to Python's `eval`. Besides `+ - * /` and
parentheses, Python's `eval` accepts `//`, `**` and `()`. The model accepts `//`
and `()` and refuses `**` (see "Left out"). The source reports every failure
inside the `try` as one `ValueError`, so the model has two error outcomes:

- one `InvalidCharacter` outcome for the allow-list;
- one `EvalError` outcome for everything raised inside the `try`.

`EvalError` carries a cause: `Syntax`, `ZeroDivision`, `UnsupportedOperand`
(Python's `TypeError`) or `NotANumber`.

## Model

| member | source | states |
|---|---|---|
| NumericOperations.Add | src/math_functions.py:8-18 | add returns the number from which taking away either argument leaves the other |
| NumericOperations.Subtract | src/math_functions.py:21-31 | subtract returns the number that gives back a when b is added, and is zero exactly when a == b |
| NumericOperations.Multiply | src/math_functions.py:34-44 | multiply returns zero exactly when a factor is zero; otherwise dividing the product by either factor gives the other |
| NumericOperations.SubtractUndoesAdd | src/math_functions.py:8-31 | subtracting b undoes adding b, and adding b undoes subtracting it |
| NumericOperations.Commutative | src/math_functions.py:8-44 | add and multiply do not depend on the order of their arguments |
| NumericOperations.Divide | src/math_functions.py:47-62 | division fails exactly when b == 0, with the zero-divisor error; otherwise quotient * b == a |
| NumericOperations.DivideUndoesMultiply | src/math_functions.py:60-62 | for b != 0, divide(a * b, b) returns a |
| NumericOperations.DivideExamples | tests/test_math_functions.py:43-50 | divide(15, 3) == 5, divide(10, 4) == 2.5 and divide(-6, 2) == -3; divide(10, 0) is refused |
| NumericOperations.Sqrt | src/math_functions.py:78-92 | sqrt fails exactly on negative x, with the negative-radicand error; otherwise it returns the host's root of x |
| NumericOperations.SqrtIsRoot | src/math_functions.py:90-92 | with a true square root as host, an accepted x gets a non-negative r with r * r == x |
| NumericOperations.SquareRootUnique | src/math_functions.py:92 | two non-negative numbers with the same square are equal, so the root in SqrtIsRoot is the only one |
| NumericOperations.SqrtExamples | tests/test_math_functions.py:61-68 | sqrt(16) == 4, sqrt(0) == 0 and sqrt(2) lies strictly between 1.414 and 1.415 for any square root the host supplies; sqrt(-1) is refused |
| NumericOperations.ArithmeticExamples | tests/test_math_functions.py:28-41 | the add, subtract and multiply vectors, with add(0.1, 0.2) as the exact 0.3 |
| NumericOperations.Log | src/math_functions.py:131-149 | log fails exactly when x <= 0 or the base is <= 0 or == 1; the x check comes first, so its error wins; otherwise result * ln(base) == ln(x), and with the default base the result is ln(x) |
| NumericOperations.LogOfBase | src/math_functions.py:144-149 | every valid base b has log(b, b) == 1 |
| NumericOperations.LogOfProduct | src/math_functions.py:144-149 | with a true logarithm as host, log(x * y) == log(x) + log(y) to any valid base |
| NumericOperations.LogExamples | tests/test_math_functions.py:77-80 | with a true logarithm, log(100, 10) == 2 and log(8, 2) == 3 |
| NumericOperations.LogErrorExamples | tests/test_math_functions.py:82-88 | log(-1) is refused for its argument; log(10, 1) and log(10, -1) are refused for their base |
| NumericOperations.Fact | src/math_functions.py:166 | n! is at least 1 |
| NumericOperations.Factorial | src/math_functions.py:152-166 | factorial fails exactly on negative n, with its own error; otherwise it returns n! |
| NumericOperations.FactDivisible | src/math_functions.py:166 | n! is a multiple of every k with 1 <= k <= n |
| NumericOperations.FactMonotone | src/math_functions.py:166 | m <= n implies m! <= n! |
| NumericOperations.FactorialRecurrence | src/math_functions.py:164-166 | factorial(0) is 1, and factorial(n) is n times factorial(n - 1) for every n > 0 |
| NumericOperations.FactorialExamples | tests/test_math_functions.py:90-98 | 0! == 1, 1! == 1, 5! == 120 and 10! == 3628800; -1 is refused |
| Lexer.AllowList | src/math_functions.py:182 | the allow-list holds exactly the characters of the string `0123456789+-*/.() ` |
| Lexer.AllowedConcat | src/math_functions.py:183-184 | AllAllowed is a per-character check: a concatenation passes exactly when both of its parts pass |
| Lexer.NumeralScaled | src/math_functions.py:187 | a literal's value (NumeralValue) is its digits read without the point, divided by ten to the number of fraction digits, as Python reads a decimal literal |
| Lexer.DigitsValueBound | src/math_functions.py:187 | a digit run of length k denotes a number below 10^k |
| Lexer.NumeralValueFloor | src/math_functions.py:187 | a literal's value is non-negative, and its integer part is the value of its digits before the point |
| Lexer.DigitsEnd | src/math_functions.py:187 | the scanner's digit run from i is maximal: all digits up to j, and no digit at j |
| Lexer.ScanValid | src/math_functions.py:187 | every literal the scanner produces is a valid Python decimal literal (no leading zero in a non-zero int, not a lone point) |
| Lexer.ScanAllowed | src/math_functions.py:182-187 | the scanner (Scan) succeeds only on text whose every character is on the allow-list |
| Lexer.Tokenize | src/math_functions.py:187 | a tokenized text passes the allow-list, yields only valid literals, and with its spaces left out is exactly the tokens' texts in order; ScanLayout and TokenizeLayout show that it undoes printing |
| Lexer.ScanSound | src/math_functions.py:187 | the scanner is sound: whatever it accepts, the text with its spaces left out is the concatenation of the returned tokens' texts, so nothing is dropped or invented and a literal keeps the digits and point it was written with |
| Lexer.SkipSpaces | src/math_functions.py:187 | a run of spaces of any length, leading or between tokens, is skipped by the scanner |
| Lexer.LayoutAllowed | src/math_functions.py:182-184 | any layout of valid tokens uses only allow-listed characters |
| Lexer.TokenizeLayout | src/math_functions.py:187 | scanning a layout of valid tokens gives back exactly those tokens, wherever the left-out spaces glue no two tokens together |
| Lexer.TokenizeRender | src/math_functions.py:187 | scanning the fully spaced rendering of valid tokens gives back exactly those tokens |
| Lexer.TokenizeWellLaidOut | src/math_functions.py:182-187 | text laid out token by token passes the allow-list and scans back to its tokens |
| Parser.Parse | src/math_functions.py:187 | a token list parses only when it is not empty and begins with a literal, a sign or `(`; ParseShape states what else it refuses, ParseUnparse that every printed tree parses back to itself |
| Parser.ParseShape | src/math_functions.py:187 | every accepted token list is well formed: it begins with an operand and ends with a literal or `)`, its parentheses balance, and each adjacent pair may follow each other (no two operands side by side, no operator before `)` or at the end); so an unclosed `(`, a trailing operator and leftover tokens are refused |
| Parser.ParseTerm | src/math_functions.py:187 | a term ends strictly after its start and within the input; its grouping is fixed by MultiplicativeBindsTighter and LeftAssociative |
| Parser.ParseSumRest | src/math_functions.py:187 | the additive tail of a sum ends no earlier than it starts and within the input; LeftAssociative fixes that it folds to the left |
| Parser.ParseTermRest | src/math_functions.py:187 | the multiplicative tail of a term ends no earlier than it starts and within the input; LeftAssociative fixes that it folds to the left |
| Parser.ParseSum | src/math_functions.py:187 | a parse reports an end position strictly after its start and within the input |
| Parser.ParseFactor | src/math_functions.py:187 | a factor, signed or not, consumes at least one token and stays within the input |
| Parser.ParseAtom | src/math_functions.py:187 | a literal, `()` or a parenthesised sum consumes at least one token and stays within the input; AtomShape states that what it consumes is well formed, a `(` only together with its `)` |
| Parser.AtomShape | src/math_functions.py:187 | the tokens an accepted atom consumes are well formed: a literal, `()`, or `(` and `)` around a well-formed sum |
| Parser.SumShape | src/math_functions.py:187 | the tokens an accepted sum consumes are well formed; with TermShape, FactorShape and the two Rest lemmas it follows the grammar rule by rule |
| Parser.ParseUnparse | src/math_functions.py:187 | parsing the minimally parenthesised printing of any tree gives back that tree, which fixes the precedence and the associativity of every operator |
| Parser.SumTokensValid | src/math_functions.py:187 | printing a tree with valid literals gives only valid tokens |
| Parser.SingleOperator | src/math_functions.py:187 | `a op b` parses as one operation on the two literals, for each of `+ - * / //` |
| Parser.MultiplicativeBindsTighter | src/math_functions.py:187 | `a + b * c` parses as a + (b * c), and `a * b + c` as (a * b) + c, for any additive and multiplicative operator |
| Parser.LeftAssociative | src/math_functions.py:187 | two operators of one level group to the left: `a - b + c` is (a - b) + c |
| Parser.ParenthesesFirst | src/math_functions.py:187 | `(a + b) * c` multiplies the parenthesised sum |
| Evaluator.LiteralValue | src/math_functions.py:187 | a literal is an int exactly when it has no point; its value is the literal's exact decimal value |
| Evaluator.FloorQuotient | src/math_functions.py:187 | `//` on numbers gives the greatest integer q with q <= a / b |
| Evaluator.ApplyUnary | src/math_functions.py:187 | unary minus negates and unary plus keeps the value, and an int stays an int; a sign on `()` is a TypeError |
| Evaluator.SumValue | src/math_functions.py:187 | `a + b` on numbers has the value of the exact sum, and is an int exactly when both operands are |
| Evaluator.DifferenceValue | src/math_functions.py:187 | `a - b` on numbers has the value of the exact difference, and is an int exactly when both operands are |
| Evaluator.ProductValue | src/math_functions.py:187 | `a * b` on numbers has the value of the exact product, and is an int exactly when both operands are |
| Evaluator.FloorQuotientValue | src/math_functions.py:187 | `a // b` for a non-zero b has the value of the floor of the exact quotient, and is an int exactly when both operands are |
| Evaluator.ApplyNumbers | src/math_functions.py:187 | on numbers, only `/` and `//` by zero raise, and they raise ZeroDivisionError; otherwise the value is the exact sum, difference, product, quotient or floored quotient, and it is an int exactly when both operands are ints and the operator is not `/` |
| Evaluator.ApplyBinary | src/math_functions.py:187 | on two numbers it is the numeric operation; otherwise the result is the empty tuple exactly for `() + ()`, `() * int` and `int * ()`, and every other case raises a TypeError |
| Evaluator.Report | src/math_functions.py:188-193 | a number is returned as a float; a non-number result becomes an evaluation error, and so does every raised error, with its cause |
| Evaluator.Evaluate | src/math_functions.py:169-193 | a text is refused as having an invalid character exactly when one of its characters is off the allow-list |
| Evaluator.FirstErrorWins | src/math_functions.py:187-193 | Eval's order, shown on three trees: `() + 1 / 0` raises ZeroDivisionError and `(() + 1) / 0` raises TypeError, so operands are evaluated before their operator; `(() + 1) + 1 / 0` raises TypeError, so the left operand is evaluated before the right one; the first error raised wins |
| Evaluator.RaisedPropagates | src/math_functions.py:186-193 | Eval gives no partial result: an error raised by any subexpression is raised by the whole expression |
| Evaluator.DivisionByZeroRaises | src/math_functions.py:186-187 | a `/` or `//` whose divisor evaluates to zero raises, and it raises ZeroDivisionError when the dividend is a number |
| Evaluator.ZeroDivisorIsError | src/math_functions.py:186-193 | a division by a zero divisor anywhere in the expression makes the calculator report an evaluation error, never a number |
| Evaluator.EvalNeverSyntax | src/math_functions.py:186-193 | evaluation of a parsed tree never raises a syntax error: those come only from the tokenizer and the parser |
| Evaluator.TupleFreeIsNumeric | src/math_functions.py:187-189 | without `()`, evaluation of arithmetic gives a number, and its only possible error is a division by zero |
| Evaluator.IntegerOnlyIsInt | src/math_functions.py:187-189 | integer literals combined by `+ - * //` give an int |
| Evaluator.EmptyTupleResult | src/math_functions.py:188-191 | only a tree that contains `()` can evaluate to the empty tuple, the calculator's "not a number" case |
| Evaluator.FloorDivisionOfInts | src/math_functions.py:187 | int `//` rounds toward negative infinity: the remainder lies between 0 and the divisor and has the divisor's sign |
| Evaluator.AgreesWithNumericOperations | src/math_functions.py:18-62 | on floats, the evaluator's `+ - * /` agree with add, subtract, multiply and divide, including divide's zero-divisor refusal |
| Evaluator.EvaluatePrinted | src/math_functions.py:169-193 | feeding the printing of any tree with valid literals to the calculator gives exactly that tree's evaluation, and never a syntax error |
| Evaluator.EvaluateLaidOut | src/math_functions.py:169-193 | any well laid out text of a token list that parses to a tree is reported as that tree's evaluation |
| Scenarios.TwoPlusThree | tests/test_math_functions.py:105 | evaluate_expression("2 + 3") == 5 |
| Scenarios.TenMinusFour | tests/test_math_functions.py:106 | evaluate_expression("10 - 4") == 6 |
| Scenarios.ThreeTimesSeven | tests/test_math_functions.py:107 | evaluate_expression("3 * 7") == 21 |
| Scenarios.FifteenOverThree | tests/test_math_functions.py:108 | evaluate_expression("15 / 3") == 5 |
| Scenarios.FifteenOverThreeTree | tests/test_math_functions.py:108 | `15 / 3` parses as one division and evaluates to the float 5.0 |
| Scenarios.ProductInSum | tests/test_math_functions.py:111 | evaluate_expression("2 + 3 * 4") == 14 |
| Scenarios.ParenthesisedSum | tests/test_math_functions.py:112 | evaluate_expression("(2 + 3) * 4") == 20 |
| Scenarios.QuotientInSum | tests/test_math_functions.py:113 | evaluate_expression("10 / 2 + 3") == 8 |
| Scenarios.DecimalTimesFour | tests/test_math_functions.py:114 | evaluate_expression("2.5 * 4") == 10 |
| Scenarios.ForbiddenCharacters | tests/test_math_functions.py:117-120 | "import os" and "2 + a" are refused for an invalid character |
| Scenarios.TwoOverZero | tests/test_math_functions.py:121-122 | "2 / 0" is an evaluation error caused by the division by zero |
| Scenarios.ParenthesisedSumTokens | src/math_functions.py:182-187 | "(2 + 3) * 4" passes the allow-list and scans to its seven tokens |
| Scenarios.FloorOfNegativeQuotient | src/math_functions.py:187 | "7 // -2" evaluates to -4, the int floor of -3.5 |
| Scenarios.EmptyParentheses | src/math_functions.py:188-191 | "()" is the empty tuple, so it is reported as not a number |
| Scenarios.TupleOperand | src/math_functions.py:187-193 | "() + 1" is Python's TypeError, reported as an evaluation error |
| Scenarios.EmptyText | src/math_functions.py:186-193 | the empty text passes the allow-list and is an evaluation error caused by a syntax error |
| Scenarios.LeadingZero | src/math_functions.py:186-193 | "01" is an evaluation error caused by a syntax error, as Python refuses leading zeros |
| Scenarios.UnclosedParenthesis | src/math_functions.py:186-193 | "(2 + 3" passes the allow-list and is an evaluation error caused by a syntax error: the `(` is never closed |
| Scenarios.TrailingOperator | src/math_functions.py:186-193 | "2 +" is an evaluation error caused by a syntax error: the operator has no right operand |
| Scenarios.AdjacentOperands | src/math_functions.py:186-193 | "2 3" is an evaluation error caused by a syntax error: two operands side by side |
| Scenarios.OnlySpaces | src/math_functions.py:186-193 | "   " passes the allow-list and is an evaluation error caused by a syntax error, like the empty text |
| Scenarios.LonePoint | src/math_functions.py:186-193 | "." is an evaluation error caused by a syntax error: a point with no digit is not a literal |
| Scenarios.LeadingZeros | src/math_functions.py:186-193 | "007" is an evaluation error caused by a syntax error, as Python refuses leading zeros |
| Scenarios.LeadingSpace | src/math_functions.py:186-193 | " 2" returns 2: a leading space is insignificant |
| Scenarios.WideSpacing | src/math_functions.py:186-193 | "2  +  3" returns 5: runs of spaces between tokens are insignificant |

## Left out

- `power`, `sin`, `cos` and `tan` are not modelled. Their only behaviour is the
  host's floating-point function, and they have no domain check.
- Floating point is not modelled: numbers are exact reals, so rounding, `inf`,
  `nan` and float overflow are out of scope. That includes the `OverflowError`
  that `float()` raises for an int beyond the float range, and the one a true
  division of very large ints raises. Of the test vectors that compare floats
  approximately, `add(0.1, 0.2)` is stated as the exact `0.3`
  (NumericOperations.ArithmeticExamples) and `sqrt(2)` as a root strictly between
  1.414 and 1.415 (NumericOperations.SqrtExamples). `log(math.e)` and the
  trigonometric tests are not modelled: `e` is not an exact real, and the
  trigonometric functions are left out.
- NumericOperations.Sqrt and NumericOperations.Log take the host's square root
  and logarithm as parameters. Their values are only as good as the
  `IsSquareRoot`/`IsLogarithm` assumptions the value lemmas state.
- NumericOperations.Log: the default base `math.e` is the `None` base, and the
  value is then `ln(x)` itself, which assumes `ln(e) == 1`. Log requires the host
  logarithm to vanish only at 1; otherwise the source's division by `math.log(base)`
  could divide by zero.
- NumericOperations.Factorial takes an `int`. A float argument, which
  `math.factorial` refuses with a `TypeError`, cannot occur in the model.
- `**` is scanned as one token, but the model's grammar has no power rule, so
  `2 ** 3` is an evaluation error (`Syntax`) where Python computes 8. Powers
  would need floating point for negative and fractional exponents.
- Any operand followed by `(`, such as `(1)(2)`, `()()`, `2(3)` or `2()`, is a
  call in Python's grammar and fails at run time with a `TypeError`. The model
  has no call syntax and reports it as `Syntax`. Both are the same evaluation
  error in the source; only the cause differs.
- Python's tokenizer reads `...` as the Ellipsis token. `eval("...")` gives
  Ellipsis, which the source reports as not a number, and any operator applied
  to it is a `TypeError`. The model has no such token: the scanner refuses a
  point with no digit before or after it, so these texts are evaluation errors
  with the cause `Syntax`. The outcome is the same evaluation error;
  only the cause differs.
- Evaluator.ApplyBinary: `() * n` and `n * ()` give the empty tuple for every
  int n. Python raises `OverflowError` when n does not fit in an index-sized
  integer (n of 2^63 or more, or below -2^63, on a 64-bit host). Both are evaluation errors in
  the source (the empty tuple is not a number); the model gives the cause
  `NotANumber` instead of the overflow's.
- Lexer.Scan accepts integer literals of any length. Python refuses an integer
  literal of more than 4300 digits with a `SyntaxError` (the limit on
  conversions between strings and ints). With such a literal the source
  reports an evaluation error where the model can return a number, as in
  `N // N` for a 5000-digit N.
- The causes `Syntax`, `ZeroDivision`, `UnsupportedOperand` and `NotANumber`
  refine the source's single `ValueError`. The message texts, including the
  wrapped exception text, are not modelled.
- Python's limits on nesting depth are not modelled: the model accepts any
  depth. Python 3.10 and later refuse more than 200 nested parentheses with the
  `SyntaxError` "too many nested parentheses", and a very deep nesting of other
  kinds (a long run of unary signs, say) exceeds the parser's or the compiler's
  recursion limit. In the source each is an evaluation error.
- `src/main.py` (tool registration and the MCP transport) and
  `tests/test_mcp_server.py` are not part of this model.
