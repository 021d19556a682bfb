/**
  The calculator's documented examples, proved about the model end to end: from
  the text through the allow-list, the scanner, the parser and the evaluator to
  the reported outcome. Each example is four lemmas: the text is a layout of its
  tokens (Text); so it passes the allow-list and scans to them (Tokens); the
  tokens parse to a tree that evaluates to the expected value (Tree), or the
  parser refuses them (Refused); and the calculator reports that outcome (the
  example itself).
 */
module Scenarios {
  import opened Options
  import opened Lexer
  import opened Parser
  import opened Evaluator

  /** An integer literal. */
  function Int(d: string): Numeral {
    Numeral(d, false, "")
  }

  /** A literal with a decimal point. */
  function Dec(w: string, f: string): Numeral {
    Numeral(w, true, f)
  }

  lemma IntValid(d: string)
    requires (|d| == 1 && IsDigit(d[0])) || (|d| == 2 && '1' <= d[0] <= '9' && IsDigit(d[1]))
    ensures ValidNumeral(Int(d))
  {
  }

  // "2 + 3"

  lemma TwoPlusThreeText()
    ensures Layout([Number(Int("2")), Plus, Number(Int("3"))],
                   [true, true, false]) == "2 + 3"
  {
    assert Layout([Plus, Number(Int("3"))], [true, false]) == "+ 3";
  }

  lemma TwoPlusThreeTokens()
    ensures AllAllowed("2 + 3")
    ensures Tokenize("2 + 3") == Some([Number(Int("2")), Plus, Number(Int("3"))])
  {
    var ts := [Number(Int("2")), Plus, Number(Int("3"))];
    var sp := [true, true, false];
    TwoPlusThreeText();
    IntValid("2"); IntValid("3");
    assert WellLaidOut(ts, sp);
    TokenizeWellLaidOut(ts, sp);
  }

  lemma TwoPlusThreeTree()
    ensures Parse([Number(Int("2")), Plus, Number(Int("3"))]) == Some(Binary(Add, Lit(Int("2")), Lit(Int("3"))))
    ensures Eval(Binary(Add, Lit(Int("2")), Lit(Int("3")))) == Done(IntValue(5))
  {
    var e := Binary(Add, Lit(Int("2")), Lit(Int("3")));
    SingleOperator(Int("2"), Int("3"), Add);
    assert LiteralValue(Int("2")) == IntValue(2) by { assert DigitsValue("2") == 2; }
    assert LiteralValue(Int("3")) == IntValue(3) by { assert DigitsValue("3") == 3; }
  }

  /** evaluate_expression("2 + 3") == 5 */
  lemma TwoPlusThree()
    ensures Evaluate("2 + 3") == Returned(5.0)
  {
    TwoPlusThreeTokens();
    TwoPlusThreeTree();
  }

  // "10 - 4"

  lemma TenMinusFourText()
    ensures Layout([Number(Int("10")), Minus, Number(Int("4"))],
                   [true, true, false]) == "10 - 4"
  {
    assert Layout([Minus, Number(Int("4"))], [true, false]) == "- 4";
  }

  lemma TenMinusFourTokens()
    ensures AllAllowed("10 - 4")
    ensures Tokenize("10 - 4") == Some([Number(Int("10")), Minus, Number(Int("4"))])
  {
    var ts := [Number(Int("10")), Minus, Number(Int("4"))];
    var sp := [true, true, false];
    TenMinusFourText();
    IntValid("10"); IntValid("4");
    assert WellLaidOut(ts, sp);
    TokenizeWellLaidOut(ts, sp);
  }

  lemma TenMinusFourTree()
    ensures Parse([Number(Int("10")), Minus, Number(Int("4"))]) == Some(Binary(Sub, Lit(Int("10")), Lit(Int("4"))))
    ensures Eval(Binary(Sub, Lit(Int("10")), Lit(Int("4")))) == Done(IntValue(6))
  {
    var e := Binary(Sub, Lit(Int("10")), Lit(Int("4")));
    SingleOperator(Int("10"), Int("4"), Sub);
    assert LiteralValue(Int("10")) == IntValue(10) by { assert DigitsValue("10") == 10; }
    assert LiteralValue(Int("4")) == IntValue(4) by { assert DigitsValue("4") == 4; }
  }

  /** evaluate_expression("10 - 4") == 6 */
  lemma TenMinusFour()
    ensures Evaluate("10 - 4") == Returned(6.0)
  {
    TenMinusFourTokens();
    TenMinusFourTree();
  }

  // "3 * 7"

  lemma ThreeTimesSevenText()
    ensures Layout([Number(Int("3")), Star, Number(Int("7"))],
                   [true, true, false]) == "3 * 7"
  {
    assert Layout([Star, Number(Int("7"))], [true, false]) == "* 7";
  }

  lemma ThreeTimesSevenTokens()
    ensures AllAllowed("3 * 7")
    ensures Tokenize("3 * 7") == Some([Number(Int("3")), Star, Number(Int("7"))])
  {
    var ts := [Number(Int("3")), Star, Number(Int("7"))];
    var sp := [true, true, false];
    ThreeTimesSevenText();
    IntValid("3"); IntValid("7");
    assert WellLaidOut(ts, sp);
    TokenizeWellLaidOut(ts, sp);
  }

  lemma ThreeTimesSevenTree()
    ensures Parse([Number(Int("3")), Star, Number(Int("7"))]) == Some(Binary(Mul, Lit(Int("3")), Lit(Int("7"))))
    ensures Eval(Binary(Mul, Lit(Int("3")), Lit(Int("7")))) == Done(IntValue(21))
  {
    var e := Binary(Mul, Lit(Int("3")), Lit(Int("7")));
    SingleOperator(Int("3"), Int("7"), Mul);
    assert LiteralValue(Int("3")) == IntValue(3) by { assert DigitsValue("3") == 3; }
    assert LiteralValue(Int("7")) == IntValue(7) by { assert DigitsValue("7") == 7; }
  }

  /** evaluate_expression("3 * 7") == 21 */
  lemma ThreeTimesSeven()
    ensures Evaluate("3 * 7") == Returned(21.0)
  {
    ThreeTimesSevenTokens();
    ThreeTimesSevenTree();
  }

  // "15 / 3"

  lemma FifteenOverThreeText()
    ensures Layout([Number(Int("15")), Slash, Number(Int("3"))],
                   [true, true, false]) == "15 / 3"
  {
    assert Layout([Slash, Number(Int("3"))], [true, false]) == "/ 3";
  }

  lemma FifteenOverThreeTokens()
    ensures AllAllowed("15 / 3")
    ensures Tokenize("15 / 3") == Some([Number(Int("15")), Slash, Number(Int("3"))])
  {
    var ts := [Number(Int("15")), Slash, Number(Int("3"))];
    var sp := [true, true, false];
    FifteenOverThreeText();
    IntValid("15"); IntValid("3");
    assert WellLaidOut(ts, sp);
    TokenizeWellLaidOut(ts, sp);
  }

  lemma FifteenOverThreeTree()
    ensures Parse([Number(Int("15")), Slash, Number(Int("3"))]) == Some(Binary(Div, Lit(Int("15")), Lit(Int("3"))))
    ensures Eval(Binary(Div, Lit(Int("15")), Lit(Int("3")))) == Done(FloatValue(5.0))
  {
    var e := Binary(Div, Lit(Int("15")), Lit(Int("3")));
    SingleOperator(Int("15"), Int("3"), Div);
    assert LiteralValue(Int("15")) == IntValue(15) by { assert DigitsValue("15") == 15; }
    assert LiteralValue(Int("3")) == IntValue(3) by { assert DigitsValue("3") == 3; }
    assert ApplyBinary(Div, IntValue(15), IntValue(3)) == Done(FloatValue(5.0));
  }

  /** evaluate_expression("15 / 3") == 5, computed as the float 5.0 */
  lemma FifteenOverThree()
    ensures Evaluate("15 / 3") == Returned(5.0)
  {
    FifteenOverThreeTokens();
    FifteenOverThreeTree();
  }

  // "2 + 3 * 4"

  lemma ProductInSumText()
    ensures Layout([Number(Int("2")), Plus, Number(Int("3")), Star, Number(Int("4"))],
                   [true, true, true, true, false]) == "2 + 3 * 4"
  {
    assert Layout([Star, Number(Int("4"))], [true, false]) == "* 4";
    assert Layout([Number(Int("3")), Star, Number(Int("4"))], [true, true, false]) == "3 * 4";
    assert Layout([Plus, Number(Int("3")), Star, Number(Int("4"))], [true, true, true, false]) == "+ 3 * 4";
  }

  lemma ProductInSumTokens()
    ensures AllAllowed("2 + 3 * 4")
    ensures Tokenize("2 + 3 * 4") == Some([Number(Int("2")), Plus, Number(Int("3")), Star, Number(Int("4"))])
  {
    var ts := [Number(Int("2")), Plus, Number(Int("3")), Star, Number(Int("4"))];
    var sp := [true, true, true, true, false];
    ProductInSumText();
    IntValid("2"); IntValid("3"); IntValid("4");
    assert WellLaidOut(ts, sp);
    TokenizeWellLaidOut(ts, sp);
  }

  lemma ProductInSumTree()
    ensures Parse([Number(Int("2")), Plus, Number(Int("3")), Star, Number(Int("4"))]) == Some(Binary(Add, Lit(Int("2")), Binary(Mul, Lit(Int("3")), Lit(Int("4")))))
    ensures Eval(Binary(Add, Lit(Int("2")), Binary(Mul, Lit(Int("3")), Lit(Int("4"))))) == Done(IntValue(14))
  {
    var e := Binary(Add, Lit(Int("2")), Binary(Mul, Lit(Int("3")), Lit(Int("4"))));
    MultiplicativeBindsTighter(Int("2"), Int("3"), Int("4"), Add, Mul);
    assert LiteralValue(Int("2")) == IntValue(2) by { assert DigitsValue("2") == 2; }
    assert LiteralValue(Int("3")) == IntValue(3) by { assert DigitsValue("3") == 3; }
    assert LiteralValue(Int("4")) == IntValue(4) by { assert DigitsValue("4") == 4; }
  }

  /** evaluate_expression("2 + 3 * 4") == 14: the product first */
  lemma ProductInSum()
    ensures Evaluate("2 + 3 * 4") == Returned(14.0)
  {
    ProductInSumTokens();
    ProductInSumTree();
  }

  // "(2 + 3) * 4"

  lemma ParenthesisedSumTextTail()
    ensures Layout([Number(Int("3")), RParen, Star, Number(Int("4"))], [false, true, true, false]) == "3) * 4"
  {
    assert Layout([Star, Number(Int("4"))], [true, false]) == "* 4";
    assert Layout([RParen, Star, Number(Int("4"))], [true, true, false]) == ") * 4";
  }

  lemma ParenthesisedSumText()
    ensures Layout([LParen, Number(Int("2")), Plus, Number(Int("3")), RParen, Star, Number(Int("4"))],
                   [false, true, true, false, true, true, false]) == "(2 + 3) * 4"
  {
    ParenthesisedSumTextTail();
    assert Layout([Plus, Number(Int("3")), RParen, Star, Number(Int("4"))], [true, false, true, true, false]) == "+ 3) * 4";
    assert Layout([Number(Int("2")), Plus, Number(Int("3")), RParen, Star, Number(Int("4"))], [true, true, false, true, true, false]) == "2 + 3) * 4";
  }

  lemma ParenthesisedSumTokens()
    ensures AllAllowed("(2 + 3) * 4")
    ensures Tokenize("(2 + 3) * 4") == Some([LParen, Number(Int("2")), Plus, Number(Int("3")), RParen, Star, Number(Int("4"))])
  {
    var ts := [LParen, Number(Int("2")), Plus, Number(Int("3")), RParen, Star, Number(Int("4"))];
    var sp := [false, true, true, false, true, true, false];
    ParenthesisedSumText();
    IntValid("2"); IntValid("3"); IntValid("4");
    assert WellLaidOut(ts, sp);
    TokenizeWellLaidOut(ts, sp);
  }

  lemma ParenthesisedSumTree()
    ensures Parse([LParen, Number(Int("2")), Plus, Number(Int("3")), RParen, Star, Number(Int("4"))]) == Some(Binary(Mul, Binary(Add, Lit(Int("2")), Lit(Int("3"))), Lit(Int("4"))))
    ensures Eval(Binary(Mul, Binary(Add, Lit(Int("2")), Lit(Int("3"))), Lit(Int("4")))) == Done(IntValue(20))
  {
    var e := Binary(Mul, Binary(Add, Lit(Int("2")), Lit(Int("3"))), Lit(Int("4")));
    ParenthesesFirst(Int("2"), Int("3"), Int("4"), Add, Mul);
    assert LiteralValue(Int("2")) == IntValue(2) by { assert DigitsValue("2") == 2; }
    assert LiteralValue(Int("3")) == IntValue(3) by { assert DigitsValue("3") == 3; }
    assert LiteralValue(Int("4")) == IntValue(4) by { assert DigitsValue("4") == 4; }
  }

  /** evaluate_expression("(2 + 3) * 4") == 20: the parenthesised sum first */
  lemma ParenthesisedSum()
    ensures Evaluate("(2 + 3) * 4") == Returned(20.0)
  {
    ParenthesisedSumTokens();
    ParenthesisedSumTree();
  }

  // "10 / 2 + 3"

  lemma QuotientInSumText()
    ensures Layout([Number(Int("10")), Slash, Number(Int("2")), Plus, Number(Int("3"))],
                   [true, true, true, true, false]) == "10 / 2 + 3"
  {
    assert Layout([Plus, Number(Int("3"))], [true, false]) == "+ 3";
    assert Layout([Number(Int("2")), Plus, Number(Int("3"))], [true, true, false]) == "2 + 3";
    assert Layout([Slash, Number(Int("2")), Plus, Number(Int("3"))], [true, true, true, false]) == "/ 2 + 3";
  }

  lemma QuotientInSumTokens()
    ensures AllAllowed("10 / 2 + 3")
    ensures Tokenize("10 / 2 + 3") == Some([Number(Int("10")), Slash, Number(Int("2")), Plus, Number(Int("3"))])
  {
    var ts := [Number(Int("10")), Slash, Number(Int("2")), Plus, Number(Int("3"))];
    var sp := [true, true, true, true, false];
    QuotientInSumText();
    IntValid("10"); IntValid("2"); IntValid("3");
    assert WellLaidOut(ts, sp);
    TokenizeWellLaidOut(ts, sp);
  }

  lemma QuotientInSumTree()
    ensures Parse([Number(Int("10")), Slash, Number(Int("2")), Plus, Number(Int("3"))]) == Some(Binary(Add, Binary(Div, Lit(Int("10")), Lit(Int("2"))), Lit(Int("3"))))
    ensures Eval(Binary(Add, Binary(Div, Lit(Int("10")), Lit(Int("2"))), Lit(Int("3")))) == Done(FloatValue(8.0))
  {
    var e := Binary(Add, Binary(Div, Lit(Int("10")), Lit(Int("2"))), Lit(Int("3")));
    MultiplicativeBindsTighter(Int("10"), Int("2"), Int("3"), Add, Div);
    assert LiteralValue(Int("10")) == IntValue(10) by { assert DigitsValue("10") == 10; }
    assert LiteralValue(Int("2")) == IntValue(2) by { assert DigitsValue("2") == 2; }
    assert LiteralValue(Int("3")) == IntValue(3) by { assert DigitsValue("3") == 3; }
    assert ApplyBinary(Div, IntValue(10), IntValue(2)) == Done(FloatValue(5.0));
    assert ApplyBinary(Add, FloatValue(5.0), IntValue(3)) == Done(FloatValue(8.0));
  }

  /** evaluate_expression("10 / 2 + 3") == 8: the quotient first */
  lemma QuotientInSum()
    ensures Evaluate("10 / 2 + 3") == Returned(8.0)
  {
    QuotientInSumTokens();
    QuotientInSumTree();
  }

  // "2.5 * 4"

  lemma DecimalTimesFourText()
    ensures Layout([Number(Dec("2", "5")), Star, Number(Int("4"))],
                   [true, true, false]) == "2.5 * 4"
  {
    assert Layout([Star, Number(Int("4"))], [true, false]) == "* 4";
  }

  lemma DecimalTimesFourTokens()
    ensures AllAllowed("2.5 * 4")
    ensures Tokenize("2.5 * 4") == Some([Number(Dec("2", "5")), Star, Number(Int("4"))])
  {
    var ts := [Number(Dec("2", "5")), Star, Number(Int("4"))];
    var sp := [true, true, false];
    DecimalTimesFourText();
    IntValid("4");
    assert ValidNumeral(Dec("2", "5"));
    assert WellLaidOut(ts, sp);
    TokenizeWellLaidOut(ts, sp);
  }

  lemma DecimalTimesFourTree()
    ensures Parse([Number(Dec("2", "5")), Star, Number(Int("4"))]) == Some(Binary(Mul, Lit(Dec("2", "5")), Lit(Int("4"))))
    ensures Eval(Binary(Mul, Lit(Dec("2", "5")), Lit(Int("4")))) == Done(FloatValue(10.0))
  {
    var e := Binary(Mul, Lit(Dec("2", "5")), Lit(Int("4")));
    SingleOperator(Dec("2", "5"), Int("4"), Mul);
    assert DigitsValue("2") == 2 && DigitsValue("5") == 5 && DigitsValue("4") == 4;
    assert PowerOfTen(1) == 10;
  }

  /** evaluate_expression("2.5 * 4") == 10 */
  lemma DecimalTimesFour()
    ensures Evaluate("2.5 * 4") == Returned(10.0)
  {
    DecimalTimesFourTokens();
    DecimalTimesFourTree();
  }

  // "2 / 0"

  lemma TwoOverZeroText()
    ensures Layout([Number(Int("2")), Slash, Number(Int("0"))],
                   [true, true, false]) == "2 / 0"
  {
    assert Layout([Slash, Number(Int("0"))], [true, false]) == "/ 0";
  }

  lemma TwoOverZeroTokens()
    ensures AllAllowed("2 / 0")
    ensures Tokenize("2 / 0") == Some([Number(Int("2")), Slash, Number(Int("0"))])
  {
    var ts := [Number(Int("2")), Slash, Number(Int("0"))];
    var sp := [true, true, false];
    TwoOverZeroText();
    IntValid("2"); IntValid("0");
    assert WellLaidOut(ts, sp);
    TokenizeWellLaidOut(ts, sp);
  }

  lemma TwoOverZeroTree()
    ensures Parse([Number(Int("2")), Slash, Number(Int("0"))]) == Some(Binary(Div, Lit(Int("2")), Lit(Int("0"))))
    ensures Eval(Binary(Div, Lit(Int("2")), Lit(Int("0")))) == Raised(ZeroDivision)
  {
    var e := Binary(Div, Lit(Int("2")), Lit(Int("0")));
    SingleOperator(Int("2"), Int("0"), Div);
    assert LiteralValue(Int("2")) == IntValue(2) by { assert DigitsValue("2") == 2; }
    assert LiteralValue(Int("0")) == IntValue(0) by { assert DigitsValue("0") == 0; }
  }

  /** evaluate_expression("2 / 0") is an evaluation error: the division by zero */
  lemma TwoOverZero()
    ensures Evaluate("2 / 0") == EvalError(ZeroDivision)
  {
    TwoOverZeroTokens();
    TwoOverZeroTree();
  }

  // "7 // -2"

  lemma FloorOfNegativeQuotientText()
    ensures Layout([Number(Int("7")), DoubleSlash, Minus, Number(Int("2"))],
                   [true, true, false, false]) == "7 // -2"
  {
    assert Layout([Minus, Number(Int("2"))], [false, false]) == "-2";
    assert Layout([DoubleSlash, Minus, Number(Int("2"))], [true, false, false]) == "// -2";
  }

  lemma FloorOfNegativeQuotientTokens()
    ensures AllAllowed("7 // -2")
    ensures Tokenize("7 // -2") == Some([Number(Int("7")), DoubleSlash, Minus, Number(Int("2"))])
  {
    var ts := [Number(Int("7")), DoubleSlash, Minus, Number(Int("2"))];
    var sp := [true, true, false, false];
    FloorOfNegativeQuotientText();
    IntValid("7"); IntValid("2");
    assert WellLaidOut(ts, sp);
    TokenizeWellLaidOut(ts, sp);
  }

  lemma FloorOfNegativeQuotientTree()
    ensures Parse([Number(Int("7")), DoubleSlash, Minus, Number(Int("2"))]) == Some(Binary(FloorDiv, Lit(Int("7")), Unary(Neg, Lit(Int("2")))))
    ensures Eval(Binary(FloorDiv, Lit(Int("7")), Unary(Neg, Lit(Int("2"))))) == Done(IntValue(-4))
  {
    var e := Binary(FloorDiv, Lit(Int("7")), Unary(Neg, Lit(Int("2"))));
    assert Unparse(e) == TermTokens(e) == [Number(Int("7"))] + [DoubleSlash] + ([Minus] + [Number(Int("2"))]);
    assert Unparse(e) == [Number(Int("7")), DoubleSlash, Minus, Number(Int("2"))];
    ParseUnparse(e);
    assert LiteralValue(Int("7")) == IntValue(7) by { assert DigitsValue("7") == 7; }
    assert LiteralValue(Int("2")) == IntValue(2) by { assert DigitsValue("2") == 2; }
    assert 7.0 / -2.0 == -3.5;
  }

  /** `//` rounds toward negative infinity, as in Python: 7 // -2 == -4 */
  lemma FloorOfNegativeQuotient()
    ensures Evaluate("7 // -2") == Returned(-4.0)
  {
    FloorOfNegativeQuotientTokens();
    FloorOfNegativeQuotientTree();
  }

  // "()"

  lemma EmptyParenthesesText()
    ensures Layout([LParen, RParen],
                   [false, false]) == "()"
  {
  }

  lemma EmptyParenthesesTokens()
    ensures AllAllowed("()")
    ensures Tokenize("()") == Some([LParen, RParen])
  {
    var ts := [LParen, RParen];
    var sp := [false, false];
    EmptyParenthesesText();
    assert WellLaidOut(ts, sp);
    TokenizeWellLaidOut(ts, sp);
  }

  lemma EmptyParenthesesTree()
    ensures Parse([LParen, RParen]) == Some(EmptyParens)
    ensures Eval(EmptyParens) == Done(EmptyTuple)
  {
    var e := EmptyParens;
    assert Unparse(e) == [LParen, RParen];
    ParseUnparse(e);
  }

  /** `()` evaluates to the empty tuple, which is not a number */
  lemma EmptyParentheses()
    ensures Evaluate("()") == EvalError(NotANumber)
  {
    EmptyParenthesesTokens();
    EmptyParenthesesTree();
  }

  // "() + 1"

  lemma TupleOperandText()
    ensures Layout([LParen, RParen, Plus, Number(Int("1"))],
                   [false, true, true, false]) == "() + 1"
  {
    assert Layout([Plus, Number(Int("1"))], [true, false]) == "+ 1";
    assert Layout([RParen, Plus, Number(Int("1"))], [true, true, false]) == ") + 1";
  }

  lemma TupleOperandTokens()
    ensures AllAllowed("() + 1")
    ensures Tokenize("() + 1") == Some([LParen, RParen, Plus, Number(Int("1"))])
  {
    var ts := [LParen, RParen, Plus, Number(Int("1"))];
    var sp := [false, true, true, false];
    TupleOperandText();
    IntValid("1");
    assert WellLaidOut(ts, sp);
    TokenizeWellLaidOut(ts, sp);
  }

  lemma TupleOperandTree()
    ensures Parse([LParen, RParen, Plus, Number(Int("1"))]) == Some(Binary(Add, EmptyParens, Lit(Int("1"))))
    ensures Eval(Binary(Add, EmptyParens, Lit(Int("1")))) == Raised(UnsupportedOperand)
  {
    var e := Binary(Add, EmptyParens, Lit(Int("1")));
    assert Unparse(e) == [LParen, RParen] + [Plus] + [Number(Int("1"))];
    assert Unparse(e) == [LParen, RParen, Plus, Number(Int("1"))];
    ParseUnparse(e);
  }

  /** Adding a number to the empty tuple is Python's TypeError, an evaluation error here */
  lemma TupleOperand()
    ensures Evaluate("() + 1") == EvalError(UnsupportedOperand)
  {
    TupleOperandTokens();
    TupleOperandTree();
  }

  // "(2 + 3"
  lemma UnclosedParenthesisText()
    ensures Layout([LParen, Number(Int("2")), Plus, Number(Int("3"))],
                   [false, true, true, false]) == "(2 + 3"
  {
    assert Layout([Plus, Number(Int("3"))], [true, false]) == "+ 3";
    assert Layout([Number(Int("2")), Plus, Number(Int("3"))], [true, true, false]) == "2 + 3";
  }

  lemma UnclosedParenthesisTokens()
    ensures AllAllowed("(2 + 3")
    ensures Tokenize("(2 + 3") == Some([LParen, Number(Int("2")), Plus, Number(Int("3"))])
  {
    var ts := [LParen, Number(Int("2")), Plus, Number(Int("3"))];
    var sp := [false, true, true, false];
    UnclosedParenthesisText();
    IntValid("2"); IntValid("3");
    assert WellLaidOut(ts, sp);
    TokenizeWellLaidOut(ts, sp);
  }

  lemma UnclosedParenthesisRefused()
    ensures Parse([LParen, Number(Int("2")), Plus, Number(Int("3"))]) == None
  {
    var ts := [LParen, Number(Int("2")), Plus, Number(Int("3"))];
    ParseShape(ts);
    assert Depth(ts, 0, 1) == 1 && Depth(ts, 0, 2) == 1 && Depth(ts, 0, 3) == 1;
    assert Depth(ts, 0, 4) == 1;
  }

  /** "(2 + 3" is an evaluation error: the parenthesis is never closed */
  lemma UnclosedParenthesis()
    ensures Evaluate("(2 + 3") == EvalError(Syntax)
  {
    UnclosedParenthesisTokens();
    UnclosedParenthesisRefused();
  }

  // "2 +"
  lemma TrailingOperatorText()
    ensures Layout([Number(Int("2")), Plus],
                   [true, false]) == "2 +"
  {
  }

  lemma TrailingOperatorTokens()
    ensures AllAllowed("2 +")
    ensures Tokenize("2 +") == Some([Number(Int("2")), Plus])
  {
    var ts := [Number(Int("2")), Plus];
    var sp := [true, false];
    TrailingOperatorText();
    IntValid("2");
    assert WellLaidOut(ts, sp);
    TokenizeWellLaidOut(ts, sp);
  }

  lemma TrailingOperatorRefused()
    ensures Parse([Number(Int("2")), Plus]) == None
  {
    var ts := [Number(Int("2")), Plus];
    ParseShape(ts);
    assert !EndsOperand(ts[1]);
  }

  /** "2 +" is an evaluation error: the expression ends with an operator */
  lemma TrailingOperator()
    ensures Evaluate("2 +") == EvalError(Syntax)
  {
    TrailingOperatorTokens();
    TrailingOperatorRefused();
  }

  // "2 3"
  lemma AdjacentOperandsText()
    ensures Layout([Number(Int("2")), Number(Int("3"))],
                   [true, false]) == "2 3"
  {
  }

  lemma AdjacentOperandsTokens()
    ensures AllAllowed("2 3")
    ensures Tokenize("2 3") == Some([Number(Int("2")), Number(Int("3"))])
  {
    var ts := [Number(Int("2")), Number(Int("3"))];
    var sp := [true, false];
    AdjacentOperandsText();
    IntValid("2"); IntValid("3");
    assert WellLaidOut(ts, sp);
    TokenizeWellLaidOut(ts, sp);
  }

  lemma AdjacentOperandsRefused()
    ensures Parse([Number(Int("2")), Number(Int("3"))]) == None
  {
    var ts := [Number(Int("2")), Number(Int("3"))];
    ParseShape(ts);
    assert !MayFollow(ts[0], ts[1]);
  }

  /** "2 3" is an evaluation error: two operands with no operator between them */
  lemma AdjacentOperands()
    ensures Evaluate("2 3") == EvalError(Syntax)
  {
    AdjacentOperandsTokens();
    AdjacentOperandsRefused();
  }

  /** Text of spaces only holds no expression. */
  lemma OnlySpaces()
    ensures Evaluate("   ") == EvalError(Syntax)
  {
    assert AllAllowed("   ");
    assert Tokenize("   ") == Some([]);
    assert ParseAtom([], 0).None?;
  }

  /** "import os" and "2 + a" are refused before anything is evaluated. */
  lemma ForbiddenCharacters()
    ensures Evaluate("import os") == InvalidCharacter
    ensures Evaluate("2 + a") == InvalidCharacter
  {
    assert "import os"[0] == 'i' && 'i' !in ALLOWED_CHARS;
    assert "2 + a"[4] == 'a' && 'a' !in ALLOWED_CHARS;
  }

  /** The empty text is not an expression. */
  lemma EmptyText()
    ensures Evaluate("") == EvalError(Syntax)
  {
    assert Tokenize("") == Some([]);
    assert ParseAtom([], 0).None?;
  }

  /** `01` is refused by the tokenizer, as Python refuses leading zeros. */
  lemma LeadingZero()
    ensures Evaluate("01") == EvalError(Syntax)
  {
    var s := "01";
    DigitsEndAt(s, 0, 2);
    assert s[0..2][1] == '1';
    assert !AllZeros(s[0..2]);
  }

  /** A lone `.` is not a literal: the tokenizer refuses it. */
  lemma LonePoint()
    ensures Evaluate(".") == EvalError(Syntax)
  {
    var s := ".";
    DigitsEndAt(s, 0, 0);
    DigitsEndAt(s, 1, 1);
  }

  /** `007` is refused by the tokenizer, as Python refuses leading zeros. */
  lemma LeadingZeros()
    ensures Evaluate("007") == EvalError(Syntax)
  {
    var s := "007";
    DigitsEndAt(s, 0, 3);
    assert s[0..3][2] == '7';
    assert !AllZeros(s[0..3]);
  }

  /** A leading space is insignificant: " 2" evaluates as "2". */
  lemma LeadingSpace()
    ensures Evaluate(" 2") == Returned(2.0)
  {
    var s := " 2";
    SkipSpaces(s, 0, 1);
    DigitsEndAt(s, 1, 2);
    assert s[1..2] == "2";
    assert Scan(s, 2) == Some([]);
    assert Scan(s, 1) == Prepend(Number(Int("2")), Scan(s, 2));
    assert [Number(Int("2"))] + [] == [Number(Int("2"))];
    assert Scan(s, 0) == Some([Number(Int("2"))]);
    assert Parse([Number(Int("2"))]) == Some(Lit(Int("2")));
    assert LiteralValue(Int("2")) == IntValue(2) by { assert DigitsValue("2") == 2; }
  }

  /** Runs of spaces between tokens are insignificant: "2  +  3" evaluates as "2 + 3". */
  lemma WideSpacing()
    ensures Evaluate("2  +  3") == Returned(5.0)
  {
    var s := "2  +  3";
    DigitsEndAt(s, 0, 1);
    DigitsEndAt(s, 6, 7);
    assert s[0..1] == "2" && s[6..7] == "3";
    SkipSpaces(s, 1, 3);
    SkipSpaces(s, 4, 6);
    var two, three := Number(Int("2")), Number(Int("3"));
    assert Scan(s, 7) == Some([]);
    assert Scan(s, 6) == Prepend(three, Scan(s, 7));
    assert [three] + [] == [three];
    assert Scan(s, 3) == Prepend(Plus, Scan(s, 4));
    assert Scan(s, 0) == Prepend(two, Scan(s, 1));
    assert [two] + ([Plus] + [three]) == [two, Plus, three];
    assert Scan(s, 0) == Some([two, Plus, three]);
    TwoPlusThreeTree();
  }
}
