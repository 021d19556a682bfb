/**
  The expression calculator: the allow-list check on the characters, then the
  evaluation of the text as an arithmetic expression with Python's meaning
  (integers and floats, true and floor division, the empty tuple `()`), and
  finally the check that the value is a number.
 */
module Evaluator {
  import opened Options
  import opened Lexer
  import opened Parser
  import NumericOperations

  /** The values an allowed expression can have: a Python int, a float, or the empty tuple. */
  datatype Value = IntValue(i: int) | FloatValue(x: real) | EmptyTuple

  /** What made the evaluation fail; all of these are reported as an evaluation error. */
  datatype Cause =
    | Syntax              // the tokenizer or the parser rejected the text
    | ZeroDivision        // `/` or `//` with a zero right operand
    | UnsupportedOperand  // an operator applied to the empty tuple (Python's TypeError)
    | NotANumber          // the expression evaluated to something other than a number

  datatype Evaluation = Done(value: Value) | Raised(cause: Cause)

  /** What the calculator reports for an expression. */
  datatype Outcome = Returned(value: real) | InvalidCharacter | EvalError(cause: Cause)

  predicate IsNumber(v: Value) {
    v.IntValue? || v.FloatValue?
  }

  function AsReal(v: Value): real
    requires IsNumber(v)
  {
    if v.IntValue? then v.i as real else v.x
  }

  /** A literal with a point is a float, one without is an int. */
  function LiteralValue(n: Numeral): (v: Value)
    ensures IsNumber(v)
    ensures ValidNumeral(n) ==> AsReal(v) == NumeralValue(n)
    ensures v.IntValue? <==> !n.point
  {
    if n.point then FloatValue(NumeralValue(n))
    else
      assert n.fraction == [] ==> NumeralValue(n) == DigitsValue(n.whole) as real by {
        assert DigitsValue([]) == 0 && PowerOfTen(0) == 1;
      }
      IntValue(DigitsValue(n.whole))
  }

  /** Python's floor of a quotient: the greatest integer not above a / b. */
  function FloorQuotient(a: real, b: real): (q: int)
    requires b != 0.0
    ensures q as real <= a / b < q as real + 1.0
  {
    (a / b).Floor
  }

  function ApplyUnary(sign: UnaryOp, v: Value): (r: Evaluation)
    ensures r.Raised? <==> v == EmptyTuple
    ensures r.Raised? ==> r.cause == UnsupportedOperand
    ensures r.Done? ==> r.value.IntValue? == v.IntValue? && IsNumber(r.value)
    ensures r.Done? ==> AsReal(r.value) == if sign == Neg then -AsReal(v) else AsReal(v)
  {
    match v
    case EmptyTuple => Raised(UnsupportedOperand)
    case IntValue(i) => Done(IntValue(if sign == Neg then -i else i))
    case FloatValue(x) => Done(FloatValue(if sign == Neg then -x else x))
  }

  /** `a + b`: an int when both are ints, a float otherwise. */
  function SumValue(a: Value, b: Value): (r: Value)
    requires IsNumber(a) && IsNumber(b)
    ensures IsNumber(r) && (r.IntValue? <==> a.IntValue? && b.IntValue?)
    ensures AsReal(r) == AsReal(a) + AsReal(b)
  {
    if a.IntValue? && b.IntValue? then IntValue(a.i + b.i) else FloatValue(AsReal(a) + AsReal(b))
  }

  /** `a - b`: an int when both are ints, a float otherwise. */
  function DifferenceValue(a: Value, b: Value): (r: Value)
    requires IsNumber(a) && IsNumber(b)
    ensures IsNumber(r) && (r.IntValue? <==> a.IntValue? && b.IntValue?)
    ensures AsReal(r) == AsReal(a) - AsReal(b)
  {
    if a.IntValue? && b.IntValue? then IntValue(a.i - b.i) else FloatValue(AsReal(a) - AsReal(b))
  }

  /** `a * b`: an int when both are ints, a float otherwise. */
  function ProductValue(a: Value, b: Value): (r: Value)
    requires IsNumber(a) && IsNumber(b)
    ensures IsNumber(r) && (r.IntValue? <==> a.IntValue? && b.IntValue?)
    ensures AsReal(r) == AsReal(a) * AsReal(b)
  {
    if a.IntValue? && b.IntValue? then
      ProductAsReal(a.i, b.i);
      IntValue(a.i * b.i)
    else FloatValue(AsReal(a) * AsReal(b))
  }

  /** `a // b` for a non-zero b: an int when both are ints, a float otherwise, the floor either way. */
  function FloorQuotientValue(a: Value, b: Value): (r: Value)
    requires IsNumber(a) && IsNumber(b) && AsReal(b) != 0.0
    ensures IsNumber(r) && (r.IntValue? <==> a.IntValue? && b.IntValue?)
    ensures AsReal(r) == FloorQuotient(AsReal(a), AsReal(b)) as real
  {
    var q := FloorQuotient(AsReal(a), AsReal(b));
    if a.IntValue? && b.IntValue? then IntValue(q) else FloatValue(q as real)
  }

  /** Arithmetic on two numbers: ints stay ints except under `/`, anything with a float is a float. */
  function ApplyNumbers(op: BinaryOp, a: Value, b: Value): (r: Evaluation)
    requires IsNumber(a) && IsNumber(b)
    ensures r.Raised? <==> (op == Div || op == FloorDiv) && AsReal(b) == 0.0
    ensures r.Raised? ==> r.cause == ZeroDivision
    ensures r.Done? ==> IsNumber(r.value)
    ensures r.Done? ==> (r.value.IntValue? <==> op != Div && a.IntValue? && b.IntValue?)
    ensures r.Done? ==>
              match op
              case Add => AsReal(r.value) == AsReal(a) + AsReal(b)
              case Sub => AsReal(r.value) == AsReal(a) - AsReal(b)
              case Mul => AsReal(r.value) == AsReal(a) * AsReal(b)
              case Div => AsReal(b) != 0.0 && AsReal(r.value) == AsReal(a) / AsReal(b)
              case FloorDiv => AsReal(b) != 0.0 && AsReal(r.value) == FloorQuotient(AsReal(a), AsReal(b)) as real
  {
    match op
    case Add => Done(SumValue(a, b))
    case Sub => Done(DifferenceValue(a, b))
    case Mul => Done(ProductValue(a, b))
    case Div => if AsReal(b) == 0.0 then Raised(ZeroDivision) else Done(FloatValue(AsReal(a) / AsReal(b)))
    case FloorDiv => if AsReal(b) == 0.0 then Raised(ZeroDivision) else Done(FloorQuotientValue(a, b))
  }

  /**
    A binary operator. With the empty tuple as an operand only tuple
    concatenation `() + ()` and repetition by an int (`() * 3`, `3 * ()`) are
    defined, and they give the empty tuple again; anything else is a TypeError,
    raised before any zero check.
   */
  function ApplyBinary(op: BinaryOp, a: Value, b: Value): (r: Evaluation)
    ensures r.Done? && r.value == EmptyTuple <==>
              (op == Add && a == EmptyTuple && b == EmptyTuple)
              || (op == Mul && ((a == EmptyTuple && b.IntValue?) || (a.IntValue? && b == EmptyTuple)))
    ensures r.Raised? && r.cause == UnsupportedOperand <==> !(IsNumber(a) && IsNumber(b)) && r.Raised?
    ensures !(IsNumber(a) && IsNumber(b)) && r.Done? ==> r.value == EmptyTuple
    ensures IsNumber(a) && IsNumber(b) ==> r == ApplyNumbers(op, a, b)
  {
    if IsNumber(a) && IsNumber(b) then ApplyNumbers(op, a, b)
    else if op == Add && a == EmptyTuple && b == EmptyTuple then Done(EmptyTuple)
    else if op == Mul && ((a == EmptyTuple && b.IntValue?) || (a.IntValue? && b == EmptyTuple)) then Done(EmptyTuple)
    else Raised(UnsupportedOperand)
  }

  /** Python's evaluation order: operands from left to right, the first exception wins. */
  function Eval(e: Expr): Evaluation {
    match e
    case Lit(n) => Done(LiteralValue(n))
    case EmptyParens => Done(EmptyTuple)
    case Unary(sign, x) =>
      (match Eval(x)
       case Raised(c) => Raised(c)
       case Done(v) => ApplyUnary(sign, v))
    case Binary(op, l, r) =>
      match Eval(l)
      case Raised(c) => Raised(c)
      case Done(a) =>
        match Eval(r)
        case Raised(c) => Raised(c)
        case Done(b) => ApplyBinary(op, a, b)
  }

  /**
    `() + 1 / 0` raises ZeroDivisionError, because the right operand is evaluated
    before `+` meets the tuple; `(() + 1) / 0` raises TypeError, because the
    tuple is met before the division; and `(() + 1) + 1 / 0` raises TypeError,
    because the left operand is evaluated before the right one.
   */
  lemma FirstErrorWins()
    ensures var one, zero := Lit(Numeral("1", false, "")), Lit(Numeral("0", false, ""));
            && Eval(Binary(Add, EmptyParens, Binary(Div, one, zero))) == Raised(ZeroDivision)
            && Eval(Binary(Div, Binary(Add, EmptyParens, one), zero)) == Raised(UnsupportedOperand)
            && Eval(Binary(Add, Binary(Add, EmptyParens, one), Binary(Div, one, zero))) == Raised(UnsupportedOperand)
  {
    var one, zero := Numeral("1", false, ""), Numeral("0", false, "");
    assert LiteralValue(one) == IntValue(1) by { assert DigitsValue("1") == 1; }
    assert LiteralValue(zero) == IntValue(0) by { assert DigitsValue("0") == 0; }
  }

  /** The last step of the calculator: an int or a float is returned as a float, anything else is an error. */
  function Report(ev: Evaluation): (r: Outcome)
    ensures r != InvalidCharacter
    ensures r.Returned? <==> ev.Done? && IsNumber(ev.value)
    ensures r.Returned? ==> r.value == AsReal(ev.value)
    ensures ev.Raised? ==> r == EvalError(ev.cause)
  {
    match ev
    case Raised(c) => EvalError(c)
    case Done(v) => if IsNumber(v) then Returned(AsReal(v)) else EvalError(NotANumber)
  }

  /**
    The calculator on a string: refuse any character off the allow-list, then
    tokenize, parse and evaluate.
   */
  function Evaluate(s: string): (r: Outcome)
    ensures r == InvalidCharacter <==> !AllAllowed(s)
  {
    if !AllAllowed(s) then InvalidCharacter
    else
      match Tokenize(s)
      case None => EvalError(Syntax)
      case Some(ts) =>
        match Parse(ts)
        case None => EvalError(Syntax)
        case Some(e) => Report(Eval(e))
  }

  /** Syntax errors come only from the front end: evaluation never raises one. */
  lemma {:induction false} EvalNeverSyntax(e: Expr)
    ensures Eval(e).Raised? ==> Eval(e).cause != Syntax
  {
    match e
    case Lit(_) =>
    case EmptyParens =>
    case Unary(_, x) => EvalNeverSyntax(x);
    case Binary(_, l, r) =>
      EvalNeverSyntax(l);
      EvalNeverSyntax(r);
  }

  /** The tree holds no `()`. */
  predicate TupleFree(e: Expr) {
    match e
    case Lit(_) => true
    case EmptyParens => false
    case Unary(_, x) => TupleFree(x)
    case Binary(_, l, r) => TupleFree(l) && TupleFree(r)
  }

  /** Without `()`, the result is a number and the only possible error is a zero divisor. */
  lemma {:induction false} TupleFreeIsNumeric(e: Expr)
    requires TupleFree(e)
    ensures Eval(e).Done? ==> IsNumber(Eval(e).value)
    ensures Eval(e).Raised? ==> Eval(e).cause == ZeroDivision
  {
    match e
    case Lit(_) =>
    case Unary(_, x) => TupleFreeIsNumeric(x);
    case Binary(_, l, r) =>
      TupleFreeIsNumeric(l);
      TupleFreeIsNumeric(r);
  }

  /** The tree holds neither `()`, nor `/`, nor a literal with a point. */
  predicate IntegerOnly(e: Expr) {
    match e
    case Lit(n) => !n.point
    case EmptyParens => false
    case Unary(_, x) => IntegerOnly(x)
    case Binary(op, l, r) => op != Div && IntegerOnly(l) && IntegerOnly(r)
  }

  /** Integer literals combined by `+`, `-`, `*` and `//` give an int. */
  lemma {:induction false} IntegerOnlyIsInt(e: Expr)
    requires IntegerOnly(e)
    ensures Eval(e).Done? ==> Eval(e).value.IntValue?
  {
    match e
    case Lit(_) =>
    case Unary(_, x) => IntegerOnlyIsInt(x);
    case Binary(_, l, r) =>
      IntegerOnlyIsInt(l);
      IntegerOnlyIsInt(r);
  }

  /** Only a tree that contains `()` can evaluate to the empty tuple. */
  lemma EmptyTupleResult(e: Expr)
    ensures Eval(e) == Done(EmptyTuple) ==> !TupleFree(e)
  {
    if TupleFree(e) {
      TupleFreeIsNumeric(e);
    }
  }

  /**
    Floor division of ints rounds toward negative infinity, so the remainder
    takes the sign of the divisor: `7 // 2 == 3`, `7 // -2 == -4`, `-7 // 2 == -4`.
   */
  lemma FloorDivisionOfInts(a: int, b: int)
    requires b != 0
    ensures ApplyBinary(FloorDiv, IntValue(a), IntValue(b)).Done?
    ensures var q := ApplyBinary(FloorDiv, IntValue(a), IntValue(b)).value.i;
            if b > 0 then 0 <= a - q * b < b else b < a - q * b <= 0
  {
    var q := FloorQuotient(a as real, b as real);
    FloorRemainder(a as real, b as real, q as real);
    assert (q * b) as real == q as real * b as real;
  }

  /** The remainder left by the floor of a quotient lies between 0 and the divisor. */
  lemma FloorRemainder(x: real, y: real, q: real)
    requires y != 0.0 && q <= x / y < q + 1.0
    ensures y > 0.0 ==> 0.0 <= x - q * y < y
    ensures y < 0.0 ==> y < x - q * y <= 0.0
  {
    var f := x / y;
    var d := f - q;
    assert f * y == x;
    assert d * y == x - q * y;
    if y > 0.0 {
      ScaledFraction(d, y);
    } else {
      ScaledFraction(d, -y);
      assert d * (-y) == -(d * y);
    }
  }

  lemma ScaledFraction(d: real, y: real)
    requires 0.0 <= d < 1.0 && 0.0 < y
    ensures 0.0 <= d * y < y
  {
    assert (1.0 - d) * y == y - d * y;
    assert 0.0 < (1.0 - d) * y;
  }

  /** sub occurs somewhere in e, e itself included. */
  predicate Contains(e: Expr, sub: Expr) {
    || e == sub
    || match e
       case Unary(_, x) => Contains(x, sub)
       case Binary(_, l, r) => Contains(l, sub) || Contains(r, sub)
       case _ => false
  }

  /** No partial result: an error raised anywhere in the tree is raised by the whole tree. */
  lemma {:induction false} RaisedPropagates(e: Expr, sub: Expr)
    requires Contains(e, sub) && Eval(sub).Raised?
    ensures Eval(e).Raised?
  {
    if e != sub {
      match e
      case Unary(_, x) =>
        RaisedPropagates(x, sub);
      case Binary(_, l, r) =>
        if Contains(l, sub) {
          RaisedPropagates(l, sub);
        } else {
          RaisedPropagates(r, sub);
        }
    }
  }

  /** A division whose divisor evaluates to zero raises, ZeroDivisionError when its dividend is a number. */
  lemma DivisionByZeroRaises(op: BinaryOp, l: Expr, r: Expr)
    requires op == Div || op == FloorDiv
    requires Eval(r).Done? && IsNumber(Eval(r).value) && AsReal(Eval(r).value) == 0.0
    ensures Eval(Binary(op, l, r)).Raised?
    ensures Eval(l).Done? && IsNumber(Eval(l).value) ==> Eval(Binary(op, l, r)) == Raised(ZeroDivision)
  {
  }

  /** A zero divisor anywhere in the expression makes the calculator report an evaluation error. */
  lemma ZeroDivisorIsError(e: Expr, op: BinaryOp, l: Expr, r: Expr)
    requires Contains(e, Binary(op, l, r)) && (op == Div || op == FloorDiv)
    requires Eval(r).Done? && IsNumber(Eval(r).value) && AsReal(Eval(r).value) == 0.0
    ensures Report(Eval(e)).EvalError?
  {
    DivisionByZeroRaises(op, l, r);
    RaisedPropagates(e, Binary(op, l, r));
  }

  /** On floats the calculator's operators agree with the stand-alone operations. */
  lemma AgreesWithNumericOperations(a: real, b: real)
    ensures ApplyBinary(Add, FloatValue(a), FloatValue(b)) == Done(FloatValue(NumericOperations.Add(a, b)))
    ensures ApplyBinary(Sub, FloatValue(a), FloatValue(b)) == Done(FloatValue(NumericOperations.Subtract(a, b)))
    ensures ApplyBinary(Mul, FloatValue(a), FloatValue(b)) == Done(FloatValue(NumericOperations.Multiply(a, b)))
    ensures ApplyBinary(Div, FloatValue(a), FloatValue(b)).Raised? <==> NumericOperations.Divide(a, b).Fail?
    ensures NumericOperations.Divide(a, b).Ok? ==>
              ApplyBinary(Div, FloatValue(a), FloatValue(b)) == Done(FloatValue(NumericOperations.Divide(a, b).value))
  {
  }

  /**
    The end-to-end partner of Evaluate: printing any tree with valid literals and
    feeding the text to the calculator gives exactly the evaluation of that tree.
   */
  lemma EvaluatePrinted(e: Expr)
    requires ValidLiterals(e)
    ensures Evaluate(Render(Unparse(e))) == Report(Eval(e))
    ensures Evaluate(Render(Unparse(e))) != EvalError(Syntax)
  {
    var ts := Unparse(e);
    SumTokensValid(e);
    RenderAllowed(ts);
    TokenizeRender(ts);
    ParseUnparse(e);
    EvalNeverSyntax(e);
  }

  /** The calculator on any well laid out text of a token list that parses to e. */
  lemma EvaluateLaidOut(ts: seq<Token>, spaced: seq<bool>, e: Expr)
    requires |spaced| == |ts| && WellLaidOut(ts, spaced) && Parse(ts) == Some(e)
    ensures Evaluate(Layout(ts, spaced)) == Report(Eval(e))
  {
    TokenizeWellLaidOut(ts, spaced);
  }
}
