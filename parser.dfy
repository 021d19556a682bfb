/**
  The syntax of the arithmetic the evaluator accepts, and a recursive-descent
  parser for it that follows Python's expression grammar restricted to these
  tokens:

    sum    ::= term (('+' | '-') term)*
    term   ::= factor (('*' | '/' | '//') factor)*
    factor ::= ('+' | '-') factor | atom
    atom   ::= number | '(' ')' | '(' sum ')'

  Both binary levels associate to the left; `()` is Python's empty tuple.
  No production accepts `**`.
 */
module Parser {
  import opened Options
  import opened Lexer

  datatype UnaryOp = Pos | Neg

  datatype BinaryOp = Add | Sub | Mul | Div | FloorDiv

  datatype Expr =
    | Lit(numeral: Numeral)
    | EmptyParens
    | Unary(sign: UnaryOp, operand: Expr)
    | Binary(op: BinaryOp, left: Expr, right: Expr)

  predicate IsAdditive(op: BinaryOp) {
    op == Add || op == Sub
  }

  function AdditiveOp(t: Token): Option<BinaryOp> {
    match t
    case Plus => Some(Add)
    case Minus => Some(Sub)
    case _ => None
  }

  function MultiplicativeOp(t: Token): Option<BinaryOp> {
    match t
    case Star => Some(Mul)
    case Slash => Some(Div)
    case DoubleSlash => Some(FloorDiv)
    case _ => None
  }

  function SignOp(t: Token): Option<UnaryOp> {
    match t
    case Plus => Some(Pos)
    case Minus => Some(Neg)
    case _ => None
  }

  /** sum: a term, then any number of additive operators each followed by a term. */
  function ParseSum(ts: seq<Token>, pos: nat): (r: Option<(Expr, nat)>)
    requires pos <= |ts|
    ensures r.Some? ==> pos < r.value.1 <= |ts|
    decreases |ts| - pos, 3
  {
    match ParseTerm(ts, pos)
    case None => None
    case Some((first, p)) => ParseSumRest(ts, first, p)
  }

  /** The additive tail of a sum, folded to the left onto `acc`. */
  function ParseSumRest(ts: seq<Token>, acc: Expr, pos: nat): (r: Option<(Expr, nat)>)
    requires pos <= |ts|
    ensures r.Some? ==> pos <= r.value.1 <= |ts|
    decreases |ts| - pos, 3
  {
    if pos < |ts| && AdditiveOp(ts[pos]).Some? then
      match ParseTerm(ts, pos + 1)
      case None => None
      case Some((right, p)) => ParseSumRest(ts, Binary(AdditiveOp(ts[pos]).value, acc, right), p)
    else
      Some((acc, pos))
  }

  /** term: a factor, then any number of multiplicative operators each followed by a factor. */
  function ParseTerm(ts: seq<Token>, pos: nat): (r: Option<(Expr, nat)>)
    requires pos <= |ts|
    ensures r.Some? ==> pos < r.value.1 <= |ts|
    decreases |ts| - pos, 2
  {
    match ParseFactor(ts, pos)
    case None => None
    case Some((first, p)) => ParseTermRest(ts, first, p)
  }

  /** The multiplicative tail of a term, folded to the left onto `acc`. */
  function ParseTermRest(ts: seq<Token>, acc: Expr, pos: nat): (r: Option<(Expr, nat)>)
    requires pos <= |ts|
    ensures r.Some? ==> pos <= r.value.1 <= |ts|
    decreases |ts| - pos, 2
  {
    if pos < |ts| && MultiplicativeOp(ts[pos]).Some? then
      match ParseFactor(ts, pos + 1)
      case None => None
      case Some((right, p)) => ParseTermRest(ts, Binary(MultiplicativeOp(ts[pos]).value, acc, right), p)
    else
      Some((acc, pos))
  }

  /** factor: any number of signs in front of an atom. */
  function ParseFactor(ts: seq<Token>, pos: nat): (r: Option<(Expr, nat)>)
    requires pos <= |ts|
    ensures r.Some? ==> pos < r.value.1 <= |ts|
    decreases |ts| - pos, 1
  {
    if pos < |ts| && SignOp(ts[pos]).Some? then
      match ParseFactor(ts, pos + 1)
      case None => None
      case Some((operand, p)) => Some((Unary(SignOp(ts[pos]).value, operand), p))
    else
      ParseAtom(ts, pos)
  }

  /** atom: a literal, the empty tuple, or a parenthesised sum. */
  function ParseAtom(ts: seq<Token>, pos: nat): (r: Option<(Expr, nat)>)
    requires pos <= |ts|
    ensures r.Some? ==> pos < r.value.1 <= |ts|
    decreases |ts| - pos, 0
  {
    if pos == |ts| then None
    else if ts[pos].Number? then Some((Lit(ts[pos].numeral), pos + 1))
    else if ts[pos] != LParen then None
    else if pos + 1 < |ts| && ts[pos + 1] == RParen then Some((EmptyParens, pos + 2))
    else
      match ParseSum(ts, pos + 1)
      case None => None
      case Some((inner, p)) => if p < |ts| && ts[p] == RParen then Some((inner, p + 1)) else None
  }

  /**
    A whole token sequence is one sum and nothing after it; None is a SyntaxError.
    An accepted sequence is never empty and begins with a token that can begin an operand.
   */
  function Parse(ts: seq<Token>): (r: Option<Expr>)
    ensures r.Some? ==> ts != [] && StartsOperand(ts[0])
  {
    SumStartsOperand(ts);
    match ParseSum(ts, 0)
    case None => None
    case Some((e, p)) => if p == |ts| then Some(e) else None
  }

  /** A sum can only be read from a sequence that begins with a literal, a sign or `(`. */
  lemma SumStartsOperand(ts: seq<Token>)
    ensures ParseSum(ts, 0).Some? ==> ts != [] && StartsOperand(ts[0])
  {
    if ParseSum(ts, 0).Some? {
      assert ParseTerm(ts, 0).Some?;
      assert ParseFactor(ts, 0).Some?;
      if !(0 < |ts| && SignOp(ts[0]).Some?) {
        assert ParseAtom(ts, 0).Some?;
      }
    }
  }

  // What the parser accepts: the shape of every token run it reads as an operand.

  /** The tokens that can end an operand: a literal or `)`. */
  predicate EndsOperand(t: Token) {
    t.Number? || t == RParen
  }

  predicate IsBinaryOperator(t: Token) {
    AdditiveOp(t).Some? || MultiplicativeOp(t).Some?
  }

  /**
    u may come right after t: after a literal or `)` only a binary operator or
    `)`; after an operator or `(` only the start of an operand, or the `)` of `()`.
   */
  predicate MayFollow(t: Token, u: Token) {
    if EndsOperand(t) then IsBinaryOperator(u) || u == RParen
    else StartsOperand(u) || (t == LParen && u == RParen)
  }

  function Nesting(t: Token): int {
    if t == LParen then 1 else if t == RParen then -1 else 0
  }

  /** Parentheses opened minus parentheses closed in ts[a..b]. */
  function Depth(ts: seq<Token>, a: nat, b: nat): int
    requires a <= b <= |ts|
    decreases b - a
  {
    if a == b then 0 else Depth(ts, a, b - 1) + Nesting(ts[b - 1])
  }

  /** Every `)` in ts[a..b] closes a `(` opened before it there, and none stays open. */
  predicate Balanced(ts: seq<Token>, a: nat, b: nat)
    requires a <= b <= |ts|
  {
    && Depth(ts, a, b) == 0
    && forall m :: a <= m <= b ==> Depth(ts, a, m) >= 0
  }

  predicate Adjacent(ts: seq<Token>, a: nat, b: nat)
    requires a <= b <= |ts|
  {
    forall k :: a <= k && k + 1 < b ==> MayFollow(ts[k], ts[k + 1])
  }

  /**
    ts[a..b] is shaped like an operand: it is not empty, begins with a literal, a
    sign or `(`, ends with a literal or `)`, balances its parentheses, and each
    token may follow the one before it.
   */
  predicate WellFormed(ts: seq<Token>, a: nat, b: nat) {
    && a < b <= |ts|
    && StartsOperand(ts[a])
    && EndsOperand(ts[b - 1])
    && Balanced(ts, a, b)
    && Adjacent(ts, a, b)
  }

  lemma {:induction false} DepthSplit(ts: seq<Token>, a: nat, m: nat, b: nat)
    requires a <= m <= b <= |ts|
    ensures Depth(ts, a, b) == Depth(ts, a, m) + Depth(ts, m, b)
    decreases b - m
  {
    if m < b {
      DepthSplit(ts, a, m, b - 1);
    }
  }

  /** A literal alone is an operand. */
  lemma LiteralShape(ts: seq<Token>, a: nat)
    requires a < |ts| && ts[a].Number?
    ensures WellFormed(ts, a, a + 1)
  {
    assert Depth(ts, a, a + 1) == 0;
  }

  /** `()` alone is an operand. */
  lemma EmptyPairShape(ts: seq<Token>, a: nat)
    requires a + 1 < |ts| && ts[a] == LParen && ts[a + 1] == RParen
    ensures WellFormed(ts, a, a + 2)
  {
    assert Depth(ts, a, a + 1) == 1;
    assert Depth(ts, a, a + 2) == 0;
  }

  /** A sign in front of an operand gives an operand. */
  lemma SignShape(ts: seq<Token>, a: nat, b: nat)
    requires a < |ts| && SignOp(ts[a]).Some? && WellFormed(ts, a + 1, b)
    ensures WellFormed(ts, a, b)
  {
    forall m | a + 1 <= m <= b ensures Depth(ts, a, m) == Depth(ts, a + 1, m) {
      DepthSplit(ts, a, a + 1, m);
    }
    assert Depth(ts, a, a) == 0;
  }

  /** An operand in parentheses is an operand. */
  lemma WrapShape(ts: seq<Token>, a: nat, b: nat)
    requires a < |ts| && ts[a] == LParen && WellFormed(ts, a + 1, b) && b < |ts| && ts[b] == RParen
    ensures WellFormed(ts, a, b + 1)
  {
    forall m | a + 1 <= m <= b ensures Depth(ts, a, m) == 1 + Depth(ts, a + 1, m) {
      DepthSplit(ts, a, a + 1, m);
    }
    assert Depth(ts, a, a) == 0;
    assert Depth(ts, a, b + 1) == Depth(ts, a, b) - 1;
  }

  /** Two operands joined by a binary operator give an operand. */
  lemma InfixShape(ts: seq<Token>, a: nat, m: nat, b: nat)
    requires WellFormed(ts, a, m) && m < |ts| && IsBinaryOperator(ts[m]) && WellFormed(ts, m + 1, b)
    ensures WellFormed(ts, a, b)
  {
    assert Depth(ts, a, m + 1) == Depth(ts, a, m);
    forall n | m + 1 <= n <= b ensures Depth(ts, a, n) == Depth(ts, a, m + 1) + Depth(ts, m + 1, n) {
      DepthSplit(ts, a, m + 1, n);
    }
    forall k | a <= k && k + 1 < b ensures MayFollow(ts[k], ts[k + 1]) {
      if k + 1 < m {
      } else if k + 1 == m {
      } else if k == m {
      } else {
        assert m + 1 <= k;
      }
    }
  }

  /** What a sum is read from is shaped like an operand. */
  lemma {:induction false} SumShape(ts: seq<Token>, pos: nat)
    requires pos <= |ts|
    ensures ParseSum(ts, pos).Some? ==> WellFormed(ts, pos, ParseSum(ts, pos).value.1)
    decreases |ts| - pos, 3
  {
    TermShape(ts, pos);
    match ParseTerm(ts, pos)
    case None =>
    case Some((first, p)) => SumRestShape(ts, first, pos, p);
  }

  lemma {:induction false} SumRestShape(ts: seq<Token>, acc: Expr, start: nat, pos: nat)
    requires start < pos <= |ts| && WellFormed(ts, start, pos)
    ensures ParseSumRest(ts, acc, pos).Some? ==> WellFormed(ts, start, ParseSumRest(ts, acc, pos).value.1)
    decreases |ts| - pos, 3
  {
    if pos < |ts| && AdditiveOp(ts[pos]).Some? {
      TermShape(ts, pos + 1);
      match ParseTerm(ts, pos + 1)
      case None =>
      case Some((right, p)) =>
        InfixShape(ts, start, pos, p);
        SumRestShape(ts, Binary(AdditiveOp(ts[pos]).value, acc, right), start, p);
    }
  }

  lemma {:induction false} TermShape(ts: seq<Token>, pos: nat)
    requires pos <= |ts|
    ensures ParseTerm(ts, pos).Some? ==> WellFormed(ts, pos, ParseTerm(ts, pos).value.1)
    decreases |ts| - pos, 2
  {
    FactorShape(ts, pos);
    match ParseFactor(ts, pos)
    case None =>
    case Some((first, p)) => TermRestShape(ts, first, pos, p);
  }

  lemma {:induction false} TermRestShape(ts: seq<Token>, acc: Expr, start: nat, pos: nat)
    requires start < pos <= |ts| && WellFormed(ts, start, pos)
    ensures ParseTermRest(ts, acc, pos).Some? ==> WellFormed(ts, start, ParseTermRest(ts, acc, pos).value.1)
    decreases |ts| - pos, 2
  {
    if pos < |ts| && MultiplicativeOp(ts[pos]).Some? {
      FactorShape(ts, pos + 1);
      match ParseFactor(ts, pos + 1)
      case None =>
      case Some((right, p)) =>
        InfixShape(ts, start, pos, p);
        TermRestShape(ts, Binary(MultiplicativeOp(ts[pos]).value, acc, right), start, p);
    }
  }

  lemma {:induction false} FactorShape(ts: seq<Token>, pos: nat)
    requires pos <= |ts|
    ensures ParseFactor(ts, pos).Some? ==> WellFormed(ts, pos, ParseFactor(ts, pos).value.1)
    decreases |ts| - pos, 1
  {
    if pos < |ts| && SignOp(ts[pos]).Some? {
      FactorShape(ts, pos + 1);
      if ParseFactor(ts, pos + 1).Some? {
        SignShape(ts, pos, ParseFactor(ts, pos + 1).value.1);
      }
    } else {
      AtomShape(ts, pos);
    }
  }

  lemma {:induction false} AtomShape(ts: seq<Token>, pos: nat)
    requires pos <= |ts|
    ensures ParseAtom(ts, pos).Some? ==> WellFormed(ts, pos, ParseAtom(ts, pos).value.1)
    decreases |ts| - pos, 0
  {
    if pos == |ts| {
    } else if ts[pos].Number? {
      LiteralShape(ts, pos);
    } else if ts[pos] != LParen {
    } else if pos + 1 < |ts| && ts[pos + 1] == RParen {
      EmptyPairShape(ts, pos);
    } else {
      SumShape(ts, pos + 1);
      match ParseSum(ts, pos + 1)
      case None =>
      case Some((inner, p)) =>
        if p < |ts| && ts[p] == RParen {
          WrapShape(ts, pos, p);
        }
    }
  }

  /**
    The parser refuses every token list that is not shaped like an operand: the
    empty list, unbalanced parentheses (`(2 + 3`, `2 + 3)`), a trailing operator
    (`2 +`), two operands side by side (`2 3`), an operator after `(` or another
    binary operator (`(* 2`, `2 * * 3`).
   */
  lemma ParseShape(ts: seq<Token>)
    ensures Parse(ts).Some? ==> WellFormed(ts, 0, |ts|)
  {
    SumShape(ts, 0);
  }

  // The printer with the fewest parentheses: the partner of the parser.

  function OpToken(op: BinaryOp): Token {
    match op
    case Add => Plus
    case Sub => Minus
    case Mul => Star
    case Div => Slash
    case FloorDiv => DoubleSlash
  }

  function SignToken(op: UnaryOp): Token {
    match op
    case Pos => Plus
    case Neg => Minus
  }

  /** The tokens that can begin a factor. */
  predicate StartsOperand(t: Token) {
    t.Number? || t == LParen || t == Plus || t == Minus
  }

  /** Each operator token is read back as the operator it prints. */
  lemma OperatorTokens(op: BinaryOp, sign: UnaryOp)
    ensures IsAdditive(op) ==> AdditiveOp(OpToken(op)) == Some(op) && MultiplicativeOp(OpToken(op)).None?
    ensures !IsAdditive(op) ==> MultiplicativeOp(OpToken(op)) == Some(op) && AdditiveOp(OpToken(op)).None?
    ensures SignOp(SignToken(sign)) == Some(sign)
  {
  }

  /**
    An expression at the sum level: an additive node prints its left operand
    as a sum and its right operand as a term, so that a right operand of the
    same level is parenthesised and a left one is not.
   */
  function SumTokens(e: Expr): (ts: seq<Token>)
    ensures |ts| > 0 && StartsOperand(ts[0])
    decreases e, 2
  {
    if e.Binary? && IsAdditive(e.op) then SumTokens(e.left) + [OpToken(e.op)] + TermTokens(e.right)
    else TermTokens(e)
  }

  /** An expression at the term level. */
  function TermTokens(e: Expr): (ts: seq<Token>)
    ensures |ts| > 0 && StartsOperand(ts[0])
    decreases e, 1
  {
    if e.Binary? && !IsAdditive(e.op) then TermTokens(e.left) + [OpToken(e.op)] + FactorTokens(e.right)
    else FactorTokens(e)
  }

  /** An expression at the factor level: a binary node needs parentheses here. */
  function FactorTokens(e: Expr): (ts: seq<Token>)
    ensures |ts| > 0 && StartsOperand(ts[0])
    decreases e, 0
  {
    match e
    case Lit(n) => [Number(n)]
    case EmptyParens => [LParen, RParen]
    case Unary(op, x) => [SignToken(op)] + FactorTokens(x)
    case Binary(op, l, r) =>
      [LParen]
      + (if IsAdditive(op) then SumTokens(l) + [OpToken(op)] + TermTokens(r)
         else TermTokens(l) + [OpToken(op)] + FactorTokens(r))
      + [RParen]
  }

  /** The token form of an expression. */
  function Unparse(e: Expr): seq<Token> {
    SumTokens(e)
  }

  /** The tokens xs occur in ts starting at pos. */
  predicate At(ts: seq<Token>, pos: nat, xs: seq<Token>) {
    pos + |xs| <= |ts| && forall k :: 0 <= k < |xs| ==> ts[pos + k] == xs[k]
  }

  lemma AtConcat(ts: seq<Token>, pos: nat, a: seq<Token>, b: seq<Token>)
    requires At(ts, pos, a + b)
    ensures At(ts, pos, a) && At(ts, pos + |a|, b)
  {
    forall k | 0 <= k < |a| ensures ts[pos + k] == a[k] {
      assert (a + b)[k] == a[k];
    }
    forall k | 0 <= k < |b| ensures ts[pos + |a| + k] == b[k] {
      assert (a + b)[|a| + k] == b[k];
    }
  }

  lemma AtSingle(ts: seq<Token>, pos: nat, t: Token)
    requires At(ts, pos, [t])
    ensures pos < |ts| && ts[pos] == t
  {
    assert ts[pos + 0] == [t][0];
  }

  /** The pieces of `x + [t] + y` found at pos. */
  lemma AtInfix(ts: seq<Token>, pos: nat, x: seq<Token>, t: Token, y: seq<Token>)
    requires At(ts, pos, x + [t] + y)
    ensures At(ts, pos, x) && pos + |x| < |ts| && ts[pos + |x|] == t && At(ts, pos + |x| + 1, y)
  {
    AtConcat(ts, pos, x + [t], y);
    AtConcat(ts, pos, x, [t]);
    AtSingle(ts, pos + |x|, t);
  }

  // One step of each parsing function, as used by the round-trip proof below.

  lemma SumFirst(ts: seq<Token>, pos: nat, first: Expr, p: nat)
    requires pos <= |ts| && ParseTerm(ts, pos) == Some((first, p))
    ensures ParseSum(ts, pos) == ParseSumRest(ts, first, p)
  {
  }

  lemma SumRestStep(ts: seq<Token>, acc: Expr, pos: nat, right: Expr, end: nat)
    requires pos < |ts| && AdditiveOp(ts[pos]).Some?
    requires ParseTerm(ts, pos + 1) == Some((right, end))
    ensures ParseSumRest(ts, acc, pos) == ParseSumRest(ts, Binary(AdditiveOp(ts[pos]).value, acc, right), end)
  {
  }

  lemma SumRestStop(ts: seq<Token>, acc: Expr, pos: nat)
    requires pos <= |ts|
    requires pos == |ts| || AdditiveOp(ts[pos]).None?
    ensures ParseSumRest(ts, acc, pos) == Some((acc, pos))
  {
  }

  lemma TermFirst(ts: seq<Token>, pos: nat, first: Expr, p: nat)
    requires pos <= |ts| && ParseFactor(ts, pos) == Some((first, p))
    ensures ParseTerm(ts, pos) == ParseTermRest(ts, first, p)
  {
  }

  lemma TermRestStep(ts: seq<Token>, acc: Expr, pos: nat, right: Expr, end: nat)
    requires pos < |ts| && MultiplicativeOp(ts[pos]).Some?
    requires ParseFactor(ts, pos + 1) == Some((right, end))
    ensures ParseTermRest(ts, acc, pos) == ParseTermRest(ts, Binary(MultiplicativeOp(ts[pos]).value, acc, right), end)
  {
  }

  lemma TermRestStop(ts: seq<Token>, acc: Expr, pos: nat)
    requires pos <= |ts|
    requires pos == |ts| || MultiplicativeOp(ts[pos]).None?
    ensures ParseTermRest(ts, acc, pos) == Some((acc, pos))
  {
  }

  lemma FactorSign(ts: seq<Token>, pos: nat, operand: Expr, end: nat)
    requires pos < |ts| && SignOp(ts[pos]).Some?
    requires ParseFactor(ts, pos + 1) == Some((operand, end))
    ensures ParseFactor(ts, pos) == Some((Unary(SignOp(ts[pos]).value, operand), end))
  {
  }

  lemma FactorAtom(ts: seq<Token>, pos: nat)
    requires pos <= |ts|
    requires pos == |ts| || SignOp(ts[pos]).None?
    ensures ParseFactor(ts, pos) == ParseAtom(ts, pos)
  {
  }

  lemma AtomParenthesised(ts: seq<Token>, pos: nat, inner: Expr, close: nat)
    requires pos + 1 < |ts| && ts[pos] == LParen && ts[pos + 1] != RParen
    requires ParseSum(ts, pos + 1) == Some((inner, close))
    requires close < |ts| && ts[close] == RParen
    ensures ParseAtom(ts, pos) == Some((inner, close + 1))
  {
  }

  /** Parsing at the factor level reads back what FactorTokens printed. */
  lemma {:induction false} ParseFactorTokens(e: Expr, ts: seq<Token>, pos: nat)
    requires At(ts, pos, FactorTokens(e))
    ensures ParseFactor(ts, pos) == Some((e, pos + |FactorTokens(e)|))
    decreases e, 0
  {
    var end := pos + |FactorTokens(e)|;
    match e
    case Lit(n) =>
      AtSingle(ts, pos, Number(n));
      FactorAtom(ts, pos);
    case EmptyParens =>
      assert ts[pos + 0] == FactorTokens(e)[0] == LParen;
      assert ts[pos + 1] == FactorTokens(e)[1] == RParen;
      FactorAtom(ts, pos);
    case Unary(op, x) =>
      AtConcat(ts, pos, [SignToken(op)], FactorTokens(x));
      AtSingle(ts, pos, SignToken(op));
      ParseFactorTokens(x, ts, pos + 1);
      OperatorTokens(Add, op);
      FactorSign(ts, pos, x, end);
    case Binary(_, _, _) =>
      FactorParenthesised(e, ts, pos);
  }

  /** The binary case of ParseFactorTokens: a parenthesised sum or term. */
  lemma {:induction false} FactorParenthesised(e: Expr, ts: seq<Token>, pos: nat)
    requires e.Binary?
    requires At(ts, pos, FactorTokens(e))
    ensures ParseFactor(ts, pos) == Some((e, pos + |FactorTokens(e)|))
    decreases e, 0, 1
  {
    var close := pos + |FactorTokens(e)| - 1;
    Brackets(e, ts, pos);
    if IsAdditive(e.op) {
      SumAdditive(e, ts, pos + 1);
    } else {
      TermMultiplicative(e, ts, pos + 1);
      TermRestStop(ts, e, close);
      SumFirst(ts, pos + 1, e, close);
    }
    SumRestStop(ts, e, close);
    AtomParenthesised(ts, pos, e, close);
    FactorAtom(ts, pos);
  }

  /** Where the brackets and the sum between them lie in a printed binary factor. */
  lemma Brackets(e: Expr, ts: seq<Token>, pos: nat)
    requires e.Binary?
    requires At(ts, pos, FactorTokens(e))
    ensures |FactorTokens(e)| == |SumTokens(e)| + 2
    ensures ts[pos] == LParen && ts[pos + 1] != RParen
    ensures At(ts, pos + 1, SumTokens(e))
    ensures ts[pos + 1 + |SumTokens(e)|] == RParen
    ensures !IsAdditive(e.op) ==> SumTokens(e) == TermTokens(e)
  {
    var Binary(op, l, r) := e;
    var inner := SumTokens(e);
    if IsAdditive(op) {
      assert inner == SumTokens(l) + [OpToken(op)] + TermTokens(r);
    } else {
      assert inner == TermTokens(e) == TermTokens(l) + [OpToken(op)] + FactorTokens(r);
    }
    assert FactorTokens(e) == [LParen] + inner + [RParen];
    AtInfix(ts, pos, [LParen] + inner, RParen, []);
    AtConcat(ts, pos, [LParen], inner);
    AtSingle(ts, pos, LParen);
    assert ts[pos + 1] == inner[0] by {
      assert ts[pos + 1 + 0] == inner[0];
    }
  }

  /** The multiplicative case of ParseTermTokens, shared with ParseFactorTokens. */
  lemma {:induction false} TermMultiplicative(e: Expr, ts: seq<Token>, pos: nat)
    requires e.Binary? && !IsAdditive(e.op)
    requires At(ts, pos, TermTokens(e))
    ensures ParseTerm(ts, pos) == ParseTermRest(ts, e, pos + |TermTokens(e)|)
    decreases e, 0, 0
  {
    var end := pos + |TermTokens(e)|;
    var Binary(op, l, r) := e;
    assert TermTokens(e) == TermTokens(l) + [OpToken(op)] + FactorTokens(r);
    AtInfix(ts, pos, TermTokens(l), OpToken(op), FactorTokens(r));
    var k := pos + |TermTokens(l)|;
    assert end == k + 1 + |FactorTokens(r)|;
    ParseTermTokens(l, ts, pos);
    ParseFactorTokens(r, ts, k + 1);
    OperatorTokens(op, Pos);
    TermRestStep(ts, l, k, r, end);
  }

  /** The additive case of ParseSumTokens, shared with ParseFactorTokens. */
  lemma {:induction false} SumAdditive(e: Expr, ts: seq<Token>, pos: nat)
    requires e.Binary? && IsAdditive(e.op)
    requires At(ts, pos, SumTokens(e))
    requires pos + |SumTokens(e)| == |ts| || MultiplicativeOp(ts[pos + |SumTokens(e)|]).None?
    ensures ParseSum(ts, pos) == ParseSumRest(ts, e, pos + |SumTokens(e)|)
    decreases e, 0, 0
  {
    var end := pos + |SumTokens(e)|;
    var Binary(op, l, r) := e;
    assert SumTokens(e) == SumTokens(l) + [OpToken(op)] + TermTokens(r);
    AtInfix(ts, pos, SumTokens(l), OpToken(op), TermTokens(r));
    var k := pos + |SumTokens(l)|;
    assert end == k + 1 + |TermTokens(r)|;
    OperatorTokens(op, Pos);
    ParseSumTokens(l, ts, pos);
    ParseTermTokens(r, ts, k + 1);
    TermRestStop(ts, r, end);
    SumRestStep(ts, l, k, r, end);
  }

  /** Parsing a term from where TermTokens printed e reaches e, then goes on with the tail. */
  lemma {:induction false} ParseTermTokens(e: Expr, ts: seq<Token>, pos: nat)
    requires At(ts, pos, TermTokens(e))
    ensures ParseTerm(ts, pos) == ParseTermRest(ts, e, pos + |TermTokens(e)|)
    decreases e, 1
  {
    if e.Binary? && !IsAdditive(e.op) {
      TermMultiplicative(e, ts, pos);
    } else {
      ParseFactorTokens(e, ts, pos);
      TermFirst(ts, pos, e, pos + |TermTokens(e)|);
    }
  }

  /**
    Parsing a sum from where SumTokens printed e reaches e, then goes on with the
    tail, provided no multiplicative operator follows (it would bind the last term).
   */
  lemma {:induction false} ParseSumTokens(e: Expr, ts: seq<Token>, pos: nat)
    requires At(ts, pos, SumTokens(e))
    requires pos + |SumTokens(e)| == |ts| || MultiplicativeOp(ts[pos + |SumTokens(e)|]).None?
    ensures ParseSum(ts, pos) == ParseSumRest(ts, e, pos + |SumTokens(e)|)
    decreases e, 2
  {
    var end := pos + |SumTokens(e)|;
    if e.Binary? && IsAdditive(e.op) {
      SumAdditive(e, ts, pos);
    } else {
      ParseTermTokens(e, ts, pos);
      TermRestStop(ts, e, end);
      SumFirst(ts, pos, e, end);
    }
  }

  /**
    The parser is a left inverse of the printer. Since the printer omits every
    parenthesis that precedence and left associativity make redundant, this pins
    down both: `a + b * c` reads as a + (b * c), `a - b - c` as (a - b) - c.
   */
  lemma ParseUnparse(e: Expr)
    ensures Parse(Unparse(e)) == Some(e)
  {
    var ts := Unparse(e);
    assert At(ts, 0, ts);
    ParseSumTokens(e, ts, 0);
  }

  /** Every literal in the tree is one the scanner could have produced. */
  predicate ValidLiterals(e: Expr) {
    match e
    case Lit(n) => ValidNumeral(n)
    case EmptyParens => true
    case Unary(_, x) => ValidLiterals(x)
    case Binary(_, l, r) => ValidLiterals(l) && ValidLiterals(r)
  }

  lemma ValidTokensConcat(a: seq<Token>, b: seq<Token>)
    requires ValidTokens(a) && ValidTokens(b)
    ensures ValidTokens(a + b)
  {
    forall k | 0 <= k < |a + b| ensures ValidToken((a + b)[k]) {
      if k >= |a| {
        assert (a + b)[k] == b[k - |a|];
      }
    }
  }

  /** The printer writes valid literals only, at every level. */
  lemma {:induction false} FactorTokensValid(e: Expr)
    requires ValidLiterals(e)
    ensures ValidTokens(FactorTokens(e))
    decreases e, 0
  {
    match e
    case Lit(n) =>
    case EmptyParens =>
    case Unary(op, x) =>
      FactorTokensValid(x);
      ValidTokensConcat([SignToken(op)], FactorTokens(x));
    case Binary(op, l, r) =>
      var inner;
      if IsAdditive(op) {
        SumTokensValid(l);
        TermTokensValid(r);
        ValidTokensConcat(SumTokens(l), [OpToken(op)]);
        inner := SumTokens(l) + [OpToken(op)] + TermTokens(r);
        ValidTokensConcat(SumTokens(l) + [OpToken(op)], TermTokens(r));
      } else {
        TermTokensValid(l);
        FactorTokensValid(r);
        ValidTokensConcat(TermTokens(l), [OpToken(op)]);
        inner := TermTokens(l) + [OpToken(op)] + FactorTokens(r);
        ValidTokensConcat(TermTokens(l) + [OpToken(op)], FactorTokens(r));
      }
      ValidTokensConcat([LParen], inner);
      ValidTokensConcat([LParen] + inner, [RParen]);
  }

  lemma {:induction false} TermTokensValid(e: Expr)
    requires ValidLiterals(e)
    ensures ValidTokens(TermTokens(e))
    decreases e, 1
  {
    if e.Binary? && !IsAdditive(e.op) {
      TermTokensValid(e.left);
      FactorTokensValid(e.right);
      ValidTokensConcat(TermTokens(e.left), [OpToken(e.op)]);
      ValidTokensConcat(TermTokens(e.left) + [OpToken(e.op)], FactorTokens(e.right));
    } else {
      FactorTokensValid(e);
    }
  }

  lemma {:induction false} SumTokensValid(e: Expr)
    requires ValidLiterals(e)
    ensures ValidTokens(SumTokens(e))
    decreases e, 2
  {
    if e.Binary? && IsAdditive(e.op) {
      SumTokensValid(e.left);
      TermTokensValid(e.right);
      ValidTokensConcat(SumTokens(e.left), [OpToken(e.op)]);
      ValidTokensConcat(SumTokens(e.left) + [OpToken(e.op)], TermTokens(e.right));
    } else {
      TermTokensValid(e);
    }
  }

  /** A literal prints as its own token at every level. */
  lemma LitTokens(n: Numeral)
    ensures SumTokens(Lit(n)) == TermTokens(Lit(n)) == FactorTokens(Lit(n)) == [Number(n)]
  {
  }

  /** `a op b` is the one operation on the two literals, at either level. */
  lemma SingleOperator(a: Numeral, b: Numeral, op: BinaryOp)
    ensures Parse([Number(a), OpToken(op), Number(b)]) == Some(Binary(op, Lit(a), Lit(b)))
  {
    LitTokens(a);
    LitTokens(b);
    var e := Binary(op, Lit(a), Lit(b));
    if IsAdditive(op) {
      assert Unparse(e) == [Number(a)] + [OpToken(op)] + [Number(b)];
    } else {
      assert Unparse(e) == TermTokens(e) == [Number(a)] + [OpToken(op)] + [Number(b)];
    }
    assert Unparse(e) == [Number(a), OpToken(op), Number(b)];
    ParseUnparse(e);
  }

  /** `a + b * c`, `a - b // c`, ...: the multiplicative operator binds tighter. */
  lemma MultiplicativeBindsTighter(a: Numeral, b: Numeral, c: Numeral, add: BinaryOp, mul: BinaryOp)
    requires IsAdditive(add) && !IsAdditive(mul)
    ensures Parse([Number(a), OpToken(add), Number(b), OpToken(mul), Number(c)])
         == Some(Binary(add, Lit(a), Binary(mul, Lit(b), Lit(c))))
    ensures Parse([Number(a), OpToken(mul), Number(b), OpToken(add), Number(c)])
         == Some(Binary(add, Binary(mul, Lit(a), Lit(b)), Lit(c)))
  {
    LitTokens(a);
    LitTokens(b);
    LitTokens(c);
    var bc := Binary(mul, Lit(b), Lit(c));
    assert TermTokens(bc) == [Number(b), OpToken(mul), Number(c)];
    var e1 := Binary(add, Lit(a), bc);
    assert Unparse(e1) == [Number(a)] + [OpToken(add)] + TermTokens(bc);
    assert Unparse(e1) == [Number(a), OpToken(add), Number(b), OpToken(mul), Number(c)];
    ParseUnparse(e1);
    var ab := Binary(mul, Lit(a), Lit(b));
    assert SumTokens(ab) == TermTokens(ab) == [Number(a), OpToken(mul), Number(b)];
    var e2 := Binary(add, ab, Lit(c));
    assert Unparse(e2) == SumTokens(ab) + [OpToken(add)] + [Number(c)];
    assert Unparse(e2) == [Number(a), OpToken(mul), Number(b), OpToken(add), Number(c)];
    ParseUnparse(e2);
  }

  /** Operators of one level group to the left: `a - b + c` is (a - b) + c. */
  lemma LeftAssociative(a: Numeral, b: Numeral, c: Numeral, op1: BinaryOp, op2: BinaryOp)
    requires IsAdditive(op1) == IsAdditive(op2)
    ensures Parse([Number(a), OpToken(op1), Number(b), OpToken(op2), Number(c)])
         == Some(Binary(op2, Binary(op1, Lit(a), Lit(b)), Lit(c)))
  {
    LitTokens(a);
    LitTokens(b);
    LitTokens(c);
    var ab := Binary(op1, Lit(a), Lit(b));
    var e := Binary(op2, ab, Lit(c));
    if IsAdditive(op1) {
      assert SumTokens(ab) == [Number(a), OpToken(op1), Number(b)];
      assert Unparse(e) == SumTokens(ab) + [OpToken(op2)] + [Number(c)];
    } else {
      assert TermTokens(ab) == [Number(a), OpToken(op1), Number(b)];
      assert Unparse(e) == TermTokens(e) == TermTokens(ab) + [OpToken(op2)] + [Number(c)];
    }
    assert Unparse(e) == [Number(a), OpToken(op1), Number(b), OpToken(op2), Number(c)];
    ParseUnparse(e);
  }

  /** Parentheses override precedence: `(a + b) * c` multiplies the sum. */
  lemma ParenthesesFirst(a: Numeral, b: Numeral, c: Numeral, add: BinaryOp, mul: BinaryOp)
    requires IsAdditive(add) && !IsAdditive(mul)
    ensures Parse([LParen, Number(a), OpToken(add), Number(b), RParen, OpToken(mul), Number(c)])
         == Some(Binary(mul, Binary(add, Lit(a), Lit(b)), Lit(c)))
  {
    LitTokens(a);
    LitTokens(b);
    LitTokens(c);
    var ab := Binary(add, Lit(a), Lit(b));
    assert TermTokens(ab) == FactorTokens(ab) == [LParen, Number(a), OpToken(add), Number(b), RParen];
    var e := Binary(mul, ab, Lit(c));
    assert Unparse(e) == TermTokens(e) == TermTokens(ab) + [OpToken(mul)] + [Number(c)];
    assert Unparse(e) == [LParen, Number(a), OpToken(add), Number(b), RParen, OpToken(mul), Number(c)];
    ParseUnparse(e);
  }
}
