/**
  The lexical layer of the expression evaluator: the character allow-list that
  guards it, numeric literals, and the scanner that turns an expression into
  tokens the way Python's tokenizer does for this character set.
 */
module Lexer {
  import opened Options

  /** The only characters an expression may contain. */
  const ALLOWED_CHARS: set<char> :=
    {'0', '1', '2', '3', '4', '5', '6', '7', '8', '9', '+', '-', '*', '/', '.', '(', ')', ' '}

  /** Every character of `s` is on the allow-list. */
  predicate AllAllowed(s: string) {
    forall i :: 0 <= i < |s| ==> s[i] in ALLOWED_CHARS
  }

  /** The allow-list is exactly the characters of the string `allowed_chars` is built from. */
  lemma AllowList()
    ensures forall c :: c in ALLOWED_CHARS <==> c in "0123456789+-*/.() "
  {
  }

  /** The check is per character: a concatenation passes exactly when both parts do. */
  lemma AllowedConcat(a: string, b: string)
    ensures AllAllowed(a + b) <==> AllAllowed(a) && AllAllowed(b)
  {
    if AllAllowed(a + b) {
      forall k | 0 <= k < |a| ensures a[k] in ALLOWED_CHARS {
        assert a[k] == (a + b)[k];
      }
      forall k | 0 <= k < |b| ensures b[k] in ALLOWED_CHARS {
        assert b[k] == (a + b)[|a| + k];
      }
    }
    if AllAllowed(a) && AllAllowed(b) {
      forall k | 0 <= k < |a + b| ensures (a + b)[k] in ALLOWED_CHARS {
        if k < |a| {
          assert (a + b)[k] == a[k];
        } else {
          assert (a + b)[k] == b[k - |a|];
        }
      }
    }
  }

  predicate IsDigit(c: char) {
    '0' <= c <= '9'
  }

  predicate AllDigits(d: string) {
    forall i :: 0 <= i < |d| ==> IsDigit(d[i])
  }

  predicate AllZeros(d: string) {
    forall i :: 0 <= i < |d| ==> d[i] == '0'
  }

  /**
    A decimal literal as written: the digits before the point, whether there is a
    point, and the digits after it (empty when there is no point).
   */
  datatype Numeral = Numeral(whole: string, point: bool, fraction: string)

  /**
    Python's decimal literals over this character set: an integer is a non-empty
    digit run that does not start with `0` unless it is all zeros (`01` is
    refused); a float is `digits.digits` where either side may be empty but not
    both (`1.`, `.5`, `01.5`).
   */
  predicate ValidNumeral(n: Numeral) {
    && AllDigits(n.whole)
    && AllDigits(n.fraction)
    && if n.point then
         |n.whole| + |n.fraction| > 0
       else
         |n.fraction| == 0 && |n.whole| > 0 && (n.whole[0] == '0' ==> AllZeros(n.whole))
  }

  function DigitValue(c: char): nat {
    if IsDigit(c) then c as nat - '0' as nat else 0
  }

  /**
    10^k. Its ensures is only the positivity that the divisions by it in
    NumeralValue and NumeralScaled need; DigitsValueBound relates it to digit runs.
   */
  function PowerOfTen(k: nat): (r: nat)
    ensures r >= 1
  {
    if k == 0 then 1 else 10 * PowerOfTen(k - 1)
  }

  /** The natural number a digit run denotes, most significant digit first. */
  function DigitsValue(d: string): nat {
    if d == [] then 0 else 10 * DigitsValue(d[..|d| - 1]) + DigitValue(d[|d| - 1])
  }

  /** A digit run of length k denotes a number below 10^k. */
  lemma {:induction false} DigitsValueBound(d: string)
    ensures DigitsValue(d) < PowerOfTen(|d|)
  {
    if d != [] {
      var init := d[..|d| - 1];
      DigitsValueBound(init);
      assert |init| == |d| - 1;
      assert DigitValue(d[|d| - 1]) <= 9;
      assert DigitsValue(init) + 1 <= PowerOfTen(|d| - 1);
    }
  }

  /** The exact value of a literal, the fraction digits scaled by a power of ten. */
  function NumeralValue(n: Numeral): real {
    DigitsValue(n.whole) as real + DigitsValue(n.fraction) as real / PowerOfTen(|n.fraction|) as real
  }

  /** The value of a concatenation of digit runs: the first run shifted left by the length of the second. */
  lemma {:induction false} DigitsConcat(a: string, b: string)
    ensures DigitsValue(a + b) == DigitsValue(a) * PowerOfTen(|b|) + DigitsValue(b)
    decreases |b|
  {
    if b == [] {
      assert a + b == a;
    } else {
      var b' := b[..|b| - 1];
      var ab, ab' := a + b, a + b';
      assert ab[..|ab| - 1] == ab';
      assert ab[|ab| - 1] == b[|b| - 1];
      var last := DigitValue(b[|b| - 1]);
      assert DigitsValue(ab) == 10 * DigitsValue(ab') + last;
      assert DigitsValue(b) == 10 * DigitsValue(b') + last;
      assert PowerOfTen(|b|) == 10 * PowerOfTen(|b'|);
      DigitsConcat(a, b');
      ShiftByTen(DigitsValue(a), PowerOfTen(|b'|), DigitsValue(b'), last);
    }
  }

  lemma ShiftByTen(x: int, q: int, rest: int, last: int)
    ensures 10 * (x * q + rest) + last == x * (10 * q) + (10 * rest + last)
  {
  }

  /** An int product converts to the real product of the converted factors. */
  lemma ProductAsReal(i: int, j: int)
    ensures (i * j) as real == i as real * j as real
  {
  }

  /**
    A literal's value is its digits read without the point, divided by ten to the
    number of fraction digits: `12.5` is 125 / 10 and `.05` is 5 / 100.
   */
  lemma NumeralScaled(n: Numeral)
    ensures NumeralValue(n) == DigitsValue(n.whole + n.fraction) as real / PowerOfTen(|n.fraction|) as real
  {
    DigitsConcat(n.whole, n.fraction);
    ScaledSum(DigitsValue(n.whole), DigitsValue(n.fraction), PowerOfTen(|n.fraction|), DigitsValue(n.whole + n.fraction));
  }

  /** w + f / k is the integer w * k + f divided by k. */
  lemma ScaledSum(w: int, f: int, k: int, d: int)
    requires k > 0 && d == w * k + f
    ensures w as real + f as real / k as real == d as real / k as real
  {
    var m := w * k;
    ScaleBack(w as real, f as real, k as real);
    ProductAsReal(w, k);
    assert d as real == m as real + f as real;
    assert (w as real + f as real / k as real) * k as real == d as real;
  }

  lemma ScaleBack(w: real, f: real, p: real)
    requires p != 0.0
    ensures (w + f / p) * p == w * p + f
  {
    assert (f / p) * p == f;
  }

  /** The digits before the point are the integer part of the literal's value. */
  lemma NumeralValueFloor(n: Numeral)
    ensures NumeralValue(n).Floor == DigitsValue(n.whole)
    ensures NumeralValue(n) >= 0.0
  {
    DigitsValueBound(n.fraction);
    var w := DigitsValue(n.whole);
    var d := DigitsValue(n.fraction) as real;
    var p := PowerOfTen(|n.fraction|) as real;
    QuotientBelowOne(d, p);
    FloorOfFraction(w, d / p);
  }

  lemma QuotientBelowOne(d: real, p: real)
    requires 0.0 <= d < p
    ensures 0.0 <= d / p < 1.0
  {
  }

  lemma FloorOfFraction(w: int, f: real)
    requires 0.0 <= f < 1.0
    ensures (w as real + f).Floor == w
  {
  }

  datatype Token =
    | Number(numeral: Numeral)
    | Plus
    | Minus
    | Star
    | Slash
    | DoubleSlash
    | DoubleStar
    | LParen
    | RParen

  /** End of the maximal run of digits that starts at i. */
  function DigitsEnd(s: string, i: nat): (j: nat)
    requires i <= |s|
    ensures i <= j <= |s|
    ensures forall k :: i <= k < j ==> IsDigit(s[k])
    ensures j == |s| || !IsDigit(s[j])
    decreases |s| - i
  {
    if i < |s| && IsDigit(s[i]) then DigitsEnd(s, i + 1) else i
  }

  /** A run of digits that is followed by a non-digit ends exactly there. */
  lemma DigitsEndAt(s: string, i: nat, j: nat)
    requires i <= j <= |s|
    requires forall k :: i <= k < j ==> IsDigit(s[k])
    requires j == |s| || !IsDigit(s[j])
    ensures DigitsEnd(s, i) == j
  {
  }

  /** The single-character tokens. */
  function OperatorToken(c: char): Option<Token> {
    match c
    case '+' => Some(Plus)
    case '-' => Some(Minus)
    case '*' => Some(Star)
    case '/' => Some(Slash)
    case '(' => Some(LParen)
    case ')' => Some(RParen)
    case _ => None
  }

  function Prepend(t: Token, rest: Option<seq<Token>>): Option<seq<Token>> {
    match rest
    case None => None
    case Some(ts) => Some([t] + ts)
  }

  /**
    Tokens of s[i..]. Spaces separate tokens and are otherwise ignored; `**` and
    `//` are single tokens; a literal is a digit run, optionally followed by a
    point and a second digit run. None stands for Python's SyntaxError raised by
    the tokenizer (a lone `.`, an integer with a leading zero, a character off the
    allow-list).
   */
  function Scan(s: string, i: nat): (r: Option<seq<Token>>)
    requires i <= |s|
    decreases |s| - i
  {
    if i == |s| then Some([])
    else
      var c := s[i];
      if c == ' ' then Scan(s, i + 1)
      else if IsDigit(c) || c == '.' then
        var j := DigitsEnd(s, i);
        if j < |s| && s[j] == '.' then
          var k := DigitsEnd(s, j + 1);
          if j == i && k == j + 1 then None
          else Prepend(Number(Numeral(s[i..j], true, s[j + 1..k])), Scan(s, k))
        else if s[i] == '0' && !AllZeros(s[i..j]) then None
        else Prepend(Number(Numeral(s[i..j], false, "")), Scan(s, j))
      else if c == '*' && i + 1 < |s| && s[i + 1] == '*' then Prepend(DoubleStar, Scan(s, i + 2))
      else if c == '/' && i + 1 < |s| && s[i + 1] == '/' then Prepend(DoubleSlash, Scan(s, i + 2))
      else
        match OperatorToken(c)
        case None => None
        case Some(t) => Prepend(t, Scan(s, i + 1))
  }

  /**
    The tokens of a whole expression. The tokenizer itself refuses every
    character off the allow-list, every literal it yields is a valid one, and
    the tokens spell out the text once its spaces are left out.
   */
  function Tokenize(s: string): (r: Option<seq<Token>>)
    ensures r.Some? ==> AllAllowed(s) && ValidTokens(r.value) && Unspaced(s, 0) == Joined(r.value)
  {
    ScanValid(s, 0);
    ScanAllowed(s, 0);
    ScanSound(s, 0);
    Scan(s, 0)
  }

  /** The scanner succeeds only on text made of allowed characters. */
  lemma {:induction false} ScanAllowed(s: string, i: nat)
    requires i <= |s|
    ensures Scan(s, i).Some? ==> forall k :: i <= k < |s| ==> s[k] in ALLOWED_CHARS
    decreases |s| - i, 1
  {
    if i < |s| && Scan(s, i).Some? {
      var c := s[i];
      if c == ' ' {
        ScanAllowed(s, i + 1);
      } else if IsDigit(c) || c == '.' {
        NumeralAllowed(s, i);
      } else if c == '*' && i + 1 < |s| && s[i + 1] == '*' {
        ScanAllowed(s, i + 2);
      } else if c == '/' && i + 1 < |s| && s[i + 1] == '/' {
        ScanAllowed(s, i + 2);
      } else {
        ScanAllowed(s, i + 1);
      }
    }
  }

  /** ScanAllowed for text that begins with a literal. */
  lemma {:induction false} NumeralAllowed(s: string, i: nat)
    requires i < |s| && (IsDigit(s[i]) || s[i] == '.') && Scan(s, i).Some?
    ensures forall k :: i <= k < |s| ==> s[k] in ALLOWED_CHARS
    decreases |s| - i, 0
  {
    var j := DigitsEnd(s, i);
    if j < |s| && s[j] == '.' {
      var k := DigitsEnd(s, j + 1);
      assert Scan(s, i) == Prepend(Number(Numeral(s[i..j], true, s[j + 1..k])), Scan(s, k));
      ScanAllowed(s, k);
    } else {
      assert IsDigit(s[i]);
      assert Scan(s, i) == Prepend(Number(Numeral(s[i..j], false, "")), Scan(s, j));
      ScanAllowed(s, j);
    }
  }

  predicate ValidToken(t: Token) {
    t.Number? ==> ValidNumeral(t.numeral)
  }

  predicate ValidTokens(ts: seq<Token>) {
    forall k :: 0 <= k < |ts| ==> ValidToken(ts[k])
  }

  /** Every literal the scanner produces is a valid numeral. */
  lemma {:induction false} ScanValid(s: string, i: nat)
    requires i <= |s|
    ensures Scan(s, i).Some? ==> ValidTokens(Scan(s, i).value)
    decreases |s| - i
  {
    if i < |s| {
      var c := s[i];
      if c == ' ' {
        ScanValid(s, i + 1);
      } else if IsDigit(c) || c == '.' {
        var j := DigitsEnd(s, i);
        if j < |s| && s[j] == '.' {
          var k := DigitsEnd(s, j + 1);
          if !(j == i && k == j + 1) {
            ScanValid(s, k);
          }
        } else if !(s[i] == '0' && !AllZeros(s[i..j])) {
          ScanValid(s, j);
        }
      } else if c == '*' && i + 1 < |s| && s[i + 1] == '*' {
        ScanValid(s, i + 2);
      } else if c == '/' && i + 1 < |s| && s[i + 1] == '/' {
        ScanValid(s, i + 2);
      } else {
        ScanValid(s, i + 1);
      }
    }
  }

  function NumeralText(n: Numeral): string {
    if n.point then n.whole + "." + n.fraction else n.whole
  }

  /** The text of a token. */
  function Lexeme(t: Token): string {
    match t
    case Number(n) => NumeralText(n)
    case Plus => "+"
    case Minus => "-"
    case Star => "*"
    case Slash => "/"
    case DoubleSlash => "//"
    case DoubleStar => "**"
    case LParen => "("
    case RParen => ")"
  }

  /** s[i..] with every space left out. */
  function Unspaced(s: string, i: nat): string
    requires i <= |s|
    decreases |s| - i
  {
    if i == |s| then "" else if s[i] == ' ' then Unspaced(s, i + 1) else [s[i]] + Unspaced(s, i + 1)
  }

  /** The texts of the tokens, one after the other. */
  function Joined(ts: seq<Token>): string {
    if ts == [] then "" else Lexeme(ts[0]) + Joined(ts[1..])
  }

  /** A stretch without spaces is kept whole by Unspaced. */
  lemma {:induction false} UnspacedRun(s: string, i: nat, j: nat)
    requires i <= j <= |s| && forall k :: i <= k < j ==> s[k] != ' '
    ensures Unspaced(s, i) == s[i..j] + Unspaced(s, j)
    decreases j - i
  {
    if i < j {
      UnspacedRun(s, i + 1, j);
      assert s[i..j] == [s[i]] + s[i + 1..j];
    }
  }

  /** One scanning step keeps soundness: the token is the stretch it was read from. */
  lemma PrependSound(s: string, i: nat, j: nat, t: Token)
    requires i <= j <= |s| && forall k :: i <= k < j ==> s[k] != ' '
    requires Lexeme(t) == s[i..j] && Scan(s, i) == Prepend(t, Scan(s, j))
    requires Scan(s, j).Some? ==> Unspaced(s, j) == Joined(Scan(s, j).value)
    ensures Scan(s, i).Some? ==> Unspaced(s, i) == Joined(Scan(s, i).value)
  {
    if Scan(s, j).Some? {
      var rest := Scan(s, j).value;
      UnspacedRun(s, i, j);
      assert ([t] + rest)[1..] == rest;
    }
  }

  /**
    The scanner is sound: when it accepts s[i..], the text with its spaces left
    out is exactly the tokens' texts in order. No character is dropped, none is
    invented, and a literal is read as the digits and point it was written with.
   */
  lemma {:induction false} ScanSound(s: string, i: nat)
    requires i <= |s|
    ensures Scan(s, i).Some? ==> Unspaced(s, i) == Joined(Scan(s, i).value)
    decreases |s| - i, 1
  {
    if i < |s| && Scan(s, i).Some? {
      var c := s[i];
      if c == ' ' {
        ScanSound(s, i + 1);
      } else if IsDigit(c) || c == '.' {
        NumeralSound(s, i);
      } else {
        OperatorSound(s, i);
      }
    }
  }

  /** ScanSound for text that begins with a literal. */
  lemma {:induction false} NumeralSound(s: string, i: nat)
    requires i < |s| && (IsDigit(s[i]) || s[i] == '.')
    ensures Scan(s, i).Some? ==> Unspaced(s, i) == Joined(Scan(s, i).value)
    decreases |s| - i, 0
  {
    var j := DigitsEnd(s, i);
    if j < |s| && s[j] == '.' {
      var k := DigitsEnd(s, j + 1);
      if !(j == i && k == j + 1) {
        var t := Number(Numeral(s[i..j], true, s[j + 1..k]));
        assert Scan(s, i) == Prepend(t, Scan(s, k));
        ScanSound(s, k);
        PointLexeme(s, i, j, k);
        PrependSound(s, i, k, t);
      }
    } else if !(s[i] == '0' && !AllZeros(s[i..j])) {
      var t := Number(Numeral(s[i..j], false, ""));
      assert Scan(s, i) == Prepend(t, Scan(s, j));
      ScanSound(s, j);
      PrependSound(s, i, j, t);
    }
  }

  /** A literal with a point is the stretch from its first digit to its last. */
  lemma PointLexeme(s: string, i: nat, j: nat, k: nat)
    requires i <= j < k <= |s| && s[j] == '.'
    requires forall m :: i <= m < j ==> IsDigit(s[m])
    requires forall m :: j + 1 <= m < k ==> IsDigit(s[m])
    ensures s[i..k] == s[i..j] + "." + s[j + 1..k]
    ensures forall m :: i <= m < k ==> s[m] != ' '
  {
    assert s[i..k] == s[i..j] + s[j..j + 1] + s[j + 1..k];
  }

  /** ScanSound for text that begins with an operator or a parenthesis. */
  lemma {:induction false} OperatorSound(s: string, i: nat)
    requires i < |s| && s[i] != ' ' && !IsDigit(s[i]) && s[i] != '.'
    ensures Scan(s, i).Some? ==> Unspaced(s, i) == Joined(Scan(s, i).value)
    decreases |s| - i, 0
  {
    var c := s[i];
    if c == '*' && i + 1 < |s| && s[i + 1] == '*' {
      assert Scan(s, i) == Prepend(DoubleStar, Scan(s, i + 2));
      assert s[i..i + 2] == "**";
      ScanSound(s, i + 2);
      PrependSound(s, i, i + 2, DoubleStar);
    } else if c == '/' && i + 1 < |s| && s[i + 1] == '/' {
      assert Scan(s, i) == Prepend(DoubleSlash, Scan(s, i + 2));
      assert s[i..i + 2] == "//";
      ScanSound(s, i + 2);
      PrependSound(s, i, i + 2, DoubleSlash);
    } else if OperatorToken(c).Some? {
      var t := OperatorToken(c).value;
      assert Scan(s, i) == Prepend(t, Scan(s, i + 1));
      assert Lexeme(t) == s[i..i + 1] == [c];
      ScanSound(s, i + 1);
      PrependSound(s, i, i + 1, t);
    }
  }

  function Gap(spaced: bool): string {
    if spaced then " " else ""
  }

  /**
    Writes tokens back as text; spaced[k] says whether a space follows the k-th
    token.
   */
  function Layout(ts: seq<Token>, spaced: seq<bool>): string
    requires |spaced| == |ts|
  {
    if ts == [] then "" else Lexeme(ts[0]) + Gap(spaced[0]) + Layout(ts[1..], spaced[1..])
  }

  function AllSpaced(n: nat): (r: seq<bool>)
    ensures |r| == n && forall k :: 0 <= k < n ==> r[k]
  {
    seq(n, _ => true)
  }

  /** The plainest layout: every token followed by one space. */
  function Render(ts: seq<Token>): string {
    Layout(ts, AllSpaced(|ts|))
  }

  lemma LexemeAllowed(t: Token)
    requires ValidToken(t)
    ensures |Lexeme(t)| > 0 && AllAllowed(Lexeme(t))
  {
    if t.Number? {
      var n := t.numeral;
      forall i | 0 <= i < |n.whole| ensures n.whole[i] in ALLOWED_CHARS {
        assert IsDigit(n.whole[i]);
      }
      forall i | 0 <= i < |n.fraction| ensures n.fraction[i] in ALLOWED_CHARS {
        assert IsDigit(n.fraction[i]);
      }
    }
  }

  /** Laid-out tokens use only allowed characters. */
  lemma {:induction false} LayoutAllowed(ts: seq<Token>, spaced: seq<bool>)
    requires |spaced| == |ts| && ValidTokens(ts)
    ensures AllAllowed(Layout(ts, spaced))
    decreases |ts|
  {
    if ts != [] {
      var t := ts[0];
      assert ValidToken(t);
      ValidTokensTail(ts);
      LayoutAllowed(ts[1..], spaced[1..]);
      LexemeAllowed(t);
      var lex := Lexeme(t);
      var gap := Gap(spaced[0]);
      var rest := Layout(ts[1..], spaced[1..]);
      var s := lex + gap + rest;
      forall i | 0 <= i < |s| ensures s[i] in ALLOWED_CHARS {
        if i < |lex| {
          assert s[i] == lex[i];
        } else if i < |lex| + |gap| {
          assert s[i] == ' ';
        } else {
          assert s[i] == rest[i - |lex| - |gap|];
        }
      }
    }
  }

  lemma RenderAllowed(ts: seq<Token>)
    requires ValidTokens(ts)
    ensures AllAllowed(Render(ts))
  {
    LayoutAllowed(ts, AllSpaced(|ts|));
  }

  /**
    The character at j (if any) cannot extend a token t that ends there: no digit
    after a literal, no point after an integer, no second `*` or `/`.
   */
  predicate Delimits(t: Token, s: string, j: nat)
    requires j <= |s|
  {
    j == |s| ||
    match t
    case Number(n) => !IsDigit(s[j]) && (n.point || s[j] != '.')
    case Star => s[j] != '*'
    case Slash => s[j] != '/'
    case _ => true
  }

  /** Scanning a numeral's text followed by a delimiter reads that numeral back. */
  lemma ScanNumeral(s: string, i: nat, n: Numeral)
    requires ValidNumeral(n)
    requires i + |NumeralText(n)| <= |s|
    requires s[i..i + |NumeralText(n)|] == NumeralText(n)
    requires Delimits(Number(n), s, i + |NumeralText(n)|)
    ensures DigitsEnd(s, i) == i + |n.whole|
    ensures Scan(s, i) == Prepend(Number(n), Scan(s, i + |NumeralText(n)|))
  {
    WholeDigits(s, i, n);
    if n.point {
      ScanFloat(s, i, n);
    } else {
      ScanInteger(s, i, n);
    }
  }

  /** The digits before the point are where the numeral's text puts them. */
  lemma WholeDigits(s: string, i: nat, n: Numeral)
    requires ValidNumeral(n)
    requires i + |NumeralText(n)| <= |s|
    requires s[i..i + |NumeralText(n)|] == NumeralText(n)
    ensures i + |n.whole| <= |s|
    ensures forall k :: i <= k < i + |n.whole| ==> IsDigit(s[k])
    ensures s[i..i + |n.whole|] == n.whole
  {
    var text := NumeralText(n);
    var j := i + |n.whole|;
    forall k | i <= k < j ensures IsDigit(s[k]) {
      assert s[k] == text[k - i] == n.whole[k - i];
    }
    assert s[i..j] == n.whole by {
      assert text[..|n.whole|] == n.whole;
    }
  }

  lemma ScanFloat(s: string, i: nat, n: Numeral)
    requires ValidNumeral(n) && n.point
    requires i + |NumeralText(n)| <= |s|
    requires s[i..i + |NumeralText(n)|] == NumeralText(n)
    requires Delimits(Number(n), s, i + |NumeralText(n)|)
    requires forall k :: i <= k < i + |n.whole| ==> IsDigit(s[k])
    requires s[i..i + |n.whole|] == n.whole
    ensures DigitsEnd(s, i) == i + |n.whole|
    ensures Scan(s, i) == Prepend(Number(n), Scan(s, i + |NumeralText(n)|))
  {
    var j := i + |n.whole|;
    FractionDigits(s, i, n);
    DigitsEndAt(s, i, j);
    DigitsEndAt(s, j + 1, i + |NumeralText(n)|);
  }

  /** The point and the digits after it are where the numeral's text puts them. */
  lemma FractionDigits(s: string, i: nat, n: Numeral)
    requires ValidNumeral(n) && n.point
    requires i + |NumeralText(n)| <= |s|
    requires s[i..i + |NumeralText(n)|] == NumeralText(n)
    ensures i + |n.whole| + 1 + |n.fraction| == i + |NumeralText(n)|
    ensures s[i + |n.whole|] == '.'
    ensures forall m :: i + |n.whole| + 1 <= m < i + |NumeralText(n)| ==> IsDigit(s[m])
    ensures s[i + |n.whole| + 1..i + |NumeralText(n)|] == n.fraction
  {
    var text := NumeralText(n);
    var j := i + |n.whole|;
    var k := j + 1 + |n.fraction|;
    assert s[j] == text[|n.whole|] == '.';
    forall m | j + 1 <= m < k ensures IsDigit(s[m]) {
      assert s[m] == text[m - i] == n.fraction[m - j - 1];
    }
    assert s[j + 1..k] == n.fraction by {
      assert text[|n.whole| + 1..] == n.fraction;
    }
  }

  lemma ScanInteger(s: string, i: nat, n: Numeral)
    requires ValidNumeral(n) && !n.point
    requires i + |NumeralText(n)| <= |s|
    requires Delimits(Number(n), s, i + |NumeralText(n)|)
    requires forall k :: i <= k < i + |n.whole| ==> IsDigit(s[k])
    requires s[i..i + |n.whole|] == n.whole
    ensures DigitsEnd(s, i) == i + |n.whole|
    ensures Scan(s, i) == Prepend(Number(n), Scan(s, i + |NumeralText(n)|))
  {
    var j := i + |n.whole|;
    assert j == i + |NumeralText(n)|;
    DigitsEndAt(s, i, j);
    if s[i] == '0' {
      assert n.whole[0] == '0';
    }
  }

  /** A token's text followed by a delimiter scans as that token. */
  lemma ScanToken(s: string, i: nat, t: Token)
    requires ValidToken(t)
    requires i + |Lexeme(t)| <= |s|
    requires s[i..i + |Lexeme(t)|] == Lexeme(t)
    requires Delimits(t, s, i + |Lexeme(t)|)
    ensures Scan(s, i) == Prepend(t, Scan(s, i + |Lexeme(t)|))
  {
    if t.Number? {
      ScanNumeral(s, i, t.numeral);
    } else {
      ScanOperator(s, i, t);
    }
  }

  lemma ScanOperator(s: string, i: nat, t: Token)
    requires !t.Number?
    requires i + |Lexeme(t)| <= |s|
    requires s[i..i + |Lexeme(t)|] == Lexeme(t)
    requires Delimits(t, s, i + |Lexeme(t)|)
    ensures Scan(s, i) == Prepend(t, Scan(s, i + |Lexeme(t)|))
  {
    var lex := Lexeme(t);
    assert s[i] == lex[0];
    if |lex| == 2 {
      assert s[i + 1] == lex[1];
    }
  }

  lemma ValidTokensTail(ts: seq<Token>)
    requires ts != [] && ValidTokens(ts)
    ensures ValidTokens(ts[1..])
  {
    forall k | 0 <= k < |ts[1..]| ensures ValidToken(ts[1..][k]) {
      assert ts[1..][k] == ts[k + 1];
    }
  }

  lemma SpaceDelimits(t: Token, s: string, j: nat)
    requires j < |s| && s[j] == ' '
    ensures Delimits(t, s, j)
  {
  }

  /** No token is glued to the one after it where the layout leaves out the space. */
  predicate Apart(ts: seq<Token>, spaced: seq<bool>)
    requires |spaced| == |ts|
  {
    forall k :: 0 <= k < |ts| - 1 && !spaced[k] ==> Delimits(ts[k], Lexeme(ts[k + 1]), 0)
  }

  lemma ApartTail(ts: seq<Token>, spaced: seq<bool>)
    requires |spaced| == |ts| && ts != [] && Apart(ts, spaced)
    ensures Apart(ts[1..], spaced[1..])
  {
    forall k | 0 <= k < |ts| - 2 && !spaced[1..][k]
      ensures Delimits(ts[1..][k], Lexeme(ts[1..][k + 1]), 0)
    {
      assert spaced[1..][k] == spaced[k + 1];
      assert ts[1..][k] == ts[k + 1] && ts[1..][k + 1] == ts[k + 2];
    }
  }

  /** Where the first token's text and the rest of the layout lie, for a first token and its gap. */
  lemma LayoutFirst(ts: seq<Token>, spaced: seq<bool>, s: string, i: nat)
    requires |spaced| == |ts| && ts != [] && i <= |s| && s[i..] == Layout(ts, spaced)
    ensures var g := |Gap(spaced[0])|;
      && i + |Lexeme(ts[0])| + g <= |s|
      && s[i..i + |Lexeme(ts[0])| + g] == Lexeme(ts[0]) + Gap(spaced[0])
      && s[i + |Lexeme(ts[0])| + g..] == Layout(ts[1..], spaced[1..])
  {
    var head := Lexeme(ts[0]) + Gap(spaced[0]);
    var rest := Layout(ts[1..], spaced[1..]);
    assert s[i..] == head + rest;
    assert s[i..i + |head|] == head by {
      assert s[i..][..|head|] == head;
    }
    assert s[i + |head|..] == rest by {
      assert s[i..][|head|..] == rest;
    }
  }

  /** The text of a first token, read off the text of it and its gap. */
  lemma HeadText(s: string, i: nat, lex: string, spaced: bool)
    requires i + |lex| + |Gap(spaced)| <= |s| && s[i..i + |lex| + |Gap(spaced)|] == lex + Gap(spaced)
    ensures s[i..i + |lex|] == lex
    ensures spaced ==> s[i + |lex|] == ' '
  {
    var head := lex + Gap(spaced);
    assert s[i..i + |lex|] == head[..|lex|];
    if spaced {
      assert s[i + |lex|] == head[|lex|];
    }
  }

  /** Where no space is left, the first character of the next token delimits the previous one. */
  lemma GluedDelimits(ts: seq<Token>, spaced: seq<bool>, s: string, j: nat)
    requires |spaced| == |ts| && |ts| >= 2 && Apart(ts, spaced) && !spaced[0]
    requires ValidToken(ts[1])
    requires j <= |s| && s[j..] == Layout(ts[1..], spaced[1..])
    ensures Delimits(ts[0], s, j)
  {
    LexemeAllowed(ts[1]);
    var lex := Lexeme(ts[1]);
    assert s[j..] == lex + Gap(spaced[1]) + Layout(ts[2..], spaced[2..]) by {
      assert ts[1..][0] == ts[1] && spaced[1..][0] == spaced[1];
      assert ts[1..][1..] == ts[2..] && spaced[1..][1..] == spaced[2..];
    }
    assert s[j] == s[j..][0] == lex[0];
    assert Delimits(ts[0], lex, 0);
  }

  /**
    Scanning is a left inverse of laying out, for tokens with valid literals:
    spaces are insignificant wherever leaving them out glues no two tokens.
   */
  lemma {:induction false} ScanLayout(ts: seq<Token>, spaced: seq<bool>, s: string, i: nat)
    requires |spaced| == |ts| && ValidTokens(ts) && Apart(ts, spaced)
    requires i <= |s| && s[i..] == Layout(ts, spaced)
    ensures Scan(s, i) == Some(ts)
    decreases |ts|
  {
    if ts == [] {
      assert i == |s|;
    } else {
      var t := ts[0];
      var n := |Lexeme(t)|;
      var j := i + n + |Gap(spaced[0])|;
      LayoutFirst(ts, spaced, s, i);
      HeadText(s, i, Lexeme(t), spaced[0]);
      ValidTokensTail(ts);
      ApartTail(ts, spaced);
      ScanLayout(ts[1..], spaced[1..], s, j);
      FirstDelimits(ts, spaced, s, i);
      ScanFirst(t, s, i, spaced[0], ts[1..]);
      assert [t] + ts[1..] == ts;
    }
  }

  /** In a layout, the first token's text is followed by a delimiter. */
  lemma FirstDelimits(ts: seq<Token>, spaced: seq<bool>, s: string, i: nat)
    requires |spaced| == |ts| && ts != [] && ValidTokens(ts) && Apart(ts, spaced)
    requires i <= |s| && s[i..] == Layout(ts, spaced)
    ensures i + |Lexeme(ts[0])| <= |s| && Delimits(ts[0], s, i + |Lexeme(ts[0])|)
  {
    var n := |Lexeme(ts[0])|;
    var j := i + n + |Gap(spaced[0])|;
    LayoutFirst(ts, spaced, s, i);
    HeadText(s, i, Lexeme(ts[0]), spaced[0]);
    if spaced[0] {
      SpaceDelimits(ts[0], s, i + n);
    } else if |ts| >= 2 {
      assert ValidToken(ts[1]);
      GluedDelimits(ts, spaced, s, j);
    }
  }

  /** One token of a layout: its text, a delimiter, possibly a space, then the rest. */
  lemma ScanFirst(t: Token, s: string, i: nat, spaced: bool, rest: seq<Token>)
    requires ValidToken(t)
    requires i + |Lexeme(t)| + |Gap(spaced)| <= |s|
    requires s[i..i + |Lexeme(t)|] == Lexeme(t)
    requires spaced ==> s[i + |Lexeme(t)|] == ' '
    requires Delimits(t, s, i + |Lexeme(t)|)
    requires Scan(s, i + |Lexeme(t)| + |Gap(spaced)|) == Some(rest)
    ensures Scan(s, i) == Some([t] + rest)
  {
    var j := i + |Lexeme(t)|;
    assert Scan(s, j) == Some(rest);
    ScanToken(s, i, t);
  }

  /** A run of spaces of any length, leading or between tokens, is skipped. */
  lemma {:induction false} SkipSpaces(s: string, i: nat, j: nat)
    requires i <= j <= |s| && forall k :: i <= k < j ==> s[k] == ' '
    ensures Scan(s, i) == Scan(s, j)
    decreases j - i
  {
    if i < j {
      SkipSpaces(s, i + 1, j);
    }
  }

  /** The whole-string form of ScanLayout. */
  lemma TokenizeLayout(ts: seq<Token>, spaced: seq<bool>)
    requires |spaced| == |ts| && ValidTokens(ts) && Apart(ts, spaced)
    ensures Tokenize(Layout(ts, spaced)) == Some(ts)
  {
    var s := Layout(ts, spaced);
    assert s[0..] == s;
    ScanLayout(ts, spaced, s, 0);
  }

  /** Scanning is a left inverse of rendering. */
  lemma TokenizeRender(ts: seq<Token>)
    requires ValidTokens(ts)
    ensures Tokenize(Render(ts)) == Some(ts)
  {
    TokenizeLayout(ts, AllSpaced(|ts|));
  }

  /**
    The conditions of TokenizeLayout, one token at a time: each literal is valid
    and each token without a space after it is delimited by the next token's text.
   */
  predicate WellLaidOut(ts: seq<Token>, spaced: seq<bool>)
    requires |spaced| == |ts|
    decreases |ts|
  {
    || ts == []
    || (&& ValidToken(ts[0])
        && (|ts| == 1 || spaced[0] || Delimits(ts[0], Lexeme(ts[1]), 0))
        && WellLaidOut(ts[1..], spaced[1..]))
  }

  lemma {:induction false} WellLaidOutApart(ts: seq<Token>, spaced: seq<bool>)
    requires |spaced| == |ts| && WellLaidOut(ts, spaced)
    ensures ValidTokens(ts) && Apart(ts, spaced)
    decreases |ts|
  {
    if ts != [] {
      WellLaidOutApart(ts[1..], spaced[1..]);
      forall k | 0 <= k < |ts| ensures ValidToken(ts[k]) {
        if k > 0 { assert ts[k] == ts[1..][k - 1]; }
      }
      forall k | 0 <= k < |ts| - 1 && !spaced[k] ensures Delimits(ts[k], Lexeme(ts[k + 1]), 0) {
        if k > 0 { assert ts[k] == ts[1..][k - 1] && ts[k + 1] == ts[1..][k] && spaced[k] == spaced[1..][k - 1]; }
      }
    }
  }

  /** A well laid out token list is allowed text that scans back to the same tokens. */
  lemma TokenizeWellLaidOut(ts: seq<Token>, spaced: seq<bool>)
    requires |spaced| == |ts| && WellLaidOut(ts, spaced)
    ensures AllAllowed(Layout(ts, spaced))
    ensures Tokenize(Layout(ts, spaced)) == Some(ts)
  {
    WellLaidOutApart(ts, spaced);
    TokenizeLayout(ts, spaced);
    LayoutAllowed(ts, spaced);
  }
}
