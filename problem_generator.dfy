/**
 Problem generation: an operator and two operand draws give a problem and its
 correct answer.

 The random choices (the operator and the two `randint` draws) are the
 parameters; `DrawInRange` says what `randint` can return for each operator.
 Division is `round(a / b, 2)`, kept exactly in hundredths: the quotient is
 rounded to the nearest hundredth, and a quotient lying exactly half-way
 between two hundredths (with operands in [1, 12] only a / 8 for odd a, which
 a binary float holds exactly) goes to the even hundredth, as Python's
 `round` does for exactly representable ties.
 */
module Problems {
  import opened AnswerText

  datatype Operator = Add | Sub | Mul | Div

  /** A generated problem: the operator, the operands as shown (after the
      subtraction swap) and the correct answer. */
  datatype Problem = Problem(op: Operator, operand1: int, operand2: int, answer: Answer)

  /** What the two `randint` draws can return: [0, 49] for + and -,
      [1, 12] for × and ÷. */
  predicate DrawInRange(op: Operator, x: int, y: int) {
    if op == Add || op == Sub then 0 <= x <= 49 && 0 <= y <= 49
    else 1 <= x <= 12 && 1 <= y <= 12
  }

  function Abs(x: int): nat {
    if x < 0 then -x else x
  }

  /** `h` is `n / d` rounded to a whole number, ties to even: `h` is within half
      of one unit of the quotient, strictly so unless `h` is even. */
  ghost predicate IsRoundedHalfEven(n: int, d: int, h: int) {
    2 * Abs(h * d - n) < d || (2 * Abs(h * d - n) == d && h % 2 == 0)
  }

  /** `n / d` rounded to a whole number, ties to even. */
  function RoundHalfEven(n: nat, d: nat): (h: nat)
    requires d > 0
    ensures IsRoundedHalfEven(n, d, h)
  {
    var q, r := n / d, n % d;
    assert n == q * d + r;
    MulNext(q, d);
    if 2 * r < d then q
    else if 2 * r > d then q + 1
    else if q % 2 == 0 then q
    else q + 1
  }

  lemma MulDistributes(a: int, b: int, d: int)
    ensures (a - b) * d == a * d - b * d
  {
  }

  lemma MulNext(a: int, d: int)
    ensures (a + 1) * d == a * d + d
  {
  }

  lemma MulAtLeastTwice(k: int, d: int)
    requires k >= 2 && d > 0
    ensures k * d >= 2 * d
  {
  }

  /** Rounding half to even has one answer: nothing else satisfies
      `IsRoundedHalfEven`. */
  lemma RoundHalfEvenUnique(n: nat, d: nat, k: int)
    requires d > 0 && IsRoundedHalfEven(n, d, k)
    ensures k == RoundHalfEven(n, d)
  {
    var h := RoundHalfEven(n, d);
    if k >= h + 2 {
      MulDistributes(k, h, d);
      MulAtLeastTwice(k - h, d);
    } else if h >= k + 2 {
      MulDistributes(h, k, d);
      MulAtLeastTwice(h - k, d);
    } else if k == h + 1 {
      MulNext(h, d);
    } else if h == k + 1 {
      MulNext(k, d);
    }
  }

  /** `round(a / b, 2)` in hundredths: a / b rounded to the nearest
      hundredth, ties to the even one. */
  function DivisionHundredths(a: nat, b: nat): (h: nat)
    requires b > 0
    ensures IsRoundedHalfEven(100 * a, b, h)
  {
    RoundHalfEven(100 * a, b)
  }

  /** The same in real numbers: the answer of a division is within half a
      hundredth of the exact quotient. */
  lemma DivisionWithinHalfHundredth(a: nat, b: nat)
    requires b > 0
    ensures var q := (a as real) / (b as real);
      var v := (DivisionHundredths(a, b) as real) / 100.0;
      q - 0.005 <= v <= q + 0.005
  {
    var h := DivisionHundredths(a, b);
    var e := h * b - 100 * a;
    assert 2 * Abs(e) <= b;
    var br, q, v := b as real, (a as real) / (b as real), (h as real) / 100.0;
    assert q * br == a as real;
    assert v * br == ((h * b) as real) / 100.0;
    assert (v - q) * br == v * br - q * br;
    RealBound(v - q, br, e as real);
  }

  lemma RealBound(x: real, b: real, e: real)
    requires b > 0.0 && x * b == e / 100.0
    requires -b <= 2.0 * e <= b
    ensures -0.005 <= x <= 0.005
  {
  }

  /** With operands in [1, 12] a quotient lies exactly half-way between two
      hundredths only for a / 8 with a odd (0.125, 0.375, ...). */
  lemma TiesOnlyAtEighths(a: int, b: int)
    requires 1 <= a <= 12 && 1 <= b <= 12
    ensures 2 * ((100 * a) % b) == b <==> b == 8 && a % 2 == 1
  {
    if b == 8 {
      assert (100 * a) % 8 == (4 * a) % 8;
    }
  }

  /** What the source promises of a problem it generates: operands in the
      operator's range, a subtraction never below zero, and the answer is the
      exact value of "operand1 op operand2" for +, - and ×, and that quotient
      rounded to hundredths, ties to even, for ÷. */
  ghost predicate Correct(p: Problem) {
    DrawInRange(p.op, p.operand1, p.operand2) &&
    match p.op
    case Add => p.answer == Int(p.operand1 + p.operand2)
    case Sub => p.operand1 >= p.operand2 && p.answer == Int(p.operand1 - p.operand2)
    case Mul => p.answer == Int(p.operand1 * p.operand2)
    case Div => p.answer.Float? && IsRoundedHalfEven(100 * p.operand1, p.operand2, p.answer.hundredths)
  }

  /** `generate_problem`, given the operator and the two draws: subtraction
      swaps the draws so that the larger comes first; the shown operands are
      the draws themselves, possibly swapped. */
  function Generate(op: Operator, x: int, y: int): (p: Problem)
    requires DrawInRange(op, x, y)
    ensures p.op == op && Correct(p)
    ensures multiset{p.operand1, p.operand2} == multiset{x, y}
    ensures op != Sub ==> p.operand1 == x && p.operand2 == y
  {
    match op
    case Add => Problem(Add, x, y, Int(x + y))
    case Sub =>
      if y > x then Problem(Sub, y, x, Int(y - x)) else Problem(Sub, x, y, Int(x - y))
    case Mul => Problem(Mul, x, y, Int(x * y))
    case Div => Problem(Div, x, y, Float(DivisionHundredths(x, y)))
  }

  /** Every correct problem is the one `Generate` makes from its own operands
      (for subtraction, from either order of the draws). */
  lemma CorrectIsGenerated(p: Problem)
    requires Correct(p)
    ensures Generate(p.op, p.operand1, p.operand2) == p
    ensures p.op == Sub ==> Generate(Sub, p.operand2, p.operand1) == p
  {
    if p.op == Div {
      RoundHalfEvenUnique(100 * p.operand1, p.operand2, p.answer.hundredths);
    }
  }

  lemma MulMono(x: int, y: int, z: int)
    requires x >= 0 && y <= z
    ensures x * y <= x * z
  {
  }

  /** A rounded quotient of operands in [1, 12] lies in [8, 1200] hundredths. */
  lemma DivisionBounds(a: int, b: int, h: int)
    requires 1 <= a <= 12 && 1 <= b <= 12 && IsRoundedHalfEven(100 * a, b, h)
    ensures 8 <= h <= 1200
  {
    assert 2 * (h * b) >= 200 * a - b && 2 * (h * b) <= 200 * a + b;
    if h < 8 {
      MulMono(b, h, 7);
    } else if h > 1200 {
      MulMono(b, 1201, h);
    }
  }

  lemma MulBound(x: int, y: int)
    requires 1 <= x <= 12 && 1 <= y <= 12
    ensures 1 <= x * y <= 144
  {
    assert x * y <= 12 * y;
  }

  /** The ranges of the answers: + gives [0, 98], - gives [0, 49], × gives
      [1, 144], and ÷ gives [0.08, 12.0]. */
  lemma AnswerBounds(p: Problem)
    requires Correct(p)
    ensures p.op == Add ==> p.answer.Int? && p.answer.n <= 98
    ensures p.op == Sub ==> p.answer.Int? && p.answer.n <= 49
    ensures p.op == Mul ==> p.answer.Int? && 1 <= p.answer.n <= 144
    ensures p.op == Div ==> p.answer.Float? && 8 <= p.answer.hundredths <= 1200
  {
    var a, b := p.operand1, p.operand2;
    match p.op
    case Add =>
    case Sub =>
    case Mul => MulBound(a, b);
    case Div => DivisionBounds(a, b, p.answer.hundredths);
  }

  /** Quotients half-way between two hundredths go to the even one. */
  lemma DivisionTieExamples()
    ensures Generate(Div, 1, 8).answer == Float(12)
    ensures Generate(Div, 3, 8).answer == Float(38)
    ensures Generate(Div, 5, 8).answer == Float(62)
    ensures Generate(Div, 7, 8).answer == Float(88)
  {
  }

  /** Other quotients go to the nearest hundredth. */
  lemma DivisionNearestExamples()
    ensures Generate(Div, 1, 3).answer == Float(33)
    ensures Generate(Div, 2, 3).answer == Float(67)
    ensures Generate(Div, 7, 4).answer == Float(175)
    ensures Generate(Div, 1, 12).answer == Float(8)
    ensures Generate(Div, 12, 1).answer == Float(1200)
  {
  }

  /** "2" is wrong for 4 ÷ 2 (printed "2.0"), and "7.0" is wrong for 3 + 4
      (printed "7"). */
  lemma TextMismatchExamples()
    ensures Text(Generate(Div, 4, 2).answer) != "2"
    ensures Text(Generate(Add, 3, 4).answer) == "7"
    ensures Text(Generate(Add, 3, 4).answer) != "7.0"
    ensures Text(Generate(Mul, 9, 9).answer) == "81"
  {
    assert Generate(Div, 4, 2).answer == Float(200);
  }
}
