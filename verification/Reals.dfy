/** Products and squares of reals, named so that proofs can hide them, with the facts the proofs use. */
module Reals {
  function Abs(x: real): (r: real)
    ensures r >= 0.0 && (r == x || r == -x)
  {
    if x < 0.0 then -x else x
  }

  function Mul(x: real, y: real): real {
    x * y
  }

  function Square(x: real): real {
    x * x
  }

  lemma MulSign(x: real, y: real)
    ensures Mul(x, y) > 0.0 <==> (x > 0.0 && y > 0.0) || (x < 0.0 && y < 0.0)
  {
  }

  lemma MulLinear(a: real, u: real, v: real)
    ensures Mul(a, u - v) == Mul(a, u) - Mul(a, v) && Mul(a, u + v) == Mul(a, u) + Mul(a, v) && Mul(a, -u) == -Mul(a, u)
  {
  }

  lemma MulOne(a: real)
    ensures Mul(a, 1.0) == a && Mul(1.0, a) == a
  {
  }

  lemma SquareBelowOne(x: real)
    ensures -1.0 < x < 1.0 ==> Square(x) < 1.0
  {
    if -1.0 < x < 1.0 {
      assert (1.0 - x) * (1.0 + x) > 0.0;
    }
  }

  lemma SquareSign(x: real)
    ensures Square(x) >= 0.0 && (x != 0.0 ==> Square(x) > 0.0)
    ensures Square(0.0) == 0.0
  {
    assert Square(x) == Mul(x, x);
    MulSign(x, x);
    MulZero(x);
    hide Square, Mul;
  }

  /** Squares order magnitudes. */
  lemma SquareOrder(x: real, y: real)
    requires y >= 0.0
    ensures Square(x) <= Square(y) <==> -y <= x <= y
    ensures Square(x) < Square(y) <==> -y < x < y
  {
    assert Square(y) - Square(x) == Mul(y - x, y + x);
    MulSign(y - x, y + x);
    MulSign(y - x, -(y + x));
    MulLinear(y - x, y + x, 0.0);
    SquareSign(x);
    SquareSign(y);
    hide Square, Mul;
  }

  lemma MulZero(x: real)
    ensures Mul(x, 0.0) == 0.0 && Mul(0.0, x) == 0.0
  {
  }

  lemma MulComm(x: real, y: real)
    ensures Mul(x, y) == Mul(y, x)
  {
  }

  lemma SquareMul(x: real, y: real)
    ensures Square(Mul(x, y)) == Mul(Square(x), Square(y))
  {
  }

  lemma ZeroProduct(a: real, b: real)
    requires Mul(a, b) == 0.0 && b != 0.0
    ensures a == 0.0
  {
    MulSign(a, b);
    MulSign(-a, b);
    assert Mul(-a, b) == -Mul(a, b);
    hide Mul;
  }

  /** Division; a zero divisor, for which floats give an infinity or a NaN, is mapped to zero. */
  function Quotient(x: real, y: real): real {
    if y == 0.0 then 0.0 else x / y
  }

  lemma QuotientOf(x: real, d: real)
    requires d != 0.0
    ensures Quotient(Mul(x, d), d) == x
  {
    assert (x * d) / d == x;
  }

  lemma DivMul(a: real, b: real)
    requires b != 0.0
    ensures Mul(b, a / b) == a
  {
  }

  lemma QuotientSign(n: real, d: real)
    requires n > 0.0 && d > 0.0
    ensures Quotient(n, d) > 0.0
  {
  }

  lemma MulNonNegative(x: real, y: real)
    requires x >= 0.0 && y >= 0.0
    ensures Mul(x, y) >= 0.0
  {
  }

  lemma MulSwap(a: real, b: real, x: real)
    ensures Mul(a, Mul(b, x)) == Mul(b, Mul(a, x))
  {
  }

  lemma MulAssoc(a: real, b: real, x: real)
    ensures Mul(Mul(a, b), x) == Mul(a, Mul(b, x))
  {
  }

  lemma MulSum(a: real, b: real, x: real)
    ensures Mul(a + b, x) == Mul(a, x) + Mul(b, x) && Mul(a - b, x) == Mul(a, x) - Mul(b, x)
  {
  }

  lemma MulTwice(a: real, x: real)
    ensures Mul(a, Mul(a, x)) == Mul(Square(a), x)
  {
  }

  lemma MulCross(a: real, x: real, b: real, y: real)
    ensures Mul(Mul(a, x), Mul(b, y)) == Mul(Mul(b, x), Mul(a, y))
  {
  }

  lemma SquareOfSum(x: real, y: real)
    ensures Square(x + y) == Square(x) + Square(y) + 2.0 * Mul(x, y)
    ensures Square(x - y) == Square(x) + Square(y) - 2.0 * Mul(x, y)
  {
  }

  /** The squares of a sum of two products, and of the difference of the crossed ones. */
  lemma SquaresOfTurn(a: real, b: real, x: real, y: real)
    ensures Square(Mul(a, x) - Mul(b, y)) + Square(Mul(b, x) + Mul(a, y))
         == Mul(Square(a) + Square(b), Square(x) + Square(y))
  {
    SquareOfSum(Mul(a, x), Mul(b, y));
    SquareOfSum(Mul(b, x), Mul(a, y));
    MulCross(a, x, b, y);
    SquareMul(a, x);
    SquareMul(b, y);
    SquareMul(b, x);
    SquareMul(a, y);
    MulSum(Square(a), Square(b), Square(x) + Square(y));
    MulLinear(Square(a), Square(x), Square(y));
    MulLinear(Square(b), Square(x), Square(y));
    hide Mul, Square;
  }
}
