/** The Jury stability test for a cubic: field-oriented/src/control/pi_control.rs:182-190.

    Products of reals are named by functions, and the lemmas that combine them hide those functions: each
    nonlinear step is one small lemma. */
module Jury {
  import opened Reals

  function FAt1(a0: real, a1: real, a2: real, a3: real): real {
    a3 + a2 + a1 + a0
  }

  function FAtNeg1(a0: real, a1: real, a2: real, a3: real): real {
    -a3 + a2 - a1 + a0
  }

  /** The two sides of the last condition, before their magnitudes. */
  function LastLeft(a0: real, a3: real): real {
    a0 * a0 - a3 * a3
  }

  function LastRight(a0: real, a1: real, a2: real, a3: real): real {
    a0 * a2 - a3 * a1
  }

  predicate JuryTest(a0: real, a1: real, a2: real, a3: real) {
    && FAt1(a0, a1, a2, a3) > 0.0
    && FAtNeg1(a0, a1, a2, a3) < 0.0
    && Abs(a0) < a3
    && Abs(LastLeft(a0, a3)) > Abs(LastRight(a0, a1, a2, a3))
  }

  /** The coefficients of `a3 (z - rho) (z^2 + p z + q)`. */
  predicate Factors(a0: real, a1: real, a2: real, a3: real, rho: real, p: real, q: real) {
    && a2 == Mul(a3, p - rho)
    && a1 == Mul(a3, q - Mul(rho, p))
    && a0 == -Mul(a3, Mul(rho, q))
  }

  /** All roots of `(z - rho) (z^2 + p z + q)` lie inside the unit circle. */
  predicate Inside(rho: real, p: real, q: real) {
    -1.0 < rho < 1.0 && -1.0 < q < 1.0 && -(1.0 + q) < p < 1.0 + q
  }

  // ---- The test on a monic factorization ----

  /** The value at 1. */
  function AtOne(rho: real, p: real, q: real): real {
    Mul(1.0 - rho, 1.0 + p + q)
  }

  /** Minus the value at -1. */
  function AtMinusOne(rho: real, p: real, q: real): real {
    Mul(1.0 + rho, 1.0 - p + q)
  }

  /** `1 + rho p + rho^2 q`, the reversed quadratic at `rho`. */
  function Reversed(rho: real, p: real, q: real): real {
    1.0 + rho * p + rho * (rho * q)
  }

  function Upper(rho: real, p: real, q: real): real {
    (1.0 + q) * (1.0 - rho * (rho * q)) - rho * p * (1.0 - q)
  }

  /** The right-hand side of the last condition, divided by `a3` twice. */
  function Cross(rho: real, p: real, q: real): real {
    rho * p * (1.0 - q) - (q - rho * (rho * q))
  }

  predicate MonicConditions(rho: real, p: real, q: real) {
    && AtOne(rho, p, q) > 0.0
    && AtMinusOne(rho, p, q) > 0.0
    && -1.0 < Mul(rho, q) < 1.0
    && Mul(1.0 - q, Reversed(rho, p, q)) > 0.0
    && Upper(rho, p, q) > 0.0
  }

  lemma ScaleAbs(a: real, u: real, v: real)
    requires a > 0.0
    ensures Abs(Mul(a, u)) > Abs(Mul(a, v)) <==> Abs(u) > Abs(v)
  {
    MulSign(a, u);
    MulSign(a, v);
    MulSign(a, -u);
    MulSign(a, -v);
    MulSign(a, u - v);
    MulSign(a, u + v);
    MulSign(a, v - u);
    MulSign(a, -u - v);
    MulLinear(a, u, v);
    MulLinear(a, v, u);
    MulLinear(a, -u, v);
    MulLinear(a, -v, -v);
    hide Mul;
  }

  lemma CoefficientsAtOne(a0: real, a1: real, a2: real, a3: real, rho: real, p: real, q: real)
    requires Factors(a0, a1, a2, a3, rho, p, q)
    ensures FAt1(a0, a1, a2, a3) == Mul(a3, AtOne(rho, p, q))
    ensures FAtNeg1(a0, a1, a2, a3) == -Mul(a3, AtMinusOne(rho, p, q))
    ensures a0 == -Mul(a3, Mul(rho, q))
  {
  }

  lemma SquareFactor(a0: real, a3: real, x: real)
    requires a0 == -Mul(a3, x)
    ensures LastLeft(a0, a3) == -Mul(a3, Mul(a3, 1.0 - Square(x)))
  {
  }

  lemma CrossFactor(a0: real, a1: real, a2: real, a3: real, rho: real, p: real, q: real)
    requires Factors(a0, a1, a2, a3, rho, p, q)
    ensures LastRight(a0, a1, a2, a3) == Mul(a3, Mul(a3, Cross(rho, p, q)))
  {
    var x := rho * q;
    assert a0 * a2 == -(a3 * (a3 * (x * (p - rho))));
    assert a3 * a1 == a3 * (a3 * (q - rho * p));
    assert x * (p - rho) == rho * p * q - rho * x;
    assert a3 * (a3 * (x * (p - rho))) + a3 * (a3 * (q - rho * p)) == a3 * (a3 * (x * (p - rho) + (q - rho * p)));
  }

  lemma DifferenceOfSquares(rho: real, p: real, q: real)
    ensures 1.0 - Square(Mul(rho, q)) + Cross(rho, p, q) == Mul(1.0 - q, Reversed(rho, p, q))
    ensures 1.0 - Square(Mul(rho, q)) - Cross(rho, p, q) == Upper(rho, p, q)
  {
    var x := rho * q;
    assert (1.0 - q) * (rho * x) == rho * x - x * x;
  }

  /** Scaling by `a3 > 0`, twice in the last condition, and factoring a difference of squares: with
      `s = 1 - (rho q)^2 > 0` the last condition is `s > |t|`, that is `s + t > 0` and `s - t > 0`. */
  lemma TestIsMonicConditions(a0: real, a1: real, a2: real, a3: real, rho: real, p: real, q: real)
    requires a3 > 0.0 && Factors(a0, a1, a2, a3, rho, p, q)
    ensures JuryTest(a0, a1, a2, a3) <==> MonicConditions(rho, p, q)
  {
    hide LastLeft, LastRight;
    var x, s, t := Mul(rho, q), 1.0 - Square(Mul(rho, q)), Cross(rho, p, q);
    CoefficientsAtOne(a0, a1, a2, a3, rho, p, q);
    SquareFactor(a0, a3, x);
    CrossFactor(a0, a1, a2, a3, rho, p, q);
    LastCondition(a3, LastLeft(a0, a3), LastRight(a0, a1, a2, a3), s, t);
    DifferenceOfSquares(rho, p, q);
    SquareBelowOne(x);
    MulSign(a3, AtOne(rho, p, q));
    MulSign(a3, AtMinusOne(rho, p, q));
    MulSign(a3, 1.0 - x);
    MulSign(a3, 1.0 + x);
    MulLinear(a3, 1.0, x);
    MulOne(a3);
    hide Mul, Factors, FAt1, FAtNeg1, AtOne, AtMinusOne, Reversed, Upper, Square, Cross;
  }

  lemma LastCondition(a3: real, l: real, r: real, s: real, t: real)
    requires a3 > 0.0 && l == -Mul(a3, Mul(a3, s)) && r == Mul(a3, Mul(a3, t))
    ensures s > 0.0 ==> (Abs(l) > Abs(r) <==> s + t > 0.0 && s - t > 0.0)
  {
    ScaleAbs(a3, Mul(a3, s), Mul(a3, t));
    ScaleAbs(a3, s, t);
    hide Mul;
  }

  // ---- The criterion ----

  /** The reversed quadratic at `rho` against its value at the ends of the range of `p`. */
  lemma ReversedBounds(rho: real, p: real, q: real)
    ensures rho > 0.0 && p < -(1.0 + q) ==> Reversed(rho, p, q) < Mul(1.0 - rho, 1.0 - Mul(rho, q))
    ensures rho > 0.0 && p > -(1.0 + q) ==> Reversed(rho, p, q) > Mul(1.0 - rho, 1.0 - Mul(rho, q))
    ensures rho < 0.0 && p > 1.0 + q ==> Reversed(rho, p, q) < Mul(1.0 + rho, 1.0 + Mul(rho, q))
    ensures rho < 0.0 && p < 1.0 + q ==> Reversed(rho, p, q) > Mul(1.0 + rho, 1.0 + Mul(rho, q))
  {
    assert Reversed(rho, p, q) - Mul(1.0 - rho, 1.0 - Mul(rho, q)) == Mul(rho, p + (1.0 + q));
    assert Reversed(rho, p, q) - Mul(1.0 + rho, 1.0 + Mul(rho, q)) == Mul(rho, p - (1.0 + q));
    MulSign(rho, p + (1.0 + q));
    MulSign(-rho, p + (1.0 + q));
    MulSign(rho, p - (1.0 + q));
    MulSign(-rho, p - (1.0 + q));
    assert Mul(-rho, p + (1.0 + q)) == -Mul(rho, p + (1.0 + q)) && Mul(-rho, p - (1.0 + q)) == -Mul(rho, p - (1.0 + q));
    hide Mul, Reversed;
  }

  /** The four conditions place all roots inside the unit circle. */
  lemma MonicConditionsGiveInside(rho: real, p: real, q: real)
    requires MonicConditions(rho, p, q)
    ensures Inside(rho, p, q)
  {
    hide Mul, Reversed, Upper;
    MulSign(1.0 - rho, 1.0 + p + q);
    MulSign(1.0 + rho, 1.0 - p + q);
    MulSign(1.0 - q, Reversed(rho, p, q));
    MulSign(1.0 - rho, 1.0 - Mul(rho, q));
    MulSign(1.0 + rho, 1.0 + Mul(rho, q));
    MulSign(rho - 1.0, 1.0 - Mul(rho, q));
    MulSign(-1.0 - rho, 1.0 + Mul(rho, q));
    ReversedBounds(rho, p, q);
    ProductBelowOne(rho, q);
    ReversedAtZero(p, q);
  }

  lemma ReversedAtZero(p: real, q: real)
    ensures Reversed(0.0, p, q) == 1.0
  {
  }

  lemma ProductBelowOne(rho: real, q: real)
    ensures (rho >= 1.0 || rho <= -1.0) && -1.0 < Mul(rho, q) < 1.0 ==> -1.0 < q < 1.0
    ensures -1.0 < rho < 1.0 && -1.0 < q < 1.0 ==> -1.0 < Mul(rho, q) < 1.0
  {
  }

  /** And the other way round. */
  lemma InsideGivesMonicConditions(rho: real, p: real, q: real)
    requires Inside(rho, p, q)
    ensures MonicConditions(rho, p, q)
  {
    hide Mul, Reversed, Upper;
    MulSign(1.0 - rho, 1.0 + p + q);
    MulSign(1.0 + rho, 1.0 - p + q);
    ProductBelowOne(rho, q);
    MulSign(1.0 - rho, 1.0 - Mul(rho, q));
    MulSign(1.0 + rho, 1.0 + Mul(rho, q));
    ReversedBounds(rho, p, q);
    ReversedAtZero(p, q);
    MulSign(1.0 - q, Reversed(rho, p, q));
    UpperPositive(rho, p, q);
  }

  /** `Upper` is above `(1 + q) (1 - |rho|) (1 + |rho| q)`. */
  lemma UpperPositive(rho: real, p: real, q: real)
    requires Inside(rho, p, q)
    ensures Upper(rho, p, q) > 0.0
  {
    hide Mul;
    var a := Abs(rho);
    UpperBound(rho, p, q);
    ProductBelowOne(a, q);
    MulSign(1.0 - a, 1.0 + Mul(a, q));
    MulSign(1.0 + q, Mul(1.0 - a, 1.0 + Mul(a, q)));
    hide Upper;
  }

  lemma UpperBound(rho: real, p: real, q: real)
    requires Inside(rho, p, q)
    ensures var a := Abs(rho); Upper(rho, p, q) >= Mul(1.0 + q, Mul(1.0 - a, 1.0 + Mul(a, q)))
  {
    var a := Abs(rho);
    UpperExpand(rho, p, q);
    MulSign(a, (1.0 + q) - p);
    MulSign(a, (1.0 + q) + p);
    MulSign(1.0 - q, Mul(a, (1.0 + q) - p));
    MulSign(1.0 - q, Mul(a, (1.0 + q) + p));
    MulZero(1.0 - q);
    MulZero((1.0 + q) - p);
    MulZero((1.0 + q) + p);
    hide Mul, Upper;
  }

  lemma UpperExpand(rho: real, p: real, q: real)
    ensures rho >= 0.0 ==> Upper(rho, p, q) - Mul(1.0 + q, Mul(1.0 - rho, 1.0 + Mul(rho, q))) == Mul(1.0 - q, Mul(rho, (1.0 + q) - p))
    ensures rho < 0.0 ==> Upper(rho, p, q) - Mul(1.0 + q, Mul(1.0 + rho, 1.0 + Mul(-rho, q))) == Mul(1.0 - q, Mul(-rho, (1.0 + q) + p))
  {
  }

  /** The Jury criterion: for a positive leading coefficient and any real factorization, the test accepts
      exactly when all roots lie inside the unit circle. */
  lemma JuryCriterion(a0: real, a1: real, a2: real, a3: real, rho: real, p: real, q: real)
    requires a3 > 0.0 && Factors(a0, a1, a2, a3, rho, p, q)
    ensures JuryTest(a0, a1, a2, a3) <==> Inside(rho, p, q)
  {
    TestIsMonicConditions(a0, a1, a2, a3, rho, p, q);
    if MonicConditions(rho, p, q) {
      MonicConditionsGiveInside(rho, p, q);
    }
    if Inside(rho, p, q) {
      InsideGivesMonicConditions(rho, p, q);
    }
    hide JuryTest, Factors, MonicConditions;
  }
}
