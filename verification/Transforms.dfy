/** Reference frames and modulation arithmetic: field-oriented/src/utils/math.rs.

    The square root of three is a parameter `r`, of which only `IsRoot3` is assumed. */
module Transforms {
  import opened Reals

  datatype SinCos = SinCos(sin: real, cos: real)
  {
    predicate Unit() {
      Square(cos) + Square(sin) == 1.0
    }
  }

  datatype ClarkPark = ClarkPark(d: real, q: real)
  {
    function Norm2(): real {
      Square(d) + Square(q)
    }
  }

  datatype AlphaBeta = AlphaBeta(alpha: real, beta: real)
  {
    function Norm2(): real {
      Square(alpha) + Square(beta)
    }
  }

  datatype Phases = Phases(u: real, v: real, w: real)

  predicate IsRoot3(r: real) {
    r > 0.0 && Square(r) == 3.0
  }

  /** The constant the forward transform uses for two thirds. */
  const TWO_THIRDS := 0.666667

  function ForwardClarke(x: Phases, r: real): AlphaBeta
    requires r != 0.0
  {
    AlphaBeta(TWO_THIRDS * (x.u - 0.5 * (x.v + x.w)), (x.v - x.w) / r)
  }

  function ForwardPark(x: AlphaBeta, sc: SinCos): ClarkPark {
    ClarkPark(Mul(sc.cos, x.alpha) + Mul(sc.sin, x.beta), Mul(sc.cos, x.beta) - Mul(sc.sin, x.alpha))
  }

  function InversePark(x: ClarkPark, sc: SinCos): AlphaBeta {
    AlphaBeta(Mul(sc.cos, x.d) - Mul(sc.sin, x.q), Mul(sc.sin, x.d) + Mul(sc.cos, x.q))
  }

  function InverseClarke(x: AlphaBeta, r: real): Phases {
    Phases(x.alpha, -0.5 * x.alpha + r / 2.0 * x.beta, -0.5 * x.alpha - r / 2.0 * x.beta)
  }

  function InverseClarkPark(x: ClarkPark, sc: SinCos, r: real): Phases {
    Phases(
      sc.cos * x.d - sc.sin * x.q,
      (-0.5 * sc.cos + r / 2.0 * sc.sin) * x.d + (0.5 * sc.sin + r / 2.0 * sc.cos) * x.q,
      (-0.5 * sc.cos - r / 2.0 * sc.sin) * x.d + (0.5 * sc.sin - r / 2.0 * sc.cos) * x.q)
  }

  function Min3(a: real, b: real, c: real): (m: real)
    ensures m <= a && m <= b && m <= c && (m == a || m == b || m == c)
  {
    var m := if a < b then a else b;
    if m < c then m else c
  }

  function Max3(a: real, b: real, c: real): (m: real)
    ensures m >= a && m >= b && m >= c && (m == a || m == b || m == c)
  {
    var m := if a > b then a else b;
    if m > c then m else c
  }

  function Max2(a: real, b: real): real {
    if a > b then a else b
  }

  function Clamp(x: real, lo: real, hi: real): (y: real)
    ensures lo <= hi ==> lo <= y <= hi
    ensures lo <= x <= hi ==> y == x
  {
    if x < lo then lo else if x > hi then hi else x
  }

  // ---- The rotations are isometries and inverses ----

  /** Turning by an angle and back, one component. */
  lemma TurnedBack(c: real, s: real, x: real, y: real)
    ensures Mul(c, Mul(c, x) - Mul(s, y)) + Mul(s, Mul(s, x) + Mul(c, y)) == Mul(Square(c) + Square(s), x)
    ensures Mul(c, Mul(s, x) + Mul(c, y)) - Mul(s, Mul(c, x) - Mul(s, y)) == Mul(Square(c) + Square(s), y)
  {
    MulLinear(c, Mul(c, x), Mul(s, y));
    MulLinear(s, Mul(s, x), Mul(c, y));
    MulLinear(c, Mul(s, x), Mul(c, y));
    MulLinear(s, Mul(c, x), Mul(s, y));
    MulSwap(c, s, x);
    MulSwap(c, s, y);
    MulTwice(c, x);
    MulTwice(s, x);
    MulTwice(c, y);
    MulTwice(s, y);
    MulSum(Square(c), Square(s), x);
    MulSum(Square(c), Square(s), y);
    hide Mul, Square;
  }

  lemma ParkScales(x: ClarkPark, sc: SinCos)
    ensures InversePark(x, sc).Norm2() == Mul(Square(sc.cos) + Square(sc.sin), x.Norm2())
    ensures ForwardPark(InversePark(x, sc), sc).d == Mul(Square(sc.cos) + Square(sc.sin), x.d)
    ensures ForwardPark(InversePark(x, sc), sc).q == Mul(Square(sc.cos) + Square(sc.sin), x.q)
  {
    SquaresOfTurn(sc.cos, sc.sin, x.d, x.q);
    TurnedBack(sc.cos, sc.sin, x.d, x.q);
    hide Square, Mul;
  }

  lemma ParkScalesBack(x: AlphaBeta, sc: SinCos)
    ensures InversePark(ForwardPark(x, sc), sc).alpha == Mul(Square(sc.cos) + Square(sc.sin), x.alpha)
    ensures InversePark(ForwardPark(x, sc), sc).beta == Mul(Square(sc.cos) + Square(sc.sin), x.beta)
  {
    TurnedBack(sc.cos, sc.sin, x.beta, x.alpha);
    hide Square, Mul;
  }

  /** Rotating to the stator frame keeps the magnitude, and rotating back gives the vector again. */
  lemma ParkRoundTrip(x: ClarkPark, sc: SinCos)
    requires sc.Unit()
    ensures ForwardPark(InversePark(x, sc), sc) == x
    ensures InversePark(x, sc).Norm2() == x.Norm2()
  {
    ParkScales(x, sc);
    MulOne(x.d);
    MulOne(x.q);
    MulOne(x.Norm2());
    hide Mul, Square;
  }

  lemma ParkRoundTripBack(x: AlphaBeta, sc: SinCos)
    requires sc.Unit()
    ensures InversePark(ForwardPark(x, sc), sc) == x
  {
    ParkScalesBack(x, sc);
    MulOne(x.alpha);
    MulOne(x.beta);
    hide Mul, Square;
  }

  /** The one-step inverse is the inverse Park transform followed by the inverse Clarke transform. */
  lemma InverseClarkParkComposes(x: ClarkPark, sc: SinCos, r: real)
    ensures InverseClarkPark(x, sc, r) == InverseClarke(InversePark(x, sc), r)
  {
    var a, b := r / 2.0 * sc.sin, r / 2.0 * sc.cos;
    assert InverseClarkPark(x, sc, r).v == InverseClarke(InversePark(x, sc), r).v;
    assert InverseClarkPark(x, sc, r).w == InverseClarke(InversePark(x, sc), r).w;
  }

  /** Phases made from a vector sum to zero, and the forward transform returns the vector, the alpha axis
      longer by one part in two million, the error of its constant. */
  lemma ClarkeRoundTrip(x: AlphaBeta, r: real)
    requires IsRoot3(r)
    ensures var p := InverseClarke(x, r);
            && p.u + p.v + p.w == 0.0
            && ForwardClarke(p, r) == AlphaBeta(1.0000005 * x.alpha, x.beta)
  {
    assert r / 2.0 * x.beta - (-(r / 2.0 * x.beta)) == Mul(r, x.beta);
    MulComm(r, x.beta);
    QuotientOf(x.beta, r);
  }

  // ---- The sector ----

  function VoltageSector(x: AlphaBeta, r: real): int {
    var compare1, compare2, compare3 := x.beta > 0.0, x.beta > Mul(r, x.alpha), x.beta > Mul(-r, x.alpha);
    match (compare3, compare2, compare1)
    case (true, false, true) => 0
    case (true, true, true) => 1
    case (false, true, true) => 2
    case (false, true, false) => 3
    case (false, false, false) => 4
    case (true, false, false) => 5
    case _ => 0
  }

  /** The order of the phases that each sector stands for. */
  predicate Ordered(p: Phases, sector: int) {
    match sector
    case 0 => p.u >= p.v > p.w
    case 1 => p.v > p.u > p.w
    case 2 => p.v > p.w >= p.u
    case 3 => p.w >= p.v > p.u
    case 4 => p.w >= p.u >= p.v
    case 5 => p.u > p.w >= p.v
    case _ => false
  }

  /** The three comparisons compare pairs of phases. */
  lemma ComparisonsComparePhases(x: AlphaBeta, r: real)
    requires IsRoot3(r)
    ensures var p := InverseClarke(x, r);
            && (x.beta > 0.0 <==> p.v > p.w)
            && (x.beta > Mul(r, x.alpha) <==> p.v > p.u)
            && (x.beta > Mul(-r, x.alpha) <==> p.u > p.w)
  {
    var p := InverseClarke(x, r);
    assert p.v - p.w == Mul(r, x.beta);
    assert Mul(2.0, p.v - p.u) == Mul(r, x.beta) - Mul(3.0, x.alpha);
    assert Mul(2.0, p.u - p.w) == Mul(r, x.beta) + Mul(3.0, x.alpha);
    Regroup(r, x);
    MulSign(r, x.beta);
    MulSign(r, x.beta - Mul(r, x.alpha));
    MulSign(r, x.beta - Mul(-r, x.alpha));
    MulSign(2.0, p.v - p.u);
    MulSign(2.0, p.u - p.w);
    hide Mul, Square, InverseClarke;
  }

  lemma Regroup(r: real, x: AlphaBeta)
    requires IsRoot3(r)
    ensures Mul(r, x.beta - Mul(r, x.alpha)) == Mul(r, x.beta) - Mul(3.0, x.alpha)
    ensures Mul(r, x.beta - Mul(-r, x.alpha)) == Mul(r, x.beta) + Mul(3.0, x.alpha)
  {
    assert Mul(r, x.beta - Mul(r, x.alpha)) == Mul(r, x.beta) - Mul(Square(r), x.alpha);
    assert Mul(r, x.beta - Mul(-r, x.alpha)) == Mul(r, x.beta) + Mul(Square(r), x.alpha);
  }

  /** The sector names the order of the three phase voltages, and no voltage reaches the default arm of the
      match: the sector is `s` exactly when the phases are in the order `s` stands for. */
  lemma SectorOrdersPhases(x: AlphaBeta, r: real, sector: int)
    requires IsRoot3(r)
    ensures VoltageSector(x, r) == sector <==> Ordered(InverseClarke(x, r), sector)
  {
    ComparisonsComparePhases(x, r);
    hide Mul, Square, InverseClarke;
  }

  // ---- Linear modulation ----

  /** The largest difference between two phases. */
  function Spread(p: Phases): real {
    Max3(p.u, p.v, p.w) - Min3(p.u, p.v, p.w)
  }

  /** What a difference of phases lacks of the diameter of the circle is a square. */
  lemma DifferencesInCircle(x: AlphaBeta, r: real)
    requires IsRoot3(r)
    ensures var p := InverseClarke(x, r);
            && Mul(3.0, x.Norm2()) - Square(p.v - p.w) == Mul(3.0, Square(x.alpha))
            && Mul(3.0, x.Norm2()) - Square(p.u - p.v) == Square(r / 2.0 * x.alpha + 1.5 * x.beta)
            && Mul(3.0, x.Norm2()) - Square(p.u - p.w) == Square(r / 2.0 * x.alpha - 1.5 * x.beta)
  {
    var p := InverseClarke(x, r);
    assert Square(p.v - p.w) == Mul(Square(r), Square(x.beta));
    assert Square(p.u - p.v) + Square(r / 2.0 * x.alpha + 1.5 * x.beta)
        == Mul(2.25 + Square(r) / 4.0, Square(x.alpha)) + Mul(2.25 + Square(r) / 4.0, Square(x.beta));
    assert Square(p.u - p.w) + Square(r / 2.0 * x.alpha - 1.5 * x.beta)
        == Mul(2.25 + Square(r) / 4.0, Square(x.alpha)) + Mul(2.25 + Square(r) / 4.0, Square(x.beta));
    hide Square;
  }

  lemma DifferenceWithinBus(difference: real, diameter2: real, slack: real, bus: real)
    requires bus >= 0.0 && diameter2 - Square(difference) == Square(slack) && diameter2 <= Square(bus)
    ensures -bus <= difference <= bus
  {
    SquareSign(slack);
    SquareOrder(difference, bus);
    hide Square;
  }

  /** A vector no longer than `bus / sqrt(3)` spreads its phases over no more than the bus. */
  lemma SpreadWithinBus(x: AlphaBeta, bus: real, r: real)
    requires IsRoot3(r) && bus >= 0.0 && Mul(3.0, x.Norm2()) <= Square(bus)
    ensures Spread(InverseClarke(x, r)) <= bus
  {
    var p := InverseClarke(x, r);
    DifferencesInCircle(x, r);
    assert Mul(3.0, Square(x.alpha)) == Square(r * x.alpha) by {
      assert Square(r * x.alpha) == Mul(Square(r), Square(x.alpha));
    }
    hide Square, Mul, InverseClarke;
    DifferenceWithinBus(p.v - p.w, Mul(3.0, x.Norm2()), r * x.alpha, bus);
    DifferenceWithinBus(p.u - p.v, Mul(3.0, x.Norm2()), r / 2.0 * x.alpha + 1.5 * x.beta, bus);
    DifferenceWithinBus(p.u - p.w, Mul(3.0, x.Norm2()), r / 2.0 * x.alpha - 1.5 * x.beta, bus);
    hide *;
    SpreadIsDifference(p);
  }

  lemma SpreadIsDifference(p: Phases)
    ensures Spread(p) == p.u - p.v || Spread(p) == p.v - p.u || Spread(p) == p.u - p.w || Spread(p) == p.w - p.u
         || Spread(p) == p.v - p.w || Spread(p) == p.w - p.v || Spread(p) == 0.0
  {
  }
}
