/** The current-loop autotuner: `tune` and the robustness grid of field-oriented/src/control/pi_control.rs. */
module CurrentTuning {
  import opened MotorParameters
  import opened Reals
  import opened Jury
  import opened PiControllers
  import opened PiTuning
  import opened Wrappers
  import C = Complexes

  datatype PITuningFault = MissingMotorParameters | InfeasibleMotorParameters | InvalidTuningGoals | Unstable | NotRobust

  // ---- Placing a pole ----

  function ControllerAt(z: Complex, R: real, c1: real, c2: real): Complex
    requires R != 0.0
  {
    C.Div(C.Real(-1.0), Plant(z, R, c1, c2))
  }

  function PlacedKi(z: Complex, R: real, c1: real, c2: real, T: real): real
    requires R != 0.0
  {
    Quotient(ControllerAt(z, R, c1, c2).im, Integrator(z, T).im)
  }

  function PlacedKp(z: Complex, R: real, c1: real, c2: real, T: real): real
    requires R != 0.0
  {
    ControllerAt(z, R, c1, c2).re - Mul(PlacedKi(z, R, c1, c2, T), Integrator(z, T).re)
  }

  lemma NonRealIsRegular(z: Complex, c2: real)
    requires z.im != 0.0
    ensures Regular(z, c2)
  {
  }

  lemma NumeratorNonZero(z: Complex, c1: real, c2: real)
    requires z.im != 0.0 && c1 != 1.0
    ensures PlantNumerator(z, c1, c2) != C.ZERO
  {
    assert PlantNumerator(z, c1, c2).im == Mul(1.0 - c1, z.im);
    if Mul(1.0 - c1, z.im) == 0.0 {
      ZeroProduct(1.0 - c1, z.im);
    }
    hide Mul, PlantNumerator;
  }

  lemma PlantNonZero(z: Complex, R: real, c1: real, c2: real)
    requires z.im != 0.0 && c1 != 1.0 && R != 0.0
    ensures Plant(z, R, c1, c2) != C.ZERO
  {
    PlantCleared(z, R, c1, c2);
    NumeratorNonZero(z, c1, c2);
    C.MulOne(PlantDenominator(z, R, c2));
    C.MulComm(Plant(z, R, c1, c2), PlantDenominator(z, R, c2));
    hide C.Mul, Plant, PlantDenominator, PlantNumerator;
  }

  /** At a non-real point the integrator is not real, so that a gain on it can set the imaginary part. */
  lemma IntegratorNotReal(z: Complex, T: real)
    requires z.im != 0.0 && T != 0.0
    ensures Integrator(z, T).im != 0.0
  {
    var i := Integrator(z, T);
    SubDiffers(z, C.ONE);
    C.DivMul(C.Scale(T, z), C.Sub(z, C.ONE));
    assert C.Mul(i, C.Sub(z, C.ONE)) == C.Scale(T, z);
    hide Integrator;
    if i.im == 0.0 {
      assert i == C.Real(i.re);
      RealTimesIsScale(i.re, T, z);
    }
  }

  lemma RealTimesIsScale(t: real, T: real, z: Complex)
    requires C.Mul(C.Real(t), C.Sub(z, C.ONE)) == C.Scale(T, z) && z.im != 0.0
    ensures T == 0.0
  {
    assert Mul(t - T, z.im) == 0.0;
    ZeroProduct(t - T, z.im);
  }

  /** The gains make the controller take exactly the value the placed pole asks for. */
  lemma GainsMeetController(z: Complex, R: real, c1: real, c2: real, T: real)
    requires z.im != 0.0 && T != 0.0 && R != 0.0
    ensures Controller(z, T, PlacedKp(z, R, c1, c2, T), PlacedKi(z, R, c1, c2, T)) == ControllerAt(z, R, c1, c2)
  {
    IntegratorNotReal(z, T);
    SplitByGains(ControllerAt(z, R, c1, c2), Integrator(z, T));
    hide ControllerAt, Integrator, C.Add, C.Scale, Mul, Quotient;
  }

  /** A complex number is a real part plus a real multiple of any non-real one. */
  lemma SplitByGains(c: Complex, i: Complex)
    requires i.im != 0.0
    ensures var ki := Quotient(c.im, i.im); C.Add(C.Real(c.re - Mul(ki, i.re)), C.Scale(ki, i)) == c
  {
    assert (c.im / i.im) * i.im == c.im;
  }

  /** Pole placement is exact: the placed pole and its conjugate are roots of the characteristic polynomial. */
  lemma GainsPlacePole(z: Complex, R: real, c1: real, c2: real, T: real)
    requires z.im != 0.0 && T != 0.0 && R != 0.0 && c1 != 1.0
    ensures var c := Coefficients(R, c1, c2, T, PlacedKp(z, R, c1, c2, T), PlacedKi(z, R, c1, c2, T));
            c.At(z) == C.ZERO && c.At(C.Conj(z)) == C.ZERO
  {
    var kp, ki := PlacedKp(z, R, c1, c2, T), PlacedKi(z, R, c1, c2, T);
    var p := Plant(z, R, c1, c2);
    NonRealIsRegular(z, c2);
    PlantNonZero(z, R, c1, c2);
    GainsMeetController(z, R, c1, c2, T);
    ClosedLoopCleared(z, R, c1, c2, T, kp, ki);
    CoefficientsAreCharacteristic(z, R, c1, c2, T, kp, ki);
    C.DivMul(C.Real(-1.0), p);
    C.MulComm(ControllerAt(z, R, c1, c2), p);
    assert C.Add(C.ONE, C.Real(-1.0)) == C.ZERO;
    var d := C.Mul(PlantDenominator(z, R, c2), C.Sub(z, C.ONE));
    C.MulOne(d);
    C.MulComm(C.ZERO, d);
    CubicConj(Coefficients(R, c1, c2, T, kp, ki), z);
    hide C.Mul, C.Div, C.Add, C.Sub, Plant, Controller, PlacedKp, PlacedKi, Characteristic, Coefficients, Cubic.At, PlantDenominator;
  }

  lemma CubicConj(c: Cubic, z: Complex)
    ensures c.At(C.Conj(z)) == C.Conj(c.At(z))
  {
    C.ConjMul(z, z);
    C.ConjMul(C.Mul(z, z), z);
    hide C.Mul;
  }

  // ---- The autotuner ----

  datatype Placement = Placement(pole: Complex, r: real, c1: real, c2: real, omega: real)

  /** Fixed damping ratio. */
  const ZETA: real := 0.70710678

  /** The goal bandwidth, not slower than the plant pole. */
  function Omega(R: real, L: real, bandwidthHz: real, math: Math): real
    requires L != 0.0
  {
    var goal := 2.0 * math.pi * bandwidthHz;
    if goal > R / L then goal else R / L
  }

  function Magnitude(omega: real, T: real, math: Math): real {
    math.exp(-ZETA * omega * T)
  }

  function Angle(omega: real, T: real, math: Math): real {
    omega * math.sqrt(1.0 - ZETA * ZETA) * T
  }

  /** How much of the winding current is left after a time `T`. */
  function Decay(R: real, L: real, T: real, math: Math): real
    requires L != 0.0
  {
    math.exp(Exponent(R, L, T))
  }

  function Exponent(R: real, L: real, T: real): real
    requires L != 0.0
  {
    -(R / L) * T
  }

  function DelayedExponent(R: real, L: real, T: real, m: real): real
    requires L != 0.0
  {
    -(R / L) * m * T
  }

  /** And after the part `m` of it that remains once the delay has passed. */
  function DelayedDecay(R: real, L: real, T: real, m: real, math: Math): real
    requires L != 0.0
  {
    math.exp(DelayedExponent(R, L, T, m))
  }

  /** The goal pole and the plant's exponentials, or why the goal is rejected. */
  function Place(R: real, L: real, T: real, m: real, bandwidthHz: real, math: Math): Result<Placement, PITuningFault>
    requires L != 0.0
  {
    var omega := Omega(R, L, bandwidthHz, math);
    var r, theta := Magnitude(omega, T, math), Angle(omega, T, math);
    if !(0.0 < theta < math.pi) || !(r < 1.0) then Err(Unstable)
    else
      Ok(Placement(C.Complex(Mul(r, math.cos(theta)), Mul(r, math.sin(theta))), r,
                   DelayedDecay(R, L, T, m, math), Decay(R, L, T, math), omega))
  }

  /** The half-power frequency of a second-order system of damping `ZETA`, for a natural frequency of one. */
  function BandwidthRatio(math: Math): real {
    math.sqrt(1.0 - 2.0 * ZETA * ZETA + math.sqrt(4.0 * ZETA * ZETA * ZETA * ZETA - 4.0 * ZETA * ZETA + 2.0))
  }

  function BandwidthHz(omega: real, math: Math): real
    requires math.pi != 0.0
  {
    omega * BandwidthRatio(math) / (2.0 * math.pi)
  }

  /** The pole the delay adds, from the product of the roots. */
  function DelayPole(kp: real, c1: real, c2: real, R: real, r: real): real {
    Quotient(Mul(kp, c1 - c2), Mul(R, Square(r)))
  }

  function Tune(R: real, L: real, T: real, m: real, bandwidthHz: real, math: Math): Result<PIGains, PITuningFault>
    requires R != 0.0 && L != 0.0 && math.pi != 0.0
  {
    match Place(R, L, T, m, bandwidthHz, math)
    case Err(fault) => Err(fault)
    case Ok(placed) =>
      var z, r := placed.pole, placed.r;
      var kp := PlacedKp(z, R, placed.c1, placed.c2, T);
      var ki := PlacedKi(z, R, placed.c1, placed.c2, T);
      if !(kp > 0.0) then Err(InvalidTuningGoals)
      else if !(DelayPole(kp, placed.c1, placed.c2, R, r) < Mul(Square(r), r)) then Err(InvalidTuningGoals)
      else
        Ok(PIGains(Quotient(kp, kp + Mul(T, ki)), kp, ki, 1.0 / kp, BandwidthHz(placed.omega, math)))
  }

  /** The exponentials of a decay rate: positive, ordered and below one. */
  lemma ExpsOrdered(R: real, L: real, T: real, m: real, math: Math)
    requires R > 0.0 && L > 0.0 && T > 0.0 && 0.0 < m < 1.0 && math.Exact()
    ensures 0.0 < Decay(R, L, T, math) < DelayedDecay(R, L, T, m, math) < 1.0
  {
    ExponentsOrdered(R, L, T, m);
    hide Exponent, DelayedExponent;
    assert math.exp(Exponent(R, L, T)) < math.exp(DelayedExponent(R, L, T, m)) < math.exp(0.0);
  }

  lemma ExponentsOrdered(R: real, L: real, T: real, m: real)
    requires R > 0.0 && L > 0.0 && T > 0.0 && 0.0 < m < 1.0
    ensures Exponent(R, L, T) < DelayedExponent(R, L, T, m) < 0.0
  {
    assert R / L > 0.0;
    MulSign(R / L, T);
    MulSign(Mul(R / L, T), m);
    MulSign(Mul(R / L, T), 1.0 - m);
    DelayedIs(R, L, T, m);
    hide Mul, Exponent, DelayedExponent;
  }

  lemma DelayedIs(R: real, L: real, T: real, m: real)
    requires L != 0.0
    ensures Exponent(R, L, T) == -Mul(R / L, T)
    ensures DelayedExponent(R, L, T, m) == -Mul(Mul(R / L, T), m)
    ensures Mul(Mul(R / L, T), 1.0 - m) == Mul(R / L, T) - Mul(Mul(R / L, T), m)
  {
  }

  /** What the checks in `tune` leave of the goal: a pole off the real axis, inside the unit circle. */
  lemma PlacementFacts(R: real, L: real, T: real, m: real, bandwidthHz: real, math: Math)
    requires R > 0.0 && L > 0.0 && T > 0.0 && 0.0 < m < 1.0 && math.Exact()
    requires Place(R, L, T, m, bandwidthHz, math).Ok?
    ensures var p := Place(R, L, T, m, bandwidthHz, math).value;
            && 0.0 < p.c2 < p.c1 < 1.0 && 0.0 < p.r < 1.0
            && p.pole.im > 0.0 && C.Norm2(p.pole) == Square(p.r) && -p.r < p.pole.re < p.r
  {
    hide Omega, Angle, Square, Mul;
    var p := Place(R, L, T, m, bandwidthHz, math).value;
    ExpsOrdered(R, L, T, m, math);
    var theta := Angle(p.omega, T, math);
    assert math.sin(theta) > 0.0 && Square(math.cos(theta)) + Square(math.sin(theta)) == 1.0;
    OnCircle(p.r, math.cos(theta), math.sin(theta));
  }

  lemma OnCircle(r: real, c: real, s: real)
    requires r > 0.0 && s > 0.0 && Square(c) + Square(s) == 1.0
    ensures Mul(r, s) > 0.0 && Square(Mul(r, c)) + Square(Mul(r, s)) == Square(r) && -r < Mul(r, c) < r
  {
    MulSign(r, s);
    SquareMul(r, c);
    SquareMul(r, s);
    MulLinear(Square(r), Square(c), Square(s));
    MulOne(Square(r));
    SquareSign(Mul(r, s));
    SquareOrder(Mul(r, c), r);
    hide Square, Mul;
  }

  /** Both roots of `z^2 - 2 x z + r^2` are inside the unit circle when `|x| < r < 1`. */
  lemma PlacedPairInside(x: real, r: real)
    requires 0.0 < r < 1.0 && -r < x < r
    ensures 0.0 < Square(r) < 1.0 && -(1.0 + Square(r)) < -(2.0 * x) < 1.0 + Square(r)
  {
    SquareSign(r);
    SquareBelowOne(r);
    assert Square(1.0 - r) == 1.0 - 2.0 * r + Square(r);
    SquareSign(1.0 - r);
    hide Square;
  }

  /** The residual root of the characteristic polynomial is the value `tune` computes for the delay pole. */
  lemma ResidualIsDelayPole(z: Complex, r: real, R: real, c1: real, c2: real, T: real, kp: real, ki: real)
    requires z.im != 0.0 && R != 0.0 && r > 0.0 && C.Norm2(z) == Square(r)
    requires Coefficients(R, c1, c2, T, kp, ki).At(z) == C.ZERO
    ensures Factors(A0(c1, c2, kp), A1(R, c1, c2, T, kp, ki), A2(R, c1, c2, T, kp, ki), R,
                    DelayPole(kp, c1, c2, R, r), -(2.0 * z.re), Square(r))
  {
    var c := Coefficients(R, c1, c2, T, kp, ki);
    ComplexRootFactors(c, z);
    var rho := Residual(c, z);
    assert A0(c1, c2, kp) == -Mul(kp, c1 - c2);
    SquareSign(r);
    ProductIs(R, rho, Square(r), Mul(kp, c1 - c2));
    hide Cubic.At, A0, A1, A2, Mul, Square, C.Norm2, Residual;
  }

  lemma ProductIs(R: real, rho: real, q: real, n: real)
    requires R != 0.0 && q != 0.0 && n == Mul(R, Mul(rho, q))
    ensures rho == Quotient(n, Mul(R, q))
  {
    assert n == Mul(rho, Mul(R, q));
    if Mul(R, q) == 0.0 {
      ZeroProduct(R, q);
    }
    QuotientOf(rho, Mul(R, q));
    hide Mul;
  }

  /** The delay pole `tune` lets through lies between 0 and 1. */
  lemma DelayPoleInside(kp: real, c1: real, c2: real, R: real, r: real)
    requires kp > 0.0 && c2 < c1 && R > 0.0 && 0.0 < r < 1.0
    requires DelayPole(kp, c1, c2, R, r) < Mul(Square(r), r)
    ensures 0.0 < DelayPole(kp, c1, c2, R, r) < 1.0
  {
    MulSign(kp, c1 - c2);
    SquareSign(r);
    SquareBelowOne(r);
    MulSign(R, Square(r));
    QuotientSign(Mul(kp, c1 - c2), Mul(R, Square(r)));
    MulSign(1.0 - r, Square(r));
    assert Mul(1.0 - r, Square(r)) == Square(r) - Mul(Square(r), r);
    hide Mul, Square, Quotient;
  }

  /** What an accepted tuning is. The requested pole, its conjugate and the delay pole are the roots of the
      closed loop, all of them inside the unit circle, and the stability test accepts the polynomial. */
  lemma TunedPolesArePlaced(R: real, L: real, T: real, m: real, bandwidthHz: real, math: Math)
    requires R > 0.0 && L > 0.0 && T > 0.0 && 0.0 < m < 1.0 && math.Exact()
    requires Tune(R, L, T, m, bandwidthHz, math).Ok?
    ensures var p := Place(R, L, T, m, bandwidthHz, math).value;
            var g := Tune(R, L, T, m, bandwidthHz, math).value;
            var c := Coefficients(R, p.c1, p.c2, T, g.kp, g.ki);
            var rho := DelayPole(g.kp, p.c1, p.c2, R, p.r);
            && c.At(p.pole) == C.ZERO && c.At(C.Conj(p.pole)) == C.ZERO
            && Factors(c.a0, c.a1, c.a2, c.a3, rho, -(2.0 * p.pole.re), Square(p.r))
            && Inside(rho, -(2.0 * p.pole.re), Square(p.r))
            && c.Stable()
  {
    var p := Place(R, L, T, m, bandwidthHz, math).value;
    var g := Tune(R, L, T, m, bandwidthHz, math).value;
    var c := Coefficients(R, p.c1, p.c2, T, g.kp, g.ki);
    PlacementFacts(R, L, T, m, bandwidthHz, math);
    hide Place, Math.Exact, PlacedKp, PlacedKi, Cubic.At, DelayPole, Mul, Square, C.Norm2, Factors, JuryTest, A0, A1, A2;
    GainsPlacePole(p.pole, R, p.c1, p.c2, T);
    ResidualIsDelayPole(p.pole, p.r, R, p.c1, p.c2, T, g.kp, g.ki);
    DelayPoleInside(g.kp, p.c1, p.c2, R, p.r);
    PlacedPairInside(p.pole.re, p.r);
    JuryCriterion(c.a0, c.a1, c.a2, c.a3, DelayPole(g.kp, p.c1, p.c2, R, p.r), -(2.0 * p.pole.re), Square(p.r));
  }

  // ---- The pole is the one asked for ----

  /** The natural frequency of a tuning: the bandwidth asked for, or the pole of the winding where that is the faster. */
  predicate Frequency(w: real, R: real, L: real, bandwidthHz: real, math: Math)
    requires L != 0.0
  {
    var goal := 2.0 * math.pi * bandwidthHz;
    w >= goal && w >= R / L && (w == goal || w == R / L)
  }

  // The pole of a second-order system of damping `ZETA` and frequency `w`, sampled with the period `T`.

  function SampledRadius(w: real, T: real, math: Math): real {
    math.exp(-ZETA * w * T)
  }

  function SampledAngle(w: real, T: real, math: Math): real {
    w * math.sqrt(1.0 - ZETA * ZETA) * T
  }

  function SampledPole(w: real, T: real, math: Math): Complex {
    var r, theta := SampledRadius(w, T, math), SampledAngle(w, T, math);
    C.Complex(Mul(r, math.cos(theta)), Mul(r, math.sin(theta)))
  }

  /** The characteristic polynomial of the winding with a controller. */
  function LoopCubic(R: real, L: real, T: real, m: real, kp: real, ki: real, math: Math): Cubic
    requires L != 0.0
  {
    Coefficients(R, math.exp(-(R / L) * m * T), math.exp(-(R / L) * T), T, kp, ki)
  }

  /** The gains place that pole and its conjugate, inside the unit circle, with a third root that decays three times as
      fast. */
  predicate Places(w: real, kp: real, ki: real, rho: real, R: real, L: real, T: real, m: real, math: Math)
    requires L != 0.0
  {
    var r, z, c := SampledRadius(w, T, math), SampledPole(w, T, math), LoopCubic(R, L, T, m, kp, ki, math);
    && 0.0 < SampledAngle(w, T, math) < math.pi && r < 1.0 && kp > 0.0
    && c.At(z) == C.ZERO && c.At(C.Conj(z)) == C.ZERO
    && Factors(c.a0, c.a1, c.a2, c.a3, rho, -(2.0 * z.re), Square(r)) && rho < Mul(Square(r), r)
  }

  /** At the angular frequency `b` the gain of a second-order system of damping `ZETA` and frequency `w` is one over the
      square root of two. */
  predicate HalfPower(b: real, w: real) {
    Square(Square(w) - Square(b)) + Mul(4.0 * ZETA * ZETA, Square(Mul(w, b))) == 2.0 * Square(Square(w))
  }

  lemma HalfPowerRoot(k: real, s: real)
    requires Square(s) == k * k / 4.0 - k + 2.0
    ensures var x := 1.0 - k / 2.0 + s; Square(1.0 - x) + Mul(k, x) == 2.0
  {
    var x := 1.0 - k / 2.0 + s;
    assert Square(k / 2.0 - s) == k * k / 4.0 - k * s + Square(s);
    assert Mul(k, x) == k - k * k / 2.0 + k * s;
  }

  lemma HalfPowerScales(w: real, x: real, root: real, k: real)
    requires Square(root) == x && Square(1.0 - x) + Mul(k, x) == 2.0
    ensures var b := Mul(w, root); Square(Square(w) - Square(b)) + Mul(k, Square(Mul(w, b))) == 2.0 * Square(Square(w))
  {
    var b, q := Mul(w, root), Square(w);
    SquareMul(w, root);
    SquareMul(w, b);
    MulTwice(q, x);
    MulLinear(q, 1.0, x);
    MulOne(q);
    SquareMul(q, 1.0 - x);
    MulSwap(k, Square(q), x);
    MulLinear(Square(q), Square(1.0 - x), Mul(k, x));
    MulLinear(Square(q), 1.0, 1.0);
    MulOne(Square(q));
    hide Square, Mul;
  }

  lemma RatioIsHalfPower(math: Math)
    requires math.Exact()
    ensures var x := Square(BandwidthRatio(math)); Square(1.0 - x) + Mul(4.0 * ZETA * ZETA, x) == 2.0
  {
    var k, s := 4.0 * ZETA * ZETA, math.sqrt(4.0 * ZETA * ZETA * ZETA * ZETA - 4.0 * ZETA * ZETA + 2.0);
    HalfPowerRoot(k, s);
    hide Square, Mul;
  }

  lemma BandwidthIsHalfPower(w: real, math: Math)
    requires math.Exact()
    ensures HalfPower(Mul(2.0 * math.pi, BandwidthHz(w, math)), w)
  {
    var root := BandwidthRatio(math);
    RatioIsHalfPower(math);
    HalfPowerScales(w, Square(root), root, 4.0 * ZETA * ZETA);
    DivMul(Mul(w, root), 2.0 * math.pi);
    assert BandwidthHz(w, math) == Mul(w, root) / (2.0 * math.pi);
    hide Square, Mul, BandwidthHz, BandwidthRatio;
  }

  /** The gains that place a pole are the only ones that do. */
  lemma GainsAreUnique(z: Complex, R: real, c1: real, c2: real, T: real, kp: real, ki: real)
    requires z.im != 0.0 && T != 0.0 && R != 0.0 && c1 != 1.0
    requires Coefficients(R, c1, c2, T, kp, ki).At(z) == C.ZERO
    ensures kp == PlacedKp(z, R, c1, c2, T) && ki == PlacedKi(z, R, c1, c2, T)
  {
    var p, c := Plant(z, R, c1, c2), Controller(z, T, kp, ki);
    NonRealIsRegular(z, c2);
    PlantNonZero(z, R, c1, c2);
    IntegratorNotReal(z, T);
    CoefficientsAreCharacteristic(z, R, c1, c2, T, kp, ki);
    ClosedLoopCleared(z, R, c1, c2, T, kp, ki);
    hide Cubic.At, Coefficients, Characteristic, Plant, PlantDenominator;
    NegativeInverse(p, c);
    OneSplit(ControllerAt(z, R, c1, c2), Integrator(z, T), kp, ki);
    hide C.Div, Integrator;
  }

  lemma NegativeInverse(p: Complex, c: Complex)
    requires p != C.ZERO && C.Add(C.ONE, C.Mul(p, c)) == C.ZERO
    ensures c == C.Div(C.Real(-1.0), p)
  {
    C.DivMul(C.Real(-1.0), p);
    C.MulComm(C.Div(C.Real(-1.0), p), p);
    C.MulSub(p, c, C.Div(C.Real(-1.0), p));
    assert C.Mul(p, c) == C.Real(-1.0);
    hide C.Mul, C.Div;
    C.ZeroProduct(p, C.Sub(c, C.Div(C.Real(-1.0), p)));
  }

  /** The split into a real part and a multiple of a non-real number is the only one. */
  lemma OneSplit(c: Complex, i: Complex, kp: real, ki: real)
    requires i.im != 0.0 && C.Add(C.Real(kp), C.Scale(ki, i)) == c
    ensures ki == Quotient(c.im, i.im) && kp == c.re - Mul(ki, i.re)
  {
    assert c.im == Mul(ki, i.im);
    QuotientOf(ki, i.im);
    hide Quotient;
  }

  lemma OneFrequency(w: real, R: real, L: real, bandwidthHz: real, math: Math)
    requires L != 0.0
    ensures Frequency(w, R, L, bandwidthHz, math) <==> w == Omega(R, L, bandwidthHz, math)
  {
  }

  lemma OneThirdRoot(R: real, p: real, rho: real, sigma: real)
    requires R != 0.0 && Mul(R, p - rho) == Mul(R, p - sigma)
    ensures rho == sigma
  {
    MulLinear(R, p - rho, p - sigma);
    MulComm(R, sigma - rho);
    ZeroProduct(sigma - rho, R);
    hide Mul;
  }

  /** An axis is tuned if and only if some gains, with a positive proportional one, place the sampled pole of the
      frequency asked for and leave a third root three times as fast. */
  lemma TuneAcceptsIff(R: real, L: real, T: real, m: real, bandwidthHz: real, math: Math)
    requires R > 0.0 && L > 0.0 && T > 0.0 && 0.0 < m < 1.0 && math.Exact()
    ensures Tune(R, L, T, m, bandwidthHz, math).Ok? <==>
            exists w, kp, ki, rho :: Frequency(w, R, L, bandwidthHz, math) && Places(w, kp, ki, rho, R, L, T, m, math)
  {
    if Tune(R, L, T, m, bandwidthHz, math).Ok? {
      var w, rho := TunedPoleIsRequested(R, L, T, m, bandwidthHz, math);
    }
    if w, kp, ki, rho :| Frequency(w, R, L, bandwidthHz, math) && Places(w, kp, ki, rho, R, L, T, m, math) {
      PlacedIsTuned(w, kp, ki, rho, R, L, T, m, bandwidthHz, math);
    }
  }

  lemma PlacementIs(R: real, L: real, T: real, m: real, bandwidthHz: real, math: Math, w: real)
    requires L != 0.0 && Frequency(w, R, L, bandwidthHz, math)
    ensures Place(R, L, T, m, bandwidthHz, math).Ok? <==>
            0.0 < SampledAngle(w, T, math) < math.pi && SampledRadius(w, T, math) < 1.0
    ensures Place(R, L, T, m, bandwidthHz, math).Ok? ==>
              var p := Place(R, L, T, m, bandwidthHz, math).value;
              && p.omega == w && p.pole == SampledPole(w, T, math) && p.r == SampledRadius(w, T, math)
              && (forall kp, ki :: Coefficients(R, p.c1, p.c2, T, kp, ki) == LoopCubic(R, L, T, m, kp, ki, math))
  {
    OneFrequency(w, R, L, bandwidthHz, math);
    hide Omega, Frequency, Coefficients, Mul;
  }

  /** The gains of an accepted tuning place the pole asked for, and the reported bandwidth is that of this pole. */
  lemma TunedPoleIsRequested(R: real, L: real, T: real, m: real, bandwidthHz: real, math: Math) returns (w: real, rho: real)
    requires R > 0.0 && L > 0.0 && T > 0.0 && 0.0 < m < 1.0 && math.Exact()
    requires Tune(R, L, T, m, bandwidthHz, math).Ok?
    ensures Frequency(w, R, L, bandwidthHz, math)
    ensures var g := Tune(R, L, T, m, bandwidthHz, math).value; Places(w, g.kp, g.ki, rho, R, L, T, m, math)
    ensures HalfPower(Mul(2.0 * math.pi, Tune(R, L, T, m, bandwidthHz, math).value.bandwidthHz), w)
  {
    w := Omega(R, L, bandwidthHz, math);
    hide Place, Tune, Omega, Places, HalfPower, Frequency, BandwidthHz, DelayPole, SampledPole, SampledAngle, SampledRadius, LoopCubic,
         Cubic.At, Inside, Factors, Cubic.Stable, Coefficients, Mul, Square;
    OneFrequency(w, R, L, bandwidthHz, math);
    PlacementIs(R, L, T, m, bandwidthHz, math, w);
    var p, g := TunedShape(R, L, T, m, bandwidthHz, math);
    rho := DelayPole(g.kp, p.c1, p.c2, R, p.r);
    TunedPolesArePlaced(R, L, T, m, bandwidthHz, math);
    PlacesIs(w, g.kp, g.ki, rho, R, L, T, m, math, p);
    BandwidthIsHalfPower(w, math);
  }

  /** What the checks of `Tune` let through. */
  lemma TunedShape(R: real, L: real, T: real, m: real, bandwidthHz: real, math: Math) returns (p: Placement, g: PIGains)
    requires R != 0.0 && L != 0.0 && math.pi != 0.0 && Tune(R, L, T, m, bandwidthHz, math).Ok?
    ensures Place(R, L, T, m, bandwidthHz, math) == Ok(p) && Tune(R, L, T, m, bandwidthHz, math) == Ok(g)
    ensures g.kp > 0.0 && DelayPole(g.kp, p.c1, p.c2, R, p.r) < Mul(Square(p.r), p.r)
    ensures g.bandwidthHz == BandwidthHz(p.omega, math)
  {
    hide Place, PlacedKp, PlacedKi, DelayPole, BandwidthHz, Mul, Square;
    p, g := Place(R, L, T, m, bandwidthHz, math).value, Tune(R, L, T, m, bandwidthHz, math).value;
  }

  lemma PlacesIs(
    w: real, kp: real, ki: real, rho: real, R: real, L: real, T: real, m: real, math: Math, p: Placement)
    requires L != 0.0 && p.r == SampledRadius(w, T, math) && p.pole == SampledPole(w, T, math)
    requires 0.0 < SampledAngle(w, T, math) < math.pi && p.r < 1.0 && kp > 0.0 && rho < Mul(Square(p.r), p.r)
    requires Coefficients(R, p.c1, p.c2, T, kp, ki) == LoopCubic(R, L, T, m, kp, ki, math)
    requires var c := Coefficients(R, p.c1, p.c2, T, kp, ki);
             && c.At(p.pole) == C.ZERO && c.At(C.Conj(p.pole)) == C.ZERO
             && Factors(c.a0, c.a1, c.a2, c.a3, rho, -(2.0 * p.pole.re), Square(p.r))
    ensures Places(w, kp, ki, rho, R, L, T, m, math)
  {
    hide SampledPole, SampledAngle, SampledRadius, LoopCubic, Cubic.At, Factors, Coefficients, Mul, Square;
  }

  lemma PlacedIsTuned(
    w: real, kp: real, ki: real, rho: real, R: real, L: real, T: real, m: real, bandwidthHz: real, math: Math)
    requires R > 0.0 && L > 0.0 && T > 0.0 && 0.0 < m < 1.0 && math.Exact()
    requires Frequency(w, R, L, bandwidthHz, math) && Places(w, kp, ki, rho, R, L, T, m, math)
    ensures var r := Tune(R, L, T, m, bandwidthHz, math); r.Ok? && r.value.kp == kp && r.value.ki == ki
  {
    PlacementIs(R, L, T, m, bandwidthHz, math, w);
    PlacementFacts(R, L, T, m, bandwidthHz, math);
    hide Place, Cubic.At, PlacedKp, PlacedKi, DelayPole, BandwidthHz, Coefficients, Frequency, Factors, SampledPole, SampledAngle,
         SampledRadius, LoopCubic, Mul, Square;
    var p := Place(R, L, T, m, bandwidthHz, math).value;
    GainsAreUnique(p.pole, R, p.c1, p.c2, T, kp, ki);
    ResidualIsLast(p.pole, p.r, R, p.c1, p.c2, T, kp, ki);
    SameThirdRoot(LoopCubic(R, L, T, m, kp, ki, math), rho, DelayPole(kp, p.c1, p.c2, R, p.r), -(2.0 * p.pole.re), Square(p.r), R);
  }

  lemma ResidualIsLast(z: Complex, r: real, R: real, c1: real, c2: real, T: real, kp: real, ki: real)
    requires z.im != 0.0 && R != 0.0 && r > 0.0 && C.Norm2(z) == Square(r)
    requires Coefficients(R, c1, c2, T, kp, ki).At(z) == C.ZERO
    ensures var c := Coefficients(R, c1, c2, T, kp, ki);
            c.a3 == R && Factors(c.a0, c.a1, c.a2, c.a3, DelayPole(kp, c1, c2, R, r), -(2.0 * z.re), Square(r))
  {
    hide Cubic.At, C.Norm2, A0, A1, A2, DelayPole, Factors, Mul, Square;
    ResidualIsDelayPole(z, r, R, c1, c2, T, kp, ki);
  }

  lemma SameThirdRoot(c: Cubic, rho: real, sigma: real, p: real, q: real, R: real)
    requires c.a3 == R != 0.0 && Factors(c.a0, c.a1, c.a2, c.a3, rho, p, q) && Factors(c.a0, c.a1, c.a2, c.a3, sigma, p, q)
    ensures rho == sigma
  {
    OneThirdRoot(c.a3, p, rho, sigma);
    hide Mul;
  }

  /** Of two goals the faster never has the slower pole: it decays at least as fast and turns at least as far. */
  lemma FasterGoalFasterPole(w: real, w': real, R: real, L: real, T: real, slow: real, fast: real, math: Math)
    requires R > 0.0 && L > 0.0 && T > 0.0 && math.Exact() && slow <= fast
    requires Frequency(w, R, L, slow, math) && Frequency(w', R, L, fast, math)
    ensures w <= w' && SampledRadius(w', T, math) <= SampledRadius(w, T, math)
    ensures SampledAngle(w, T, math) <= SampledAngle(w', T, math)
  {
    hide SampledRadius, SampledAngle;
    FasterFrequency(w, w', R, L, slow, fast, math);
    RadiusShrinks(w, w', T, math);
    AngleGrows(w, w', T, math);
  }

  lemma FasterFrequency(w: real, w': real, R: real, L: real, slow: real, fast: real, math: Math)
    requires L != 0.0 && math.pi > 0.0 && slow <= fast
    requires Frequency(w, R, L, slow, math) && Frequency(w', R, L, fast, math)
    ensures w <= w'
  {
    MulNonNegative(2.0 * math.pi, fast - slow);
    assert Mul(2.0 * math.pi, fast - slow) == 2.0 * math.pi * fast - 2.0 * math.pi * slow;
  }

  lemma RadiusShrinks(w: real, w': real, T: real, math: Math)
    requires w <= w' && T > 0.0 && math.Exact()
    ensures SampledRadius(w', T, math) <= SampledRadius(w, T, math)
  {
    MulNonNegative(w' - w, T);
    assert ZETA * Mul(w' - w, T) == -ZETA * w * T - (-ZETA * w' * T);
    var x, y := -ZETA * w * T, -ZETA * w' * T;
    assert y <= x;
    hide Mul;
  }

  lemma AngleGrows(w: real, w': real, T: real, math: Math)
    requires w <= w' && T > 0.0 && math.Exact()
    ensures SampledAngle(w, T, math) <= SampledAngle(w', T, math)
  {
    var root := math.sqrt(1.0 - ZETA * ZETA);
    MulNonNegative(w' - w, root);
    MulNonNegative(Mul(w' - w, root), T);
    MulSum(w', w, root);
    MulSum(Mul(w', root), Mul(w, root), T);
    assert SampledAngle(w, T, math) == Mul(Mul(w, root), T) && SampledAngle(w', T, math) == Mul(Mul(w', root), T);
    hide Mul;
  }

  lemma CoefficientSum(R: real, c1: real, c2: real, T: real, kp: real, ki: real)
    ensures FAt1(A0(c1, c2, kp), A1(R, c1, c2, T, kp, ki), A2(R, c1, c2, T, kp, ki), R) == Mul(1.0 - c2, Mul(T, ki))
  {
  }

  lemma TunedKiPositive(R: real, L: real, T: real, m: real, bandwidthHz: real, math: Math)
    requires R > 0.0 && L > 0.0 && T > 0.0 && 0.0 < m < 1.0 && math.Exact()
    requires Tune(R, L, T, m, bandwidthHz, math).Ok?
    ensures Mul(T, Tune(R, L, T, m, bandwidthHz, math).value.ki) > 0.0
  {
    var p := Place(R, L, T, m, bandwidthHz, math).value;
    var g := Tune(R, L, T, m, bandwidthHz, math).value;
    TunedPolesArePlaced(R, L, T, m, bandwidthHz, math);
    PlacementFacts(R, L, T, m, bandwidthHz, math);
    CoefficientSum(R, p.c1, p.c2, T, g.kp, g.ki);
    MulSign(1.0 - p.c2, Mul(T, g.ki));
    hide Place, Math.Exact, Tune, Cubic.At, DelayPole, Mul, Square, C.Norm2, Factors, A0, A1, A2, FAt1, FAtNeg1, LastLeft, LastRight;
  }

  /** Stability alone makes the integral gain of an accepted tuning positive, so the setpoint filter gain lies
      strictly between 0 and 1 and the filter pole cancels the zero of the controller. */
  lemma TunedFilterCancelsZero(R: real, L: real, T: real, m: real, bandwidthHz: real, math: Math)
    requires R > 0.0 && L > 0.0 && T > 0.0 && 0.0 < m < 1.0 && math.Exact()
    requires Tune(R, L, T, m, bandwidthHz, math).Ok?
    ensures var g := Tune(R, L, T, m, bandwidthHz, math).value;
            && g.kp > 0.0 && g.ki > 0.0 && 0.0 < g.kr < 1.0 && Mul(g.kt, g.kp) == 1.0
            && ControllerNumerator(C.Real(g.kr), T, g.kp, g.ki) == C.ZERO
  {
    hide Place, PlacedKp, PlacedKi, DelayPole, Square, BandwidthHz, ControllerNumerator, Quotient;
    var g := Tune(R, L, T, m, bandwidthHz, math).value;
    TunedKiPositive(R, L, T, m, bandwidthHz, math);
    MulSign(T, g.ki);
    FilterZero(g.kp, T, g.ki);
    DivMul(1.0, g.kp);
    MulComm(g.kt, g.kp);
    hide Mul;
  }

  lemma FilterZero(kp: real, T: real, ki: real)
    requires kp > 0.0 && Mul(T, ki) > 0.0
    ensures var kr := Quotient(kp, kp + Mul(T, ki));
            0.0 < kr < 1.0 && ControllerNumerator(C.Real(kr), T, kp, ki) == C.ZERO
  {
    var d := kp + Mul(T, ki);
    var kr := kp / d;
    assert kr * d == kp;
    FilterRange(kr, d, kp);
    assert kp * (kr - 1.0) + ki * (T * kr) == 0.0;
  }

  lemma FilterRange(kr: real, d: real, kp: real)
    requires 0.0 < kp < d && Mul(kr, d) == kp
    ensures 0.0 < kr < 1.0
  {
    MulSign(kr, d);
    MulSign(1.0 - kr, d);
    assert Mul(1.0 - kr, d) == d - Mul(kr, d);
    hide Mul;
  }

  // ---- The robustness grid ----

  const POINTS_PER_AXIS: nat := 10

  datatype Range = Range(lo: real, hi: real)
  {
    predicate Positive() {
      0.0 < lo && 0.0 < hi
    }

    function Point(i: nat): real {
      lo + (hi - lo) * (i as real) / (POINTS_PER_AXIS - 1) as real
    }
  }

  lemma PointPositive(range: Range, i: nat)
    requires range.Positive() && i < POINTS_PER_AXIS
    ensures range.Point(i) > 0.0
  {
    var t := (i as real) / 9.0;
    assert 0.0 <= t <= 1.0;
    assert range.Point(i) == Mul(range.lo, 1.0 - t) + Mul(range.hi, t);
    MulSign(range.lo, 1.0 - t);
    MulSign(range.hi, t);
    MulZero(range.lo);
    MulZero(range.hi);
    hide Mul, Range.Point;
  }

  /** The characteristic polynomial at a perturbed resistance and inductance. */
  function PerturbedCubic(R: real, L: real, T: real, m: real, gains: PIGains, math: Math): Cubic
    requires L != 0.0
  {
    Coefficients(R, DelayedDecay(R, L, T, m, math), Decay(R, L, T, math), T, gains.kp, gains.ki)
  }

  predicate StableAt(R: real, L: real, T: real, m: real, gains: PIGains, rs: Range, ls: Range, math: Math, i: nat, j: nat)
  {
    var Rp, Lp := Mul(rs.Point(i), R), Mul(ls.Point(j), L);
    Lp != 0.0 && PerturbedCubic(Rp, Lp, T, m, gains, math).Stable()
  }

  lemma ScaledPositive(range: Range, i: nat, x: real)
    requires range.Positive() && i < POINTS_PER_AXIS && x > 0.0
    ensures Mul(range.Point(i), x) > 0.0
  {
    PointPositive(range, i);
    MulSign(range.Point(i), x);
    hide Range.Point, Mul;
  }

  /** Tries the grid row by row and stops at the first unstable point. */
  method PerturbedStabilityCheck(
    R: real, L: real, T: real, m: real, gains: PIGains, rs: Range, ls: Range, math: Math) returns (stable: bool)
    requires R > 0.0 && L > 0.0 && rs.Positive() && ls.Positive()
    ensures stable <==> forall i, j :: 0 <= i < POINTS_PER_AXIS && 0 <= j < POINTS_PER_AXIS ==>
              StableAt(R, L, T, m, gains, rs, ls, math, i, j)
  {
    hide Range.Point, PerturbedCubic, Mul, JuryTest, Decay, DelayedDecay;
    for i := 0 to POINTS_PER_AXIS
      invariant forall a, b :: 0 <= a < i && 0 <= b < POINTS_PER_AXIS ==> StableAt(R, L, T, m, gains, rs, ls, math, a, b)
    {
      var Rp := Mul(rs.Point(i), R);
      for j := 0 to POINTS_PER_AXIS
        invariant forall b :: 0 <= b < j ==> StableAt(R, L, T, m, gains, rs, ls, math, i, b)
      {
        var Lp := Mul(ls.Point(j), L);
        ScaledPositive(ls, j, L);
        var c := PerturbedCubic(Rp, Lp, T, m, gains, math);
        if !JuryTest(c.a0, c.a1, c.a2, c.a3) {
          assert !StableAt(R, L, T, m, gains, rs, ls, math, i, j);
          return false;
        }
      }
    }
    return true;
  }

  /** The voltages act half a period after the currents are sampled. */
  const DELAY: real := 0.5

  const R_PERTURB: Range := Range(0.9, 1.5)
  const L_PERTURB: Range := Range(0.65, 1.1)

  /** Stable on the whole grid. */
  ghost predicate Robust(R: real, L: real, T: real, gains: PIGains, math: Math) {
    forall i, j :: 0 <= i < POINTS_PER_AXIS && 0 <= j < POINTS_PER_AXIS ==>
      StableAt(R, L, T, DELAY, gains, R_PERTURB, L_PERTURB, math, i, j)
  }

  /** The gains of one axis are what `Tune` returns and stable on the whole grid. */
  ghost predicate Accepted(R: real, L: real, T: real, bandwidthHz: real, gains: PIGains, math: Math) {
    && R > 0.0 && L > 0.0 && T > 0.0 && math.pi != 0.0
    && Tune(R, L, T, DELAY, bandwidthHz, math) == Ok(gains) && Robust(R, L, T, gains, math)
  }

  ghost predicate Tunable(R: real, L: real, T: real, bandwidthHz: real, math: Math) {
    exists gains :: Accepted(R, L, T, bandwidthHz, gains, math)
  }

  predicate Known(params: MotorParamsEstimate) {
    params.statorResistance.Some? && params.dInductance.Some? && params.qInductance.Some?
  }

  predicate Feasible(params: MotorParamsEstimate, T: real) {
    && Known(params) && params.statorResistance.value > 0.0 && params.dInductance.value > 0.0
    && params.qInductance.value > 0.0 && T > 0.0
  }

  /** A single axis is rejected as unstable or for its goal, and for nothing else. */
  lemma TuneFaults(params: MotorParamsEstimate, T: real, bandwidthHz: real, math: Math)
    requires math.pi != 0.0
    ensures Feasible(params, T) ==>
      forall L :: L in {params.dInductance.value, params.qInductance.value} ==>
        var r := Tune(params.statorResistance.value, L, T, DELAY, bandwidthHz, math);
        r.Err? ==> r.error in {Unstable, InvalidTuningGoals}
  {
    hide PlacedKp, PlacedKi, DelayPole, BandwidthHz, Omega, Magnitude, Angle, Decay, DelayedDecay;
  }

  method ComputeCurrentPiControllerGains(
    params: MotorParamsEstimate, pwmFreqHz: real, bandwidthHz: real, math: Math) returns (r: Result<ControllerParameters, PITuningFault>)
    requires pwmFreqHz != 0.0 && math.pi != 0.0
    ensures r.Ok? <==>
      && Known(params) && bandwidthHz > 0.0
      && Tunable(params.statorResistance.value, params.dInductance.value, 1.0 / pwmFreqHz, bandwidthHz, math)
      && Tunable(params.statorResistance.value, params.qInductance.value, 1.0 / pwmFreqHz, bandwidthHz, math)
    ensures r.Ok? ==>
      && Accepted(params.statorResistance.value, params.dInductance.value, 1.0 / pwmFreqHz, bandwidthHz, r.value.dPi, math)
      && Accepted(params.statorResistance.value, params.qInductance.value, 1.0 / pwmFreqHz, bandwidthHz, r.value.qPi, math)
    ensures r == Err(MissingMotorParameters) <==> !Known(params)
    ensures r == Err(InfeasibleMotorParameters) <==> Known(params) && !Feasible(params, 1.0 / pwmFreqHz)
    ensures Feasible(params, 1.0 / pwmFreqHz) && bandwidthHz <= 0.0 ==> r == Err(InvalidTuningGoals)
    ensures Feasible(params, 1.0 / pwmFreqHz) && bandwidthHz > 0.0 ==>
      var R, Ld, Lq, T := params.statorResistance.value, params.dInductance.value, params.qInductance.value, 1.0 / pwmFreqHz;
      var d, q := Tune(R, Ld, T, DELAY, bandwidthHz, math), Tune(R, Lq, T, DELAY, bandwidthHz, math);
      && (d.Err? ==> r == Err(d.error))
      && (d.Ok? && q.Err? ==> r == Err(q.error))
      && (r == Err(NotRobust) <==> d.Ok? && q.Ok? && !(Robust(R, Ld, T, d.value, math) && Robust(R, Lq, T, q.value, math)))
  {
    TuneFaults(params, 1.0 / pwmFreqHz, bandwidthHz, math);
    hide Tune, StableAt;
    if params.statorResistance.None? || params.dInductance.None? || params.qInductance.None? {
      return Err(MissingMotorParameters);
    }
    var R, Ld, Lq := params.statorResistance.value, params.dInductance.value, params.qInductance.value;
    var T := 1.0 / pwmFreqHz;
    if R <= 0.0 || Ld <= 0.0 || Lq <= 0.0 || T <= 0.0 {
      return Err(InfeasibleMotorParameters);
    }
    if !(bandwidthHz > 0.0) {
      return Err(InvalidTuningGoals);
    }
    var d := Tune(R, Ld, T, DELAY, bandwidthHz, math);
    if d.Err? {
      return Err(d.error);
    }
    var q := Tune(R, Lq, T, DELAY, bandwidthHz, math);
    if q.Err? {
      return Err(q.error);
    }
    var dStable := PerturbedStabilityCheck(R, Ld, T, DELAY, d.value, R_PERTURB, L_PERTURB, math);
    var qStable := PerturbedStabilityCheck(R, Lq, T, DELAY, q.value, R_PERTURB, L_PERTURB, math);
    assert dStable <==> Robust(R, Ld, T, d.value, math);
    assert qStable <==> Robust(R, Lq, T, q.value, math);
    assert dStable <==> Accepted(R, Ld, T, bandwidthHz, d.value, math);
    assert qStable <==> Accepted(R, Lq, T, bandwidthHz, q.value, math);
    hide Robust;
    if dStable && qStable {
      r := Ok(ControllerParameters(d.value, q.value));
    } else {
      r := Err(NotRobust);
    }
  }

  /** When the stability test accepts, every closed-loop pole lies inside the unit circle. */
  lemma StablePolesInside(R: real, c1: real, c2: real, T: real, kp: real, ki: real, z: Complex)
    requires R > 0.0 && Coefficients(R, c1, c2, T, kp, ki).Stable()
    requires Regular(z, c2) && ClosedLoop(z, R, c1, c2, T, kp, ki) == C.ZERO
    ensures C.Norm2(z) < 1.0
  {
    ClosedLoopCleared(z, R, c1, c2, T, kp, ki);
    CoefficientsAreCharacteristic(z, R, c1, c2, T, kp, ki);
    var d := C.Mul(PlantDenominator(z, R, c2), C.Sub(z, C.ONE));
    C.MulOne(d);
    C.MulComm(C.ZERO, d);
    hide C.Mul, C.Norm2, ClosedLoop, Characteristic, Cubic.At, JuryTest, PlantDenominator, A0, A1, A2;
    StableRootsInside(Coefficients(R, c1, c2, T, kp, ki), z);
  }

  /** Accepted gains are stable at every grid point: a closed-loop pole, a zero of `1 + P(z) C(z)` for the
      perturbed resistance and inductance, lies inside the unit circle. */
  lemma GridPolesInside(
    R: real, L: real, T: real, bandwidthHz: real, gains: PIGains, math: Math, i: nat, j: nat, z: Complex)
    requires Accepted(R, L, T, bandwidthHz, gains, math) && i < POINTS_PER_AXIS && j < POINTS_PER_AXIS
    requires var Rp, Lp := Mul(R_PERTURB.Point(i), R), Mul(L_PERTURB.Point(j), L);
             && Rp != 0.0 && Lp != 0.0
             && var c1, c2 := DelayedDecay(Rp, Lp, T, DELAY, math), Decay(Rp, Lp, T, math);
             Regular(z, c2) && ClosedLoop(z, Rp, c1, c2, T, gains.kp, gains.ki) == C.ZERO
    ensures C.Norm2(z) < 1.0
  {
    hide Range.Point, C.Norm2, Mul, Tune, ClosedLoop, JuryTest, Regular, A0, A1, A2, Decay, DelayedDecay;
    var Rp, Lp := Mul(R_PERTURB.Point(i), R), Mul(L_PERTURB.Point(j), L);
    ScaledPositive(R_PERTURB, i, R);
    var c1, c2 := DelayedDecay(Rp, Lp, T, DELAY, math), Decay(Rp, Lp, T, math);
    assert StableAt(R, L, T, DELAY, gains, R_PERTURB, L_PERTURB, math, i, j);
    StablePolesInside(Rp, c1, c2, T, gains.kp, gains.ki, z);
  }

  /** The grid points are real motors: no perturbed resistance or inductance vanishes. */
  lemma GridIsPositive(R: real, L: real, i: nat, j: nat)
    requires R > 0.0 && L > 0.0 && i < POINTS_PER_AXIS && j < POINTS_PER_AXIS
    ensures Mul(R_PERTURB.Point(i), R) > 0.0 && Mul(L_PERTURB.Point(j), L) > 0.0
  {
    ScaledPositive(R_PERTURB, i, R);
    ScaledPositive(L_PERTURB, j, L);
  }

  /** The grid: ten resistances from 90% to 150% and ten inductances from 65% to 110%, evenly spaced, with the voltage
      acting half a period late. */
  lemma GridReaches(i: nat, j: nat)
    requires i < POINTS_PER_AXIS && j < POINTS_PER_AXIS
    ensures POINTS_PER_AXIS == 10 && DELAY == 0.5
    ensures R_PERTURB.Point(i) == 0.9 + i as real / 15.0 && L_PERTURB.Point(j) == 0.65 + j as real / 20.0
  {
  }
}
