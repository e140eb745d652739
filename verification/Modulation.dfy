/** From a demanded voltage to duty cycles: field-oriented/src/control/foc.rs, the second half of `compute`. */
module Modulation {
  import opened Reals
  import opened Transforms

  /** The arithmetic accelerator: its sines and square roots are exact. */
  datatype FocMath = FocMath(sinCos: real -> SinCos, sqrt: real -> real)
  {
    ghost predicate Exact() {
      && (forall x :: sinCos(x).Unit())
      && (forall x :: x >= 0.0 ==> sqrt(x) >= 0.0 && Square(sqrt(x)) == x)
    }
  }

  // ---- Saturation ----

  datatype Saturation = Saturation(u: ClarkPark, mag: real)

  /** Cut a voltage to the circle of radius `radius`, the direct axis first. */
  function Saturate(u: ClarkPark, radius: real, math: FocMath): Saturation {
    if u.Norm2() > Square(radius) then
      var d := Clamp(u.d, -radius, radius);
      var qLimit := if Square(radius) > Square(d) then math.sqrt(Square(radius) - Square(d)) else 0.0;
      Saturation(ClarkPark(d, Clamp(u.q, -qLimit, qLimit)), radius)
    else
      Saturation(u, math.sqrt(u.Norm2()))
  }

  /** `cut` is `x` or lies between zero and `x`. */
  predicate Towards(cut: real, x: real) {
    0.0 <= cut <= x || x <= cut <= 0.0
  }

  lemma SquaresAdd(u: ClarkPark)
    ensures u.Norm2() >= Square(u.d) && u.Norm2() >= Square(u.q) && u.Norm2() >= 0.0
  {
    SquareSign(u.d);
    SquareSign(u.q);
    hide Square;
  }

  /** The cut quadrature voltage reaches the circle. */
  lemma QuadratureReaches(u: ClarkPark, d: real, qLimit: real, radius: real)
    requires radius >= 0.0 && qLimit >= 0.0 && u.Norm2() > Square(radius)
    requires d == Clamp(u.d, -radius, radius) && Square(qLimit) == Square(radius) - Square(d)
    ensures Square(Clamp(u.q, -qLimit, qLimit)) == Square(qLimit)
    ensures Towards(Clamp(u.q, -qLimit, qLimit), u.q)
  {
    SquareOrder(u.q, qLimit);
    SquareOrder(u.d, radius);
    SquareSign(qLimit);
    assert Square(-qLimit) == Square(qLimit) && Square(-radius) == Square(radius);
    hide Square;
  }

  /** The saturated voltage lies in the circle and its recorded magnitude is its length: a voltage in the circle
      is kept, any other is brought onto the circle, keeping as much of the direct axis as fits and turning
      neither component round. */
  lemma SaturateMeetsCircle(u: ClarkPark, radius: real, math: FocMath)
    requires math.Exact() && radius >= 0.0
    ensures var s := Saturate(u, radius, math);
            && 0.0 <= s.mag <= radius && Square(s.mag) == s.u.Norm2() && s.u.Norm2() <= Square(radius)
            && (u.Norm2() <= Square(radius) ==> s.u == u)
            && (u.Norm2() > Square(radius) ==> s.u.Norm2() == Square(radius))
            && s.u.d == Clamp(u.d, -radius, radius) && Towards(s.u.q, u.q)
  {
    SquaresAdd(u);
    if u.Norm2() > Square(radius) {
      var d := Clamp(u.d, -radius, radius);
      SquareOrder(d, radius);
      SquareSign(0.0);
      var qLimit := if Square(radius) > Square(d) then math.sqrt(Square(radius) - Square(d)) else 0.0;
      hide Square;
      QuadratureReaches(u, d, qLimit, radius);
    } else {
      SquareOrder(u.d, radius);
      hide Square;
      MagnitudeBelow(math.sqrt(u.Norm2()), u.Norm2(), radius);
    }
  }

  lemma MagnitudeBelow(mag: real, norm2: real, radius: real)
    requires mag >= 0.0 && radius >= 0.0 && Square(mag) == norm2 && norm2 <= Square(radius)
    ensures mag <= radius
  {
    SquareOrder(mag, radius);
    hide Square;
  }

  // ---- Room for the injection ----

  /** A voltage that leaves the amplitude free stays in the circle when the injection is added. */
  lemma InjectionFits(u: ClarkPark, injected: ClarkPark, amplitude: real, radius: real)
    requires 0.0 <= amplitude <= radius && u.Norm2() <= Square(radius - amplitude)
    requires -amplitude <= injected.d <= amplitude && injected.q == 0.0
    ensures ClarkPark(u.d + injected.d, u.q + injected.q).Norm2() <= Square(radius)
  {
    var room, e := radius - amplitude, injected.d;
    SquaresAdd(u);
    SquareOrder(u.d, room);
    SquareOrder(e, amplitude);
    ProductBelow(u.d, e, room, amplitude);
    SquareOfSum(u.d, e);
    SquareOfSum(room, amplitude);
    hide Square, Mul;
  }

  lemma ProductBelow(x: real, y: real, a: real, b: real)
    requires -a <= x <= a && -b <= y <= b
    ensures Mul(x, y) <= Mul(a, b)
  {
    var s, t := Abs(x), Abs(y);
    hide Mul;
    MagnitudeOfProduct(x, y);
    MulNonNegative(s, b - t);
    MulLinear(s, b, t);
    MulNonNegative(b, a - s);
    MulLinear(b, a, s);
    MulComm(a, b);
    MulComm(s, b);
  }

  lemma MagnitudeOfProduct(x: real, y: real)
    ensures Mul(x, y) <= Mul(Abs(x), Abs(y))
  {
    MulNonNegative(Abs(x), Abs(y));
    MulLinear(x, y, 0.0);
    MulComm(x, y);
    MulComm(-x, y);
    MulComm(x, -y);
    MulComm(-x, -y);
    MulLinear(y, x, 0.0);
    MulLinear(-y, x, 0.0);
    hide Mul;
  }

  /** The radius of the linear region. */
  function LinearRadius(bus: real, r: real): real
    requires r != 0.0
  {
    bus / r
  }

  lemma RadiusSquared(bus: real, r: real)
    requires IsRoot3(r)
    ensures Mul(3.0, Square(LinearRadius(bus, r))) == Square(bus)
    ensures bus >= 0.0 ==> LinearRadius(bus, r) >= 0.0
  {
    DivMul(bus, r);
    SquareMul(r, bus / r);
    hide Square, Mul;
    if bus >= 0.0 {
      assert bus / r >= 0.0;
    }
  }

  // ---- Duty cycles ----

  /** The common mode that centres the phases. */
  function CommonMode(p: Phases): real {
    -0.5 * (Min3(p.u, p.v, p.w) + Max3(p.u, p.v, p.w))
  }

  function BusReciprocal(bus: real): real {
    if bus != 0.0 then 1.0 / bus else 0.0
  }

  /** The duty cycles before the dead time is compensated. */
  function Duties(p: Phases, bus: real): Phases {
    var v0, k := CommonMode(p), BusReciprocal(bus);
    Phases(0.5 + Mul(k, p.u + v0), 0.5 + Mul(k, p.v + v0), 0.5 + Mul(k, p.w + v0))
  }

  predicate InUnit(duties: Phases) {
    0.0 <= duties.u <= 1.0 && 0.0 <= duties.v <= 1.0 && 0.0 <= duties.w <= 1.0
  }

  function ClampDuties(duties: Phases): (c: Phases)
    ensures InUnit(c)
    ensures InUnit(duties) ==> c == duties
  {
    Phases(Clamp(duties.u, 0.0, 1.0), Clamp(duties.v, 0.0, 1.0), Clamp(duties.w, 0.0, 1.0))
  }

  lemma ReciprocalScales(bus: real, x: real)
    requires bus != 0.0
    ensures Mul(bus, Mul(BusReciprocal(bus), x)) == x
  {
    DivMul(1.0, bus);
    assert Mul(bus, Mul(BusReciprocal(bus), x)) == Mul(Mul(bus, 1.0 / bus), x);
    MulOne(x);
    hide Mul;
  }

  lemma ReciprocalOrders(bus: real, x: real)
    requires bus > 0.0
    ensures 0.0 <= 0.5 + Mul(BusReciprocal(bus), x) <= 1.0 <==> -0.5 * bus <= x <= 0.5 * bus
  {
    var y := Mul(BusReciprocal(bus), x);
    ReciprocalScales(bus, x);
    MulSign(bus, y - 0.5);
    MulSign(bus, -0.5 - y);
    MulLinear(bus, y, 0.5);
    MulLinear(bus, -0.5, y);
    MulLinear(bus, 0.5, 0.5);
    assert Mul(bus, 0.5) == 0.5 * bus && Mul(bus, -0.5) == -0.5 * bus;
    hide Mul, BusReciprocal;
  }

  /** The duty cycles fit exactly when the phases spread over no more than the bus: the common mode wastes
      nothing of the bus. */
  lemma DutiesFitIff(p: Phases, bus: real)
    requires bus > 0.0
    ensures InUnit(Duties(p, bus)) <==> Spread(p) <= bus
  {
    var v0 := CommonMode(p);
    ReciprocalOrders(bus, p.u + v0);
    ReciprocalOrders(bus, p.v + v0);
    ReciprocalOrders(bus, p.w + v0);
    hide Mul, BusReciprocal;
  }

  /** The bus times a difference of duty cycles is the demanded difference of phase voltages. */
  lemma DutiesDeliver(p: Phases, bus: real)
    requires bus != 0.0
    ensures var d := Duties(p, bus);
            && Mul(bus, d.u - d.v) == p.u - p.v
            && Mul(bus, d.v - d.w) == p.v - p.w
            && Mul(bus, d.w - d.u) == p.w - p.u
  {
    var v0, k := CommonMode(p), BusReciprocal(bus);
    ReciprocalScales(bus, p.u - p.v);
    ReciprocalScales(bus, p.v - p.w);
    ReciprocalScales(bus, p.w - p.u);
    MulLinear(k, p.u + v0, p.v + v0);
    MulLinear(k, p.v + v0, p.w + v0);
    MulLinear(k, p.w + v0, p.u + v0);
    hide Mul, BusReciprocal, CommonMode;
  }

  /** A voltage in the linear region is applied whole: the clamps change no duty cycle, and what the bridge puts
      between the phases is what the voltage asks. */
  lemma LinearRegionIsDelivered(u: ClarkPark, sc: SinCos, bus: real, r: real)
    requires IsRoot3(r) && sc.Unit() && bus > 0.0 && u.Norm2() <= Square(LinearRadius(bus, r))
    ensures var p := InverseClarke(InversePark(u, sc), r);
            var d := ClampDuties(Duties(p, bus));
            && d == Duties(p, bus)
            && Mul(bus, d.u - d.v) == p.u - p.v
            && Mul(bus, d.v - d.w) == p.v - p.w
            && Mul(bus, d.w - d.u) == p.w - p.u
  {
    var x := InversePark(u, sc);
    ParkRoundTrip(u, sc);
    RadiusSquared(bus, r);
    MulMono(x.Norm2(), Square(LinearRadius(bus, r)));
    hide Square, Mul, InversePark, InverseClarke, LinearRadius, Duties, Spread;
    SpreadWithinBus(x, bus, r);
    DutiesFitIff(InverseClarke(x, r), bus);
    DutiesDeliver(InverseClarke(x, r), bus);
  }

  lemma MulMono(x: real, y: real)
    requires x <= y
    ensures Mul(3.0, x) <= Mul(3.0, y)
  {
  }
}
