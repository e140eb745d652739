/** Discrete pole placement for the current loops: field-oriented/src/control/pi_control.rs.

    `exp`, `sin`, `cos` and `sqrt` are parameters, of which only the laws in `Math.Exact` are assumed. */
module PiTuning {
  import opened Reals
  import opened Jury
  import C = Complexes

  type Complex = C.Complex

  datatype Math = Math(exp: real -> real, sin: real -> real, cos: real -> real, sqrt: real -> real, pi: real)
  {
    ghost predicate Exact() {
      && pi > 0.0
      && (forall x :: Square(cos(x)) + Square(sin(x)) == 1.0)
      && (forall x :: 0.0 < x < pi ==> sin(x) > 0.0)
      && (forall x :: exp(x) > 0.0)
      && (forall x, y :: x < y ==> exp(x) < exp(y))
      && exp(0.0) == 1.0
      && (forall x :: x >= 0.0 ==> sqrt(x) >= 0.0 && Square(sqrt(x)) == x)
    }
  }

  // ---- The loop ----

  /** The plant, the winding behind a zero-order hold, as `tune` evaluates it at a complex point. */
  function Plant(z: Complex, R: real, c1: real, c2: real): Complex
    requires R != 0.0
  {
    C.Mul(C.Div(C.Sub(z, C.ONE), z),
          C.Sub(C.Scale(1.0 / R, C.Div(C.ONE, C.Sub(z, C.ONE))),
                C.Scale(1.0 / R, C.Div(C.Real(c1), C.Sub(z, C.Real(c2))))))
  }

  /** The controller `kp + T ki z / (z - 1)`. */
  function Controller(z: Complex, T: real, kp: real, ki: real): Complex {
    C.Add(C.Real(kp), C.Scale(ki, Integrator(z, T)))
  }

  function Integrator(z: Complex, T: real): Complex {
    C.Div(C.Scale(T, z), C.Sub(z, C.ONE))
  }

  /** `1 + P(z) C(z)`, zero at the closed-loop poles. */
  function ClosedLoop(z: Complex, R: real, c1: real, c2: real, T: real, kp: real, ki: real): Complex
    requires R != 0.0
  {
    C.Add(C.ONE, C.Mul(Plant(z, R, c1, c2), Controller(z, T, kp, ki)))
  }

  /** The denominator of `1 + P C`: the points where neither `P` nor `C` has a value are its zeros. */
  function PlantDenominator(z: Complex, R: real, c2: real): Complex {
    C.Scale(R, C.Mul(z, C.Sub(z, C.Real(c2))))
  }

  function PlantNumerator(z: Complex, c1: real, c2: real): Complex {
    C.Sub(C.Sub(z, C.Real(c2)), C.Scale(c1, C.Sub(z, C.ONE)))
  }

  function ControllerNumerator(z: Complex, T: real, kp: real, ki: real): Complex {
    C.Add(C.Scale(kp, C.Sub(z, C.ONE)), C.Scale(ki, C.Scale(T, z)))
  }

  /** The closed loop cleared of its denominators. */
  function Characteristic(z: Complex, R: real, c1: real, c2: real, T: real, kp: real, ki: real): Complex {
    C.Add(C.Mul(PlantDenominator(z, R, c2), C.Sub(z, C.ONE)),
          C.Mul(PlantNumerator(z, c1, c2), ControllerNumerator(z, T, kp, ki)))
  }

  predicate Regular(z: Complex, c2: real) {
    z != C.ZERO && z != C.ONE && z != C.Real(c2)
  }

  // ---- Regrouping products ----

  lemma Swap(a: Complex, b: Complex, c: Complex, d: Complex)
    ensures C.Mul(C.Mul(a, b), C.Mul(c, d)) == C.Mul(C.Mul(a, c), C.Mul(b, d))
  {
    hide C.Mul;
    C.MulAssoc(a, b, C.Mul(c, d));
    C.MulAssoc(b, c, d);
    C.MulComm(b, c);
    C.MulAssoc(c, b, d);
    C.MulAssoc(a, c, C.Mul(b, d));
  }

  lemma ScaleOut(k: real, l: real, a: Complex, b: Complex)
    ensures C.Mul(C.Scale(k, a), C.Scale(l, b)) == C.Scale(Mul(k, l), C.Mul(a, b))
    ensures C.Mul(C.Scale(k, a), b) == C.Scale(k, C.Mul(a, b)) == C.Mul(a, C.Scale(k, b))
    ensures C.Scale(1.0, a) == a
  {
    C.ScaleIsMul(k, a);
    C.ScaleIsMul(l, b);
    C.ScaleIsMul(k, b);
    C.ScaleIsMul(Mul(k, l), C.Mul(a, b));
    C.ScaleIsMul(k, C.Mul(a, b));
    C.RealMul(k, l);
    C.ScaleZero(a);
    hide C.Mul, C.Scale, Mul;
    Swap(C.Real(k), a, C.Real(l), b);
    C.MulAssoc(C.Real(k), a, b);
    C.MulComm(C.Real(k), b);
    C.MulAssoc(a, b, C.Real(k));
    C.MulComm(C.Mul(a, b), C.Real(k));
  }

  lemma ScaleSub(k: real, a: Complex, b: Complex)
    ensures C.Sub(C.Scale(k, a), C.Scale(k, b)) == C.Scale(k, C.Sub(a, b))
  {
  }

  lemma ScaleReal(k: real, l: real, a: Complex)
    ensures C.Mul(C.Real(k), a) == C.Scale(k, a) && C.Scale(k, C.Real(l)) == C.Real(Mul(k, l))
  {
  }

  lemma SubDiffers(z: Complex, w: Complex)
    ensures C.Sub(z, w) == C.ZERO <==> z == w
  {
  }

  /** The plant times its denominator, the resistance cancelled. */
  lemma PlantRegrouped(z: Complex, R: real, c1: real, c2: real)
    requires R != 0.0 && z != C.ZERO
    ensures var u, v := C.Sub(z, C.ONE), C.Sub(z, C.Real(c2));
            C.Mul(Plant(z, R, c1, c2), PlantDenominator(z, R, c2)) ==
              C.Mul(u, C.Mul(C.Sub(C.Div(C.ONE, u), C.Div(C.Real(c1), v)), v))
  {
    var f := 1.0 / R;
    var u, v := C.Sub(z, C.ONE), C.Sub(z, C.Real(c2));
    var g, difference := C.Div(u, z), C.Sub(C.Div(C.ONE, u), C.Div(C.Real(c1), v));
    C.DivMul(u, z);
    DivMul(1.0, R);
    MulComm(f, R);
    ScaleSub(f, C.Div(C.ONE, u), C.Div(C.Real(c1), v));
    hide C.Mul, C.Div, C.Scale, C.Sub, Mul;
    ScaleOut(f, f, g, difference);
    ScaleOut(f, R, C.Mul(g, difference), C.Mul(z, v));
    ScaleOut(1.0, 1.0, C.Mul(C.Mul(g, difference), C.Mul(z, v)), v);
    Swap(g, difference, z, v);
  }

  /** The plant times its denominator is its numerator. */
  lemma PlantCleared(z: Complex, R: real, c1: real, c2: real)
    requires R != 0.0 && Regular(z, c2)
    ensures C.Mul(Plant(z, R, c1, c2), PlantDenominator(z, R, c2)) == PlantNumerator(z, c1, c2)
  {
    var u, v := C.Sub(z, C.ONE), C.Sub(z, C.Real(c2));
    var w, h := C.Div(C.ONE, u), C.Div(C.Real(c1), v);
    PlantRegrouped(z, R, c1, c2);
    SubDiffers(z, C.ONE);
    SubDiffers(z, C.Real(c2));
    C.DivMul(C.ONE, u);
    C.DivMul(C.Real(c1), v);
    hide C.Mul, C.Div, C.Scale, C.Sub, Plant, PlantDenominator;
    C.MulComm(C.Sub(w, h), v);
    C.MulSub(v, w, h);
    C.MulSub(u, C.Mul(v, w), C.Mul(v, h));
    C.MulComm(v, w);
    C.MulComm(v, h);
    C.MulAssoc(u, w, v);
    C.MulComm(u, w);
    C.MulComm(C.ONE, v);
    C.MulOne(v);
    C.MulComm(u, C.Real(c1));
    ScaleReal(c1, 1.0, u);
  }

  /** The controller times `z - 1` is its numerator. */
  lemma ControllerCleared(z: Complex, T: real, kp: real, ki: real)
    requires z != C.ONE
    ensures C.Mul(Controller(z, T, kp, ki), C.Sub(z, C.ONE)) == ControllerNumerator(z, T, kp, ki)
  {
    var u := C.Sub(z, C.ONE);
    SubDiffers(z, C.ONE);
    C.DivMul(C.Scale(T, z), u);
    hide C.Mul, C.Div, C.Scale, C.Sub, C.Add;
    C.MulComm(Controller(z, T, kp, ki), u);
    C.MulAdd(u, C.Real(kp), C.Scale(ki, Integrator(z, T)));
    C.MulComm(u, C.Real(kp));
    ScaleReal(kp, 1.0, u);
    C.MulComm(u, C.Scale(ki, Integrator(z, T)));
    ScaleOut(ki, 1.0, Integrator(z, T), u);
  }

  /** Where it is defined, the closed loop times its denominators is the characteristic polynomial, and the closed loop
      vanishes exactly where the polynomial does. */
  lemma ClosedLoopCleared(z: Complex, R: real, c1: real, c2: real, T: real, kp: real, ki: real)
    requires R != 0.0 && Regular(z, c2)
    ensures C.Mul(ClosedLoop(z, R, c1, c2, T, kp, ki), C.Mul(PlantDenominator(z, R, c2), C.Sub(z, C.ONE)))
         == Characteristic(z, R, c1, c2, T, kp, ki)
    ensures ClosedLoop(z, R, c1, c2, T, kp, ki) == C.ZERO <==> Characteristic(z, R, c1, c2, T, kp, ki) == C.ZERO
  {
    ClosedLoopTimes(z, R, c1, c2, T, kp, ki);
    DenominatorsDiffer(z, R, c2);
    C.ZeroProduct(ClosedLoop(z, R, c1, c2, T, kp, ki), C.Mul(PlantDenominator(z, R, c2), C.Sub(z, C.ONE)));
    hide C.Mul, ClosedLoop, Characteristic, PlantDenominator;
  }

  /** At a regular point no denominator vanishes. */
  lemma DenominatorsDiffer(z: Complex, R: real, c2: real)
    requires R != 0.0 && Regular(z, c2)
    ensures C.Mul(PlantDenominator(z, R, c2), C.Sub(z, C.ONE)) != C.ZERO
  {
    var u, v := C.Sub(z, C.ONE), C.Sub(z, C.Real(c2));
    SubDiffers(z, C.ONE);
    SubDiffers(z, C.Real(c2));
    C.ScaleIsMul(R, C.Mul(z, v));
    hide C.Mul, C.Scale;
    C.ZeroProduct(z, v);
    C.ZeroProduct(C.Real(R), C.Mul(z, v));
    C.ZeroProduct(PlantDenominator(z, R, c2), u);
  }

  lemma ClosedLoopTimes(z: Complex, R: real, c1: real, c2: real, T: real, kp: real, ki: real)
    requires R != 0.0 && Regular(z, c2)
    ensures C.Mul(ClosedLoop(z, R, c1, c2, T, kp, ki), C.Mul(PlantDenominator(z, R, c2), C.Sub(z, C.ONE)))
         == Characteristic(z, R, c1, c2, T, kp, ki)
  {
    var u, d := C.Sub(z, C.ONE), PlantDenominator(z, R, c2);
    var p, c := Plant(z, R, c1, c2), Controller(z, T, kp, ki);
    PlantCleared(z, R, c1, c2);
    ControllerCleared(z, T, kp, ki);
    hide C.Mul, C.Add, C.Sub, Plant, Controller, PlantDenominator, PlantNumerator, ControllerNumerator;
    C.MulComm(C.Add(C.ONE, C.Mul(p, c)), C.Mul(d, u));
    C.MulAdd(C.Mul(d, u), C.ONE, C.Mul(p, c));
    C.MulOne(C.Mul(d, u));
    C.MulComm(C.Mul(d, u), C.Mul(p, c));
    Swap(p, c, d, u);
  }

  // ---- The characteristic polynomial ----

  datatype Cubic = Cubic(a3: real, a2: real, a1: real, a0: real)
  {
    function At(z: Complex): Complex {
      var z2 := C.Mul(z, z);
      C.Add(C.Add(C.Scale(a3, C.Mul(z2, z)), C.Scale(a2, z2)), C.Add(C.Scale(a1, z), C.Real(a0)))
    }

    predicate Stable() {
      JuryTest(a0, a1, a2, a3)
    }
  }

  // The coefficients as `perturbed_stability_check` computes them; the leading one is `R`.

  function A2(R: real, c1: real, c2: real, T: real, kp: real, ki: real): real {
    kp - R - Mul(c1, kp) + Mul(T, ki) - Mul(c2, R) - Mul(c1, Mul(T, ki))
  }

  function A1(R: real, c1: real, c2: real, T: real, kp: real, ki: real): real {
    2.0 * Mul(c1, kp) - kp - Mul(c2, kp) + Mul(c2, R) + Mul(c1, Mul(T, ki)) - Mul(c2, Mul(T, ki))
  }

  function A0(c1: real, c2: real, kp: real): real {
    Mul(c2, kp) - Mul(c1, kp)
  }

  function Coefficients(R: real, c1: real, c2: real, T: real, kp: real, ki: real): Cubic {
    Cubic(R, A2(R, c1, c2, T, kp, ki), A1(R, c1, c2, T, kp, ki), A0(c1, c2, kp))
  }

  function Sum(a: Cubic, b: Cubic): Cubic {
    Cubic(a.a3 + b.a3, a.a2 + b.a2, a.a1 + b.a1, a.a0 + b.a0)
  }

  lemma CubicAdd(a: Cubic, b: Cubic, z: Complex)
    ensures C.Add(a.At(z), b.At(z)) == Sum(a, b).At(z)
  {
  }

  lemma TimesZMinusOne(w: Complex, z: Complex)
    ensures C.Mul(w, C.Sub(z, C.ONE)) == C.Sub(C.Mul(w, z), w)
  {
    C.MulSub(w, z, C.ONE);
    C.MulOne(w);
    hide C.Mul;
  }

  lemma SumTimes(a: Complex, k: real, z: Complex)
    ensures C.Mul(C.Add(a, C.Scale(k, z)), z) == C.Add(C.Mul(a, z), C.Scale(k, C.Mul(z, z)))
    ensures C.Mul(C.Add(C.Scale(k, z), a), z) == C.Add(C.Scale(k, C.Mul(z, z)), C.Mul(a, z))
  {
    hide C.Mul, C.Scale;
    C.MulComm(C.Add(a, C.Scale(k, z)), z);
    C.MulComm(C.Add(C.Scale(k, z), a), z);
    C.MulAdd(z, a, C.Scale(k, z));
    C.MulAdd(z, C.Scale(k, z), a);
    ScaleOut(k, 1.0, z, z);
    C.MulComm(z, a);
  }

  lemma ZTimes(k: real, z: Complex)
    ensures C.Mul(z, C.Sub(z, C.Real(k))) == C.Add(C.Mul(z, z), C.Scale(-k, z))
  {
    C.MulSub(z, z, C.Real(k));
    C.MulComm(z, C.Real(k));
    C.ScaleIsMul(k, z);
    C.ScaleSum(k, -k, z);
    C.ScaleZero(z);
    hide C.Mul, C.Scale;
  }

  lemma CollectDenominator(R: real, c2: real, z: Complex, z2: Complex, z3: Complex)
    ensures C.Scale(R, C.Sub(C.Add(z3, C.Scale(-c2, z2)), C.Add(z2, C.Scale(-c2, z))))
         == C.Add(C.Add(C.Scale(R, z3), C.Scale(-Mul(R, 1.0 + c2), z2)), C.Add(C.Scale(Mul(R, c2), z), C.Real(0.0)))
  {
    CollectReal(R, c2, z.re, z2.re, z3.re);
    CollectReal(R, c2, z.im, z2.im, z3.im);
    hide Mul;
  }

  lemma CollectReal(R: real, c2: real, x: real, x2: real, x3: real)
    ensures R * ((x3 + -c2 * x2) - (x2 + -c2 * x)) == (R * x3 + -Mul(R, 1.0 + c2) * x2) + (Mul(R, c2) * x + 0.0)
  {
  }

  function PlantPart(R: real, c2: real): Cubic {
    Cubic(R, -Mul(R, 1.0 + c2), Mul(R, c2), 0.0)
  }

  lemma DenominatorExpands(z: Complex, R: real, c2: real)
    ensures C.Mul(PlantDenominator(z, R, c2), C.Sub(z, C.ONE)) == PlantPart(R, c2).At(z)
  {
    var u, z2 := C.Sub(z, C.ONE), C.Mul(z, z);
    hide C.Mul, C.Scale, C.Add, C.Sub, Mul;
    ZTimes(c2, z);
    TimesZMinusOne(C.Add(z2, C.Scale(-c2, z)), z);
    SumTimes(z2, -c2, z);
    ScaleOut(R, 1.0, C.Mul(z, C.Sub(z, C.Real(c2))), u);
    CollectDenominator(R, c2, z, z2, C.Mul(z2, z));
  }

  /** A product of two linear polynomials. */
  function LinearProduct(a: real, b: real, c: real, d: real): Cubic {
    Cubic(0.0, Mul(a, c), Mul(a, d) + Mul(b, c), Mul(b, d))
  }

  lemma LinearTimesLinear(z: Complex, a: real, b: real, c: real, d: real)
    ensures C.Mul(C.Add(C.Scale(a, z), C.Real(b)), C.Add(C.Scale(c, z), C.Real(d)))
         == LinearProduct(a, b, c, d).At(z)
  {
    hide C.Mul, C.Scale, C.Add, Mul;
    var n, z2 := C.Add(C.Scale(a, z), C.Real(b)), C.Mul(z, z);
    C.MulAdd(n, C.Scale(c, z), C.Real(d));
    C.MulComm(n, C.Real(d));
    ScaleReal(d, 1.0, n);
    SumTimes(C.Real(b), a, z);
    ScaleReal(b, 1.0, z);
    ScaleOut(c, 1.0, z, n);
    C.MulComm(n, C.Scale(c, z));
    C.MulComm(z, n);
    CollectProduct(a, b, c, d, z, z2, C.Mul(z2, z));
  }

  lemma CollectProduct(a: real, b: real, c: real, d: real, z: Complex, z2: Complex, z3: Complex)
    ensures C.Add(C.Scale(c, C.Add(C.Scale(a, z2), C.Scale(b, z))), C.Scale(d, C.Add(C.Scale(a, z), C.Real(b))))
         == C.Add(C.Add(C.Scale(0.0, z3), C.Scale(Mul(a, c), z2)),
                  C.Add(C.Scale(Mul(a, d) + Mul(b, c), z), C.Real(Mul(b, d))))
  {
    C.ScaleAdd(c, C.Scale(a, z2), C.Scale(b, z));
    C.ScaleAdd(d, C.Scale(a, z), C.Real(b));
    C.ScaleScale(c, a, z2);
    C.ScaleScale(c, b, z);
    C.ScaleScale(d, a, z);
    C.ScaleReals(d, b);
    C.ScaleSum(Mul(a, d), Mul(b, c), z);
    C.ScaleZero(z3);
    MulComm(c, a);
    MulComm(c, b);
    MulComm(d, a);
    MulComm(d, b);
    hide C.Scale, Mul;
  }

  lemma NumeratorsAreLinear(z: Complex, c1: real, c2: real, T: real, kp: real, ki: real)
    ensures PlantNumerator(z, c1, c2) == C.Add(C.Scale(1.0 - c1, z), C.Real(c1 - c2))
    ensures ControllerNumerator(z, T, kp, ki) == C.Add(C.Scale(kp + Mul(T, ki), z), C.Real(-kp))
  {
    ScaleSub(c1, z, C.ONE);
    ScaleSub(kp, z, C.ONE);
    C.ScaleReals(c1, 1.0);
    C.ScaleReals(kp, 1.0);
    MulOne(c1);
    MulOne(kp);
    C.ScaleSum(1.0, -c1, z);
    C.ScaleSum(c1, -c1, z);
    C.ScaleZero(z);
    C.ScaleScale(ki, T, z);
    MulComm(ki, T);
    C.ScaleSum(kp, Mul(T, ki), z);
    hide C.Scale, Mul;
  }

  function GainPart(c1: real, c2: real, T: real, kp: real, ki: real): Cubic {
    LinearProduct(1.0 - c1, c1 - c2, kp + Mul(T, ki), -kp)
  }

  lemma CoefficientSums(R: real, c1: real, c2: real, T: real, kp: real, ki: real)
    ensures A2(R, c1, c2, T, kp, ki) == -Mul(R, 1.0 + c2) + Mul(1.0 - c1, kp + Mul(T, ki))
    ensures A1(R, c1, c2, T, kp, ki) == Mul(R, c2) + (Mul(1.0 - c1, -kp) + Mul(c1 - c2, kp + Mul(T, ki)))
    ensures A0(c1, c2, kp) == Mul(c1 - c2, -kp)
  {
    var w := Mul(T, ki);
    MulLinear(R, 1.0, c2);
    MulOne(R);
    MulComm(c2, R);
    Expand(1.0, c1, kp, w);
    Expand(c1, c2, kp, w);
    Expand(1.0, c1, -kp, 0.0);
    Expand(c1, c2, -kp, 0.0);
    MulOne(kp);
    MulOne(w);
    MulOne(-kp);
    MulZero(c1);
    MulZero(c2);
    MulZero(1.0);
    MulLinear(c1, kp, 0.0);
    MulLinear(c2, kp, 0.0);
    hide Mul;
  }

  lemma Expand(a: real, b: real, u: real, v: real)
    ensures Mul(a - b, u + v) == Mul(a, u) + Mul(a, v) - Mul(b, u) - Mul(b, v)
  {
    MulLinear(a - b, u, v);
    MulComm(a - b, u);
    MulComm(a - b, v);
    MulLinear(u, a, b);
    MulLinear(v, a, b);
    MulComm(u, a);
    MulComm(u, b);
    MulComm(v, a);
    MulComm(v, b);
    hide Mul;
  }

  lemma CoefficientsAreParts(R: real, c1: real, c2: real, T: real, kp: real, ki: real)
    ensures Coefficients(R, c1, c2, T, kp, ki) == Sum(PlantPart(R, c2), GainPart(c1, c2, T, kp, ki))
  {
    CoefficientSums(R, c1, c2, T, kp, ki);
    hide A2, A1, A0, Mul;
  }

  /** The coefficients the stability check uses are those of `1 + P(z) C(z)` cleared of denominators. */
  lemma CoefficientsAreCharacteristic(z: Complex, R: real, c1: real, c2: real, T: real, kp: real, ki: real)
    ensures Coefficients(R, c1, c2, T, kp, ki).At(z) == Characteristic(z, R, c1, c2, T, kp, ki)
  {
    DenominatorExpands(z, R, c2);
    NumeratorsAreLinear(z, c1, c2, T, kp, ki);
    LinearTimesLinear(z, 1.0 - c1, c1 - c2, kp + Mul(T, ki), -kp);
    CubicAdd(PlantPart(R, c2), GainPart(c1, c2, T, kp, ki), z);
    CoefficientsAreParts(R, c1, c2, T, kp, ki);
    hide Cubic.At, C.Mul, C.Add, C.Scale, PlantDenominator, PlantNumerator, ControllerNumerator, LinearProduct, PlantPart,
         Coefficients, Sum;
  }

  // ---- Roots and factors ----

  // Modulo `z^2 = x2 z - q` a cubic is `SlopeAt z + OffsetAt`.

  function SlopeAt(c: Cubic, x2: real, q: real): real {
    Mul(Mul(c.a3, x2) + c.a2, x2) + (c.a1 - Mul(c.a3, q))
  }

  function OffsetAt(c: Cubic, x2: real, q: real): real {
    c.a0 - Mul(Mul(c.a3, x2) + c.a2, q)
  }

  /** A complex number is a root of `z^2 - 2 x z + |z|^2`. */
  lemma SquareOf(z: Complex)
    ensures C.Mul(z, z) == C.Sub(C.Scale(2.0 * z.re, z), C.Real(C.Norm2(z)))
  {
  }

  lemma CubeOf(z: Complex, x2: real, q: real)
    ensures C.Mul(C.Sub(C.Scale(x2, z), C.Real(q)), z) == C.Sub(C.Scale(x2, C.Mul(z, z)), C.Scale(q, z))
  {
    hide C.Mul, C.Scale, C.Sub;
    C.MulComm(C.Sub(C.Scale(x2, z), C.Real(q)), z);
    C.MulSub(z, C.Scale(x2, z), C.Real(q));
    ScaleOut(x2, 1.0, z, z);
    C.MulComm(z, C.Real(q));
    ScaleReal(q, 1.0, z);
  }

  lemma CollectCube(c: Cubic, x2: real, q: real, z: Complex, z2: Complex)
    ensures C.Add(C.Add(C.Scale(c.a3, C.Sub(C.Scale(x2, z2), C.Scale(q, z))), C.Scale(c.a2, z2)),
                  C.Add(C.Scale(c.a1, z), C.Real(c.a0)))
         == C.Add(C.Add(C.Scale(Mul(c.a3, x2) + c.a2, z2), C.Scale(c.a1 - Mul(c.a3, q), z)), C.Real(c.a0))
  {
    ScaleSub(c.a3, C.Scale(x2, z2), C.Scale(q, z));
    C.ScaleScale(c.a3, x2, z2);
    C.ScaleScale(c.a3, q, z);
    C.ScaleSum(Mul(c.a3, x2), c.a2, z2);
    C.ScaleSum(c.a1 - Mul(c.a3, q), Mul(c.a3, q), z);
    hide C.Scale, Mul;
  }

  lemma CollectSquare(k: real, m: real, o: real, x2: real, q: real, z: Complex)
    ensures C.Add(C.Add(C.Scale(k, C.Sub(C.Scale(x2, z), C.Real(q))), C.Scale(m, z)), C.Real(o))
         == C.Add(C.Scale(Mul(k, x2) + m, z), C.Real(o - Mul(k, q)))
  {
    ScaleSub(k, C.Scale(x2, z), C.Real(q));
    C.ScaleScale(k, x2, z);
    C.ScaleReals(k, q);
    C.ScaleSum(Mul(k, x2), m, z);
    hide C.Scale, Mul;
  }

  lemma CubicAtIsLinear(c: Cubic, z: Complex)
    ensures c.At(z) == C.Add(C.Scale(SlopeAt(c, 2.0 * z.re, C.Norm2(z)), z), C.Real(OffsetAt(c, 2.0 * z.re, C.Norm2(z))))
  {
    var x2, q := 2.0 * z.re, C.Norm2(z);
    SquareOf(z);
    CubeOf(z, x2, q);
    CollectCube(c, x2, q, z, C.Mul(z, z));
    CollectSquare(Mul(c.a3, x2) + c.a2, c.a1 - Mul(c.a3, q), c.a0, x2, q, z);
    hide C.Mul, C.Norm2, C.Scale, C.Sub, C.Add, Mul;
  }

  lemma LinearRoot(s: real, o: real, z: Complex)
    requires C.Add(C.Scale(s, z), C.Real(o)) == C.ZERO && z.im != 0.0
    ensures s == 0.0 && o == 0.0
  {
    assert Mul(s, z.im) == 0.0;
    ZeroProduct(s, z.im);
  }

  /** A non-real root brings its conjugate: the cubic is `a3 (z - rho) (z^2 - 2 x z + |root|^2)`. */
  lemma ComplexRootFactors(c: Cubic, z: Complex)
    requires c.At(z) == C.ZERO && z.im != 0.0 && c.a3 != 0.0
    ensures Factors(c.a0, c.a1, c.a2, c.a3, Residual(c, z), -(2.0 * z.re), C.Norm2(z))
  {
    CubicAtIsLinear(c, z);
    hide C.Norm2, Cubic.At, SlopeAt, OffsetAt, Factors, C.Add, C.Scale;
    LinearRoot(SlopeAt(c, 2.0 * z.re, C.Norm2(z)), OffsetAt(c, 2.0 * z.re, C.Norm2(z)), z);
    FactorsFromLinear(c, 2.0 * z.re, C.Norm2(z));
  }

  /** The third root, from the sum of the roots. */
  function Residual(c: Cubic, z: Complex): real
    requires c.a3 != 0.0
  {
    -(2.0 * z.re) - c.a2 / c.a3
  }

  lemma FactorsFromLinear(c: Cubic, x2: real, q: real)
    requires c.a3 != 0.0 && SlopeAt(c, x2, q) == 0.0 && OffsetAt(c, x2, q) == 0.0
    ensures Factors(c.a0, c.a1, c.a2, c.a3, -x2 - c.a2 / c.a3, -x2, q)
  {
    hide SlopeAt, OffsetAt, Factors, Mul;
    assert Mul(c.a3, c.a2 / c.a3) == c.a2 by {
      DivMul(c.a2, c.a3);
    }
    FactorsWithRatio(c, x2, q, c.a2 / c.a3);
  }

  lemma FactorsWithRatio(c: Cubic, x2: real, q: real, ratio: real)
    requires Mul(c.a3, ratio) == c.a2 && SlopeAt(c, x2, q) == 0.0 && OffsetAt(c, x2, q) == 0.0
    ensures Factors(c.a0, c.a1, c.a2, c.a3, -x2 - ratio, -x2, q)
  {
    var a3, rho := c.a3, -x2 - ratio;
    LinearWithRatio(c, x2, q, ratio);
    hide SlopeAt, OffsetAt, Mul;
  }

  lemma LinearWithRatio(c: Cubic, x2: real, q: real, ratio: real)
    requires Mul(c.a3, ratio) == c.a2
    ensures SlopeAt(c, x2, q) == c.a1 - Mul(c.a3, q - Mul(-x2 - ratio, -x2))
    ensures OffsetAt(c, x2, q) == c.a0 + Mul(c.a3, Mul(-x2 - ratio, q))
    ensures c.a2 == Mul(c.a3, -x2 - (-x2 - ratio))
  {
  }

  /** A real root divides out the same way. */
  lemma RealRootFactors(c: Cubic, rho: real) returns (p: real, q: real)
    requires c.At(C.Real(rho)) == C.ZERO && c.a3 != 0.0
    ensures Factors(c.a0, c.a1, c.a2, c.a3, rho, p, q)
  {
    var u, v := c.a2 / c.a3, c.a1 / c.a3;
    p := u + rho;
    q := v + Mul(rho, p);
    DivMul(c.a2, c.a3);
    DivMul(c.a1, c.a3);
    CubicAtReal(c, rho);
    MulLinear(c.a3, u, rho);
    MulLinear(c.a3, v, Mul(rho, p));
    MulSwap(c.a3, rho, p);
    MulSwap(c.a3, rho, q);
    hide Mul, Cubic.At;
  }

  lemma CubicAtReal(c: Cubic, x: real)
    ensures c.At(C.Real(x)) == C.Real(Mul(x, c.a1 + Mul(x, c.a2 + Mul(c.a3, x))) + c.a0)
  {
    var x2 := Mul(x, x);
    C.RealMul(x, x);
    C.RealMul(x2, x);
    C.ScaleReals(c.a3, Mul(x2, x));
    C.ScaleReals(c.a2, x2);
    C.ScaleReals(c.a1, x);
    MulLinear(x, c.a1, Mul(x, c.a2 + Mul(c.a3, x)));
    MulLinear(x, c.a2, Mul(c.a3, x));
    MulLinear(x, Mul(x, c.a2), Mul(x, Mul(c.a3, x)));
    MulComm(x, c.a1);
    MulComm(x, c.a2);
    MulSwap(c.a2, x, x);
    MulSwap(c.a3, x2, x);
    MulAssoc(x, x, Mul(c.a3, x));
    hide C.Mul, C.Scale, Mul;
  }

  /** What acceptance by the Jury test means: every root, real or complex, lies inside the unit circle. */
  lemma StableRootsInside(c: Cubic, z: Complex)
    requires c.a3 > 0.0 && c.Stable() && c.At(z) == C.ZERO
    ensures C.Norm2(z) < 1.0
  {
    hide JuryTest, Factors, Cubic.At;
    if z.im != 0.0 {
      ComplexRootFactors(c, z);
      JuryCriterion(c.a0, c.a1, c.a2, c.a3, Residual(c, z), -(2.0 * z.re), C.Norm2(z));
      hide C.Norm2;
    } else {
      assert z == C.Real(z.re);
      var p, q := RealRootFactors(c, z.re);
      JuryCriterion(c.a0, c.a1, c.a2, c.a3, z.re, p, q);
      SquareBelowOne(z.re);
      SquareSign(0.0);
      hide Square;
    }
  }
}
