/** The field-weakening controller: field-oriented/src/control/field_weakening.rs. */
module FieldWeakenings {
  import opened Reals
  import opened Transforms

  const MAX_USEFUL_WEAKENING_RATIO := 0.9

  datatype FieldWeakeningInput = FieldWeakeningInput(
    omega: real,
    dInductance: real,
    pmFluxLinkage: real,
    overmodulation: real,
    uQ: real,
    uMag: real,
    currentLimitA: real)

  datatype Bound = Bound(current: real, fluxRatio: real)

  /** The current that would cancel the magnets. */
  function CharacteristicCurrent(dInductance: real, pmFluxLinkage: real): real {
    Abs(Quotient(pmFluxLinkage, dInductance))
  }

  /** The most negative direct-axis current, and the fraction of the magnet flux left there. */
  function LowerBoundRatio(dInductance: real, pmFluxLinkage: real, currentLimitA: real): Bound {
    var iCh := CharacteristicCurrent(dInductance, pmFluxLinkage);
    var bound := if -0.99 * currentLimitA > -iCh then -0.99 * currentLimitA else -iCh;
    if currentLimitA == 0.0 || iCh == 0.0 then Bound(bound, 1.0) else Bound(bound, 1.0 - Abs(bound / iCh))
  }

  /** The bound is inside the current limit and does not reverse the flux, and the ratio is the flux left. */
  lemma BoundLeavesFlux(dInductance: real, pmFluxLinkage: real, currentLimitA: real)
    requires dInductance > 0.0 && pmFluxLinkage > 0.0 && currentLimitA >= 0.0
    ensures var b := LowerBoundRatio(dInductance, pmFluxLinkage, currentLimitA);
            && -0.99 * currentLimitA <= b.current <= 0.0 <= b.fluxRatio <= 1.0
            && Mul(b.fluxRatio, pmFluxLinkage) == pmFluxLinkage + Mul(dInductance, b.current)
  {
    var iCh := pmFluxLinkage / dInductance;
    DivMul(pmFluxLinkage, dInductance);
    QuotientSign(pmFluxLinkage, dInductance);
    var b := LowerBoundRatio(dInductance, pmFluxLinkage, currentLimitA);
    MulOne(pmFluxLinkage);
    MulZero(dInductance);
    if currentLimitA > 0.0 {
      FluxLeft(-b.current, iCh, dInductance);
      assert Abs(b.current / iCh) == -b.current / iCh;
      assert Mul(dInductance, iCh) == pmFluxLinkage && Mul(dInductance, -b.current) == -Mul(dInductance, b.current);
      MulLinear(pmFluxLinkage, 1.0, -b.current / iCh);
      MulComm(b.fluxRatio, pmFluxLinkage);
      hide Mul;
    }
  }

  lemma FluxLeft(current: real, iCh: real, dInductance: real)
    requires 0.0 <= current <= iCh && iCh > 0.0
    ensures 0.0 <= current / iCh <= 1.0
    ensures Mul(Mul(dInductance, iCh), current / iCh) == Mul(dInductance, current)
    ensures -(current / iCh) == -current / iCh
  {
    NegatedQuotient(current, iCh);
    var share := current / iCh;
    DivMul(current, iCh);
    MulAssoc(dInductance, iCh, share);
    MulSign(iCh, -share);
    MulLinear(iCh, share, 0.0);
    MulSign(iCh, share - 1.0);
    MulLinear(iCh, share, 1.0);
    MulOne(iCh);
    hide Mul;
  }

  lemma NegatedQuotient(x: real, y: real)
    requires y != 0.0
    ensures -(x / y) == -x / y
  {
  }

  datatype Controller = Controller(samplingTimeS: real, kP: real, kI: real, decayRate: real, integral: real)

  predicate Weakening(input: FieldWeakeningInput) {
    && Quotient(input.uMag, Mul(Mul(input.omega, input.uQ), input.dInductance)) > 0.0
    && Abs(Mul(input.omega, input.pmFluxLinkage)) > 0.5 * input.uMag
    && LowerBoundRatio(input.dInductance, input.pmFluxLinkage, input.currentLimitA).fluxRatio
       < MAX_USEFUL_WEAKENING_RATIO
  }

  function OvermodulationNormalized(input: FieldWeakeningInput): real {
    Mul(Quotient(input.uMag, Mul(Mul(input.omega, input.uQ), input.dInductance)), input.overmodulation)
  }

  /** The integral after one step. */
  function NextIntegral(c: Controller, input: FieldWeakeningInput): real {
    var lower := LowerBoundRatio(input.dInductance, input.pmFluxLinkage, input.currentLimitA).current;
    if Weakening(input)
    then Clamp(c.integral + Mul(Mul(c.samplingTimeS, c.kI), OvermodulationNormalized(input)), lower, 0.0)
    else Mul(c.integral, c.decayRate)
  }

  /** The direct-axis current of one step. */
  function WeakeningCurrent(c: Controller, input: FieldWeakeningInput): real {
    var lower := LowerBoundRatio(input.dInductance, input.pmFluxLinkage, input.currentLimitA).current;
    var proportional := if Weakening(input) then Mul(c.kP, OvermodulationNormalized(input)) else 0.0;
    Clamp(proportional + NextIntegral(c, input), lower, 0.0)
  }

  /** Whatever the gains and the integral, the current is never positive and stays within 99% of the limit. */
  lemma WeakeningWithinLimit(c: Controller, input: FieldWeakeningInput)
    requires input.currentLimitA >= 0.0
    ensures -0.99 * input.currentLimitA <= WeakeningCurrent(c, input) <= 0.0
    ensures -CharacteristicCurrent(input.dInductance, input.pmFluxLinkage) <= WeakeningCurrent(c, input)
  {
    hide Weakening, NextIntegral, OvermodulationNormalized, Mul;
  }

  /** Nor is the integral ever positive, whatever the input, once it is not. */
  lemma IntegralStaysNegative(c: Controller, input: FieldWeakeningInput)
    requires input.currentLimitA >= 0.0 && c.decayRate >= 0.0 && c.integral <= 0.0
    ensures NextIntegral(c, input) <= 0.0
  {
    MulNonNegative(-c.integral, c.decayRate);
    MulComm(-c.integral, c.decayRate);
    MulLinear(c.decayRate, c.integral, 0.0);
    MulComm(c.integral, c.decayRate);
    hide Mul, Weakening, OvermodulationNormalized;
  }

  /** While the voltage leaves room the controller takes current back, so it cannot get stuck. */
  lemma RoomRelaxes(c: Controller, input: FieldWeakeningInput)
    requires input.currentLimitA >= 0.0 && input.overmodulation >= 0.0
    requires c.samplingTimeS >= 0.0 && c.kI >= 0.0 && c.kP >= 0.0 && 0.0 <= c.decayRate <= 1.0 && c.integral <= 0.0
    ensures c.integral <= NextIntegral(c, input) <= 0.0 && c.integral <= WeakeningCurrent(c, input) <= 0.0
  {
    var quotient := Quotient(input.uMag, Mul(Mul(input.omega, input.uQ), input.dInductance));
    var over := OvermodulationNormalized(input);
    hide Quotient;
    if Weakening(input) {
      MulNonNegative(quotient, input.overmodulation);
      MulNonNegative(c.samplingTimeS, c.kI);
      MulNonNegative(Mul(c.samplingTimeS, c.kI), over);
      MulNonNegative(c.kP, over);
    } else {
      MulNonNegative(-c.integral, 1.0 - c.decayRate);
      MulNonNegative(-c.integral, c.decayRate);
      Decays(c.integral, c.decayRate);
    }
    hide Weakening, OvermodulationNormalized, Mul;
  }

  /** While the voltage is short the controller gives more weakening current, as far as the bound lets it. Out of the range
      where weakening helps, the speed too low or too little flux to take away, the integral decays. */
  lemma LackWeakens(c: Controller, input: FieldWeakeningInput)
    requires input.currentLimitA >= 0.0 && input.overmodulation <= 0.0
    requires c.samplingTimeS >= 0.0 && c.kI >= 0.0 && c.kP >= 0.0
    ensures var bound := LowerBoundRatio(input.dInductance, input.pmFluxLinkage, input.currentLimitA);
            var rising := input.uMag / 2.0 < Abs(Mul(input.omega, input.pmFluxLinkage)) && bound.fluxRatio < 0.9
                          && Quotient(input.uMag, Mul(Mul(input.omega, input.uQ), input.dInductance)) > 0.0;
            && (rising && bound.current <= c.integral <= 0.0 ==>
                  bound.current <= WeakeningCurrent(c, input) <= NextIntegral(c, input) <= c.integral)
            && (!rising ==> NextIntegral(c, input) == Mul(c.integral, c.decayRate))
  {
    var quotient := Quotient(input.uMag, Mul(Mul(input.omega, input.uQ), input.dInductance));
    var over := OvermodulationNormalized(input);
    hide Quotient;
    if Weakening(input) {
      MulNonNegative(quotient, -input.overmodulation);
      MulLinear(quotient, input.overmodulation, 0.0);
      MulNonNegative(c.samplingTimeS, c.kI);
      MulNonNegative(Mul(c.samplingTimeS, c.kI), -over);
      MulLinear(Mul(c.samplingTimeS, c.kI), over, 0.0);
      MulNonNegative(c.kP, -over);
      MulLinear(c.kP, over, 0.0);
    }
    hide OvermodulationNormalized, Mul;
  }

  lemma Decays(x: real, rate: real)
    ensures Mul(-x, 1.0 - rate) == Mul(x, rate) - x
    ensures Mul(-x, rate) == -Mul(x, rate)
  {
  }

  class FieldWeakening {
    const samplingTimeS: real
    var kP: real
    var kI: real
    var decayRate: real
    var integralTerm: real

    constructor (samplingTimeS: real, decayRate: real)
      ensures State() == Controller(samplingTimeS, 0.0, 0.0, decayRate, 0.0)
    {
      this.samplingTimeS, this.decayRate := samplingTimeS, decayRate;
      kP, kI, integralTerm := 0.0, 0.0, 0.0;
    }

    function State(): Controller
      reads this
    {
      Controller(samplingTimeS, kP, kI, decayRate, integralTerm)
    }

    method Compute(input: FieldWeakeningInput) returns (iD: real)
      modifies this`integralTerm
      ensures State() == old(State()).(integral := NextIntegral(old(State()), input))
      ensures iD == WeakeningCurrent(old(State()), input)
    {
      hide Mul, Quotient, CharacteristicCurrent;
      var bound := LowerBoundRatio(input.dInductance, input.pmFluxLinkage, input.currentLimitA);
      var duDidReciprocal := Quotient(input.uMag, Mul(Mul(input.omega, input.uQ), input.dInductance));
      var backEmf := Abs(Mul(input.omega, input.pmFluxLinkage));
      hide LowerBoundRatio;
      if duDidReciprocal > 0.0 && backEmf > 0.5 * input.uMag && bound.fluxRatio < MAX_USEFUL_WEAKENING_RATIO {
        var overmodulationNormalized := Mul(duDidReciprocal, input.overmodulation);
        var integralAccum := Mul(Mul(samplingTimeS, kI), overmodulationNormalized);
        integralTerm := Clamp(integralTerm + integralAccum, bound.current, 0.0);
        iD := Clamp(Mul(kP, overmodulationNormalized) + integralTerm, bound.current, 0.0);
      } else {
        integralTerm := Mul(integralTerm, decayRate);
        iD := Clamp(integralTerm, bound.current, 0.0);
      }
    }

    method ClearWindup()
      modifies this`integralTerm
      ensures State() == old(State()).(integral := 0.0)
    {
      integralTerm := 0.0;
    }
  }
}
