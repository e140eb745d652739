/** The current controllers: field-oriented/src/control/pi_control.rs. */
module PiControllers {
  import opened Reals
  import opened Wrappers

  datatype PIGains = PIGains(kr: real, kp: real, ki: real, kt: real, bandwidthHz: real)

  datatype ControllerParameters = ControllerParameters(dPi: PIGains, qPi: PIGains)

  function SetpointFilter(g: PIGains, prevRf: real, reference: real): real {
    Mul(g.kr, prevRf) + Mul(1.0 - g.kr, reference)
  }

  /** How far one step moves the integral, for an error and a saturation error. */
  function IntegralStep(g: PIGains, samplingTimeS: real, e: real, saturationError: real): real {
    Mul(Mul(samplingTimeS, g.ki), e + Mul(g.kt, saturationError))
  }

  function PiOutput(g: PIGains, e: real, integralTerm: real): real {
    Mul(g.kp, e) + integralTerm
  }

  /** Anti-windup: while the output `u` is cut to `limit` and the error stays, the fed-back cut replaces the
      error by the distance of the integral from the limit. The integral moves towards `limit`, and does not
      pass it when one step of the gain is at most 1. */
  lemma SaturatedIntegralMovesToLimit(g: PIGains, samplingTimeS: real, e: real, integral: real, limit: real)
    requires Mul(g.kt, g.kp) == 1.0
    ensures var rate := Mul(Mul(samplingTimeS, g.ki), g.kt);
            var next := integral + IntegralStep(g, samplingTimeS, e, limit - PiOutput(g, e, integral));
            && next - limit == Mul(1.0 - rate, integral - limit)
            && (0.0 <= rate <= 1.0 && integral <= limit ==> integral <= next <= limit)
            && (0.0 <= rate <= 1.0 && integral >= limit ==> limit <= next <= integral)
  {
    var rate := Mul(Mul(samplingTimeS, g.ki), g.kt);
    var k, d := Mul(samplingTimeS, g.ki), limit - integral;
    assert Mul(g.kt, limit - PiOutput(g, e, integral)) == Mul(g.kt, d) - Mul(Mul(g.kt, g.kp), e);
    MulOne(e);
    MulComm(1.0, e);
    assert Mul(k, Mul(g.kt, d)) == Mul(rate, d);
    assert Mul(1.0 - rate, integral - limit) == -d + Mul(rate, d);
    MulSign(rate, d);
    MulSign(rate, -d);
    MulSign(1.0 - rate, d);
    MulSign(1.0 - rate, -d);
    MulLinear(rate, d, d);
    MulLinear(1.0 - rate, d, d);
    assert Mul(1.0 - rate, d) == d - Mul(rate, d);
    MulZero(d);
    MulZero(rate);
    hide Mul;
  }

  /** A controller as a value: one step gives the next state and the output, none when there are no gains. */
  datatype PiState = PiState(gains: Option<PIGains>, samplingTimeS: real, integral: real, prevRf: real)
  {
    function Step(reference: real, measurement: real, saturationError: real): (PiState, Option<real>) {
      if gains.None? then (this, None)
      else
        var g, rf := gains.value, SetpointFilter(gains.value, prevRf, reference);
        var next := integral + IntegralStep(g, samplingTimeS, rf - measurement, saturationError);
        (this.(integral := next, prevRf := rf), Some(PiOutput(g, rf - measurement, next)))
    }

    function Cleared(): PiState {
      this.(integral := 0.0, prevRf := 0.0)
    }
  }

  /** The setpoint filter settles on a constant reference: each step leaves the share `kr` of the distance. */
  lemma FilterSettles(g: PIGains, prevRf: real, reference: real)
    ensures SetpointFilter(g, prevRf, reference) - reference == Mul(g.kr, prevRf - reference)
  {
    MulSum(1.0, g.kr, reference);
    MulOne(reference);
    MulLinear(g.kr, prevRf, reference);
    hide Mul;
  }

  /** Between two steps whose output was not cut, the output moves by the proportional answer to the change of the error,
      and by the integral answer to the error: the controller `kp + T ki z / (z - 1)` that the gains are tuned for. The
      error is the filtered reference less the measurement. */
  lemma StepsAreController(
    c: PiState, reference: real, measurement: real, reference': real, measurement': real)
    requires c.gains.Some?
    ensures var (c1, u1) := c.Step(reference, measurement, 0.0);
            var (c2, u2) := c1.Step(reference', measurement', 0.0);
            && u1.Some? && u2.Some? && c2.gains == c.gains && c2.samplingTimeS == c.samplingTimeS
            && var g, e1, e2 := c.gains.value, c1.prevRf - measurement, c2.prevRf - measurement';
               u2.value - u1.value == Mul(g.kp, e2 - e1) + Mul(Mul(c.samplingTimeS, g.ki), e2)
  {
    var g := c.gains.value;
    var (c1, u1) := c.Step(reference, measurement, 0.0);
    var (c2, u2) := c1.Step(reference', measurement', 0.0);
    var e1, e2 := c1.prevRf - measurement, c2.prevRf - measurement';
    MulZero(g.kt);
    MulLinear(g.kp, e2, e1);
    hide Mul, SetpointFilter;
  }

  class PIController {
    var gains: Option<PIGains>
    var integralTerm: real
    var prevRf: real
    const samplingTimeS: real

    constructor (gains: Option<PIGains>, samplingTimeS: real)
      ensures this.gains == gains && integralTerm == 0.0 && prevRf == 0.0 && this.samplingTimeS == samplingTimeS
    {
      this.gains, this.samplingTimeS := gains, samplingTimeS;
      integralTerm, prevRf := 0.0, 0.0;
    }

    function State(): PiState
      reads this
    {
      PiState(gains, samplingTimeS, integralTerm, prevRf)
    }

    method Compute(reference: real, measurement: real, saturationError: real) returns (u: Option<real>)
      modifies this`integralTerm, this`prevRf
      ensures (State(), u) == old(State()).Step(reference, measurement, saturationError)
      ensures gains.None? ==> integralTerm == old(integralTerm) && prevRf == old(prevRf)
      ensures gains.Some? ==>
        && prevRf == SetpointFilter(gains.value, old(prevRf), reference)
        && integralTerm == old(integralTerm) + IntegralStep(gains.value, samplingTimeS, prevRf - measurement, saturationError)
    {
      hide Mul;
      if gains.None? {
        return None;
      }
      var g := gains.value;
      var rf := Mul(g.kr, prevRf) + Mul(1.0 - g.kr, reference);
      var e := rf - measurement;
      prevRf := rf;
      var proportional := Mul(g.kp, e);
      var antiWindupTerm := Mul(g.kt, saturationError);
      var integralAccum := Mul(Mul(samplingTimeS, g.ki), e + antiWindupTerm);
      integralTerm := integralTerm + integralAccum;
      u := Some(proportional + integralTerm);
    }

    method ClearWindup()
      modifies this`integralTerm, this`prevRf
      ensures State() == old(State()).Cleared()
    {
      integralTerm := 0.0;
      prevRf := 0.0;
    }
  }
}
