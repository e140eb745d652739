/** One step of field-oriented control: field-oriented/src/control/foc.rs.

    The notch filters are not modelled: the currents they let through are a parameter. */
module Foc {
  import opened FieldWeakenings
  import opened FocTypes
  import opened HfiSources
  import I = Identification
  import opened Modulation
  import opened MotorParameters
  import opened PiControllers
  import opened Reals
  import opened Transforms
  import opened Wrappers

  // ---- The current target ----

  function Signum(x: real): real {
    if x < 0.0 then -1.0 else 1.0
  }

  /** What the current limit leaves for the quadrature axis. */
  function CurrentBudget(iD: real, limit: real, math: FocMath): real {
    if Square(limit) - Square(iD) > 0.0 then math.sqrt(Square(limit) - Square(iD)) else 0.0
  }

  /** The currents that answer a torque demand, for a given direct-axis current. */
  function TorqueCurrents(iD: real, torque: real, torqueConstant: real, limit: real, math: FocMath): ClarkPark {
    var kTau := Quotient(1.0, torqueConstant);
    var iQ, budget := Mul(kTau, torque), CurrentBudget(iD, limit, math);
    ClarkPark(iD, if Abs(iQ) > budget then Mul(Signum(iQ), budget) else iQ)
  }

  lemma SignumKeepsSquare(x: real, y: real)
    ensures Square(Mul(Signum(x), y)) == Square(y)
    ensures Mul(Signum(x), y) == if x < 0.0 then -y else y
  {
  }

  lemma BudgetSquared(iD: real, limit: real, math: FocMath)
    requires math.Exact() && -Abs(limit) <= iD <= Abs(limit)
    ensures CurrentBudget(iD, limit, math) >= 0.0
    ensures Square(CurrentBudget(iD, limit, math)) == Square(limit) - Square(iD)
  {
    SquareOrder(iD, Abs(limit));
    SquareSign(0.0);
    assert Square(Abs(limit)) == Square(limit);
    hide Square;
  }

  /** The target lies in the circle of the current limit. Either the quadrature current is the one the torque asks
      for, or the target is on the circle and the quadrature current goes towards it. */
  lemma CurrentsMeetCircle(iD: real, torque: real, torqueConstant: real, limit: real, math: FocMath)
    requires math.Exact() && limit >= 0.0 && -0.99 * limit <= iD <= 0.0
    ensures var i := TorqueCurrents(iD, torque, torqueConstant, limit, math);
            var asked := Mul(Quotient(1.0, torqueConstant), torque);
            && i.d == iD && i.Norm2() <= Square(limit)
            && (i.q == asked || (i.Norm2() == Square(limit) && Towards(i.q, asked)))
  {
    var asked := Mul(Quotient(1.0, torqueConstant), torque);
    var budget := CurrentBudget(iD, limit, math);
    BudgetSquared(iD, limit, math);
    SignumKeepsSquare(asked, budget);
    SquareOrder(asked, budget);
    hide Square, Mul, CurrentBudget, Quotient;
  }

  /** The current asked for makes the torque asked for. */
  lemma CurrentMakesTorque(torque: real, torqueConstant: real)
    requires torqueConstant != 0.0
    ensures Mul(torqueConstant, Mul(Quotient(1.0, torqueConstant), torque)) == torque
  {
    DivMul(1.0, torqueConstant);
    MulOne(torque);
    assert Mul(torqueConstant, Mul(1.0 / torqueConstant, torque)) == Mul(Mul(torqueConstant, 1.0 / torqueConstant), torque);
    hide Mul;
  }

  // ---- The voltage of one step ----

  /** What one step leaves for the next. */
  datatype Previous = Previous(uMax: real, uQ: real, uMag: real, saturation: ClarkPark)

  const NOTHING_BEFORE := Previous(0.0, 0.0, 0.0, ClarkPark(0.0, 0.0))

  /** The demanded voltage, and the currents it is to drive. */
  datatype Demand = Demand(u: ClarkPark, target: ClarkPark)

  function Injecting(input: FocInput, omegaE: real): bool {
    match input.command
    case RawVoltages(_) => true
    case TargetTorque(_) => Abs(omegaE) < input.hfiParams.disableThresholdOmegaRads
    case _ => false
  }

  /** The radius of the voltage circle: the linear region, less the amplitude of an injection. */
  function VoltageRadius(input: FocInput, injecting: bool, root3: real): real
    requires root3 != 0.0
  {
    var uMax := LinearRadius(input.dcBusVoltageV, root3);
    if injecting then Max2(uMax - input.hfiParams.amplitudeV, 0.0) else uMax
  }

  function Add(x: ClarkPark, y: ClarkPark): ClarkPark {
    ClarkPark(x.d + y.d, x.q + y.q)
  }

  function Subtract(x: ClarkPark, y: ClarkPark): ClarkPark {
    ClarkPark(x.d - y.d, x.q - y.q)
  }

  function DeadtimeShare(current: real, bandReciprocal: real): real {
    Clamp(current * bandReciprocal, -1.0, 1.0)
  }

  function Compensated(duties: Phases, ratio: Option<real>, currents: Phases, bandReciprocal: real): Phases {
    match ratio
    case None => duties
    case Some(k) =>
      Phases(
        duties.u + k * DeadtimeShare(currents.u, bandReciprocal),
        duties.v + k * DeadtimeShare(currents.v, bandReciprocal),
        duties.w + k * DeadtimeShare(currents.w, bandReciprocal))
  }

  /** An amplitude the bus has room for. The caller caps it so (firmware-core/src/app/control.rs). */
  predicate AmplitudeFits(input: FocInput, root3: real)
    requires root3 != 0.0
  {
    0.0 <= input.hfiParams.amplitudeV <= LinearRadius(input.dcBusVoltageV, root3)
  }

  /** The saturated voltage with the injection added never leaves the linear region. */
  lemma AppliedInLinearRegion(input: FocInput, u: ClarkPark, injecting: bool, injected: ClarkPark, root3: real, math: FocMath)
    requires math.Exact() && IsRoot3(root3) && AmplitudeFits(input, root3)
    requires -input.hfiParams.amplitudeV <= injected.d <= input.hfiParams.amplitudeV && injected.q == 0.0
    ensures var s := Saturate(u, VoltageRadius(input, injecting, root3), math).u;
            (if injecting then Add(s, injected) else s).Norm2() <= Square(LinearRadius(input.dcBusVoltageV, root3))
  {
    var radius := VoltageRadius(input, injecting, root3);
    SaturateMeetsCircle(u, radius, math);
    var s := Saturate(u, radius, math).u;
    if injecting {
      InjectionFits(s, injected, input.hfiParams.amplitudeV, LinearRadius(input.dcBusVoltageV, root3));
    }
    hide Square, Saturate, LinearRadius;
  }

  /** The bridge puts between the phases exactly what the applied voltage asks. */
  ghost predicate Delivers(result: FocResult, root3: real) {
    var p, d, bus := InverseClarke(result.uAb, root3), result.dutyCycles, result.dcBusVoltageV;
    && d == Duties(p, bus)
    && Mul(bus, d.u - d.v) == p.u - p.v && Mul(bus, d.v - d.w) == p.v - p.w && Mul(bus, d.w - d.u) == p.w - p.u
  }

  /** The applied voltage is in the linear region, and without dead-time compensation it is delivered whole. */
  ghost predicate Linear(result: FocResult, params: MotorParamsEstimate, root3: real)
    requires root3 != 0.0
  {
    && result.uDq.Norm2() <= Square(LinearRadius(result.dcBusVoltageV, root3))
    && (params.deadtimeRatio.None? ==> Delivers(result, root3))
  }

  /** The target currents are in the left half of the circle of the current limit. */
  predicate InCircle(target: ClarkPark, limit: real) {
    -0.99 * limit <= target.d <= 0.0 && target.Norm2() <= Square(limit)
  }

  // ---- One step on the state of the controllers ----

  /** The voltage of the injection, for the sine of its phase. */
  function InjectedVoltage(input: FocInput, sine: real): ClarkPark {
    ClarkPark(Mul(input.hfiParams.amplitudeV, sine), 0.0)
  }

  function ElectricalScale(input: FocInput, numPolePairs: nat): real {
    if input.angleType.Electrical? then 1.0 else numPolePairs as real
  }

  /** Everything one step leaves for the next, and what it does not change. */
  datatype FocState = FocState(
    calibrationD: PiState,
    calibrationQ: PiState,
    d: PiState,
    q: PiState,
    weakening: Controller,
    overmodulationThresholdRatio: real,
    deadtimeBandReciprocal: real,
    root3: real,
    prev: Previous)
  {
    predicate Valid() {
      IsRoot3(root3) && calibrationD.gains.Some? && calibrationQ.gains.Some?
    }

    /** The voltages of the two current controllers, with the cross coupling and the back-EMF fed forward. */
    function Voltages(target: ClarkPark, i: ClarkPark, omegaE: real, pmFluxLinkage: real, params: MotorParamsEstimate)
      : (FocState, Result<Demand, FocFault>)
    {
      var (nextD, uD) := d.Step(target.d, i.d, prev.saturation.d);
      if uD.None? then (this, Err(MissingControllerGains))
      else
        var (nextQ, uQ) := q.Step(target.q, i.q, prev.saturation.q);
        var next := this.(d := nextD, q := nextQ);
        if uQ.None? then (next, Err(MissingControllerGains))
        else if params.qInductance.None? || params.dInductance.None? then (next, Err(MissingMotorParams))
        else
          (next, Ok(Demand(
             ClarkPark(uD.value + Mul(Mul(-params.qInductance.value, i.q), omegaE),
                       uQ.value + Mul(omegaE, pmFluxLinkage + Mul(params.dInductance.value, i.d))),
             target)))
    }

    function WeakeningInput(omegaE: real, dInductance: real, pmFluxLinkage: real, limit: real): FieldWeakeningInput {
      FieldWeakeningInput(omegaE, dInductance, pmFluxLinkage,
                          Mul(overmodulationThresholdRatio, prev.uMax) - prev.uMag, prev.uQ, prev.uMag, limit)
    }

    /** The direct-axis current of the weakening controller, zero without weakening. */
    function Weaken(omegaE: real, dInductance: Option<real>, pmFluxLinkage: real, limit: real): (FocState, real) {
      match dInductance
      case None => (this, 0.0)
      case Some(l) =>
        var input := WeakeningInput(omegaE, l, pmFluxLinkage, limit);
        (this.(weakening := weakening.(integral := NextIntegral(weakening, input))), WeakeningCurrent(weakening, input))
    }

    /** The currents a torque command asks for. */
    function TorqueTarget(
      torque: real, omegaE: real, limit: real, params: MotorParamsEstimate, weaken: bool, math: FocMath)
      : (FocState, Result<ClarkPark, FocFault>)
    {
      if params.pmFluxLinkage.None? || (weaken && params.dInductance.None?) then (this, Err(MissingMotorParams))
      else
        var (next, iD) := Weaken(omegaE, if weaken then params.dInductance else None, params.pmFluxLinkage.value, limit);
        if params.TorqueConstant().None? then (next, Err(MissingMotorParams))
        else (next, Ok(TorqueCurrents(iD, torque, params.TorqueConstant().value, limit, math)))
    }

    function Demanded(
      input: FocInput, omegaE: real, measured: ClarkPark, filtered: ClarkPark, params: MotorParamsEstimate,
      weaken: bool, math: FocMath): (FocState, Result<Demand, FocFault>)
      requires Valid()
    {
      match input.command
      case CalibrationVoltage(u) => (this, Ok(Demand(u, ClarkPark(0.0, 0.0))))
      case RawVoltages(u) => (this, Ok(Demand(u, ClarkPark(0.0, 0.0))))
      case CalibrationCurrents(i) =>
        var (nextD, uD) := calibrationD.Step(i.d, measured.d, prev.saturation.d);
        var (nextQ, uQ) := calibrationQ.Step(i.q, measured.q, prev.saturation.q);
        (this.(calibrationD := nextD, calibrationQ := nextQ), Ok(Demand(ClarkPark(uD.value, uQ.value), i)))
      case TargetCurrents(i) => Voltages(i, measured, omegaE, 0.0, params)
      case TargetTorque(torque) =>
        var (next, target) := TorqueTarget(torque, omegaE, input.currentLimitA, params, weaken, math);
        match target
        case Err(fault) => (next, Err(fault))
        case Ok(currents) => next.Voltages(currents, filtered, omegaE, params.pmFluxLinkage.value, params)
    }

    /** What the demand, the injection and the measured currents put on the bridge. */
    function Applied(
      demand: Demand, input: FocInput, thetaE: real, omegaE: real, measured: ClarkPark, filtered: ClarkPark,
      params: MotorParamsEstimate, sine: real, math: FocMath): FocResult
      requires Valid()
    {
      var injecting := Injecting(input, omegaE);
      var s := Saturate(demand.u, VoltageRadius(input, injecting, root3), math);
      var uDq := if injecting then Add(s.u, InjectedVoltage(input, sine)) else s.u;
      var uAb := InversePark(uDq, math.sinCos(thetaE));
      var duties := Compensated(Duties(InverseClarke(uAb, root3), input.dcBusVoltageV), params.deadtimeRatio,
                                input.phaseCurrents, deadtimeBandReciprocal);
      FocResult(thetaE, omegaE, input.dcBusVoltageV, ClampDuties(duties), VoltageSector(uAb, root3),
                ForwardClarke(input.phaseCurrents, root3), measured, demand.target, uDq, uAb, injecting,
                Subtract(measured, filtered), input.hfiParams)
    }

    /** What the step leaves for the next: the linear region, the demand, and what the saturation took of it. */
    function Remembered(demand: Demand, input: FocInput, omegaE: real, math: FocMath): Previous
      requires Valid()
    {
      var s := Saturate(demand.u, VoltageRadius(input, Injecting(input, omegaE), root3), math);
      Previous(LinearRadius(input.dcBusVoltageV, root3), demand.u.q, s.mag, Subtract(s.u, demand.u))
    }

    /** One step. `filtered` is what the notch filters make of the measured currents, `sine` that of the phase of the
        injection, zero without a source. */
    function Step(
      input: FocInput, params: MotorParamsEstimate, filtered: ClarkPark, sine: real, weaken: bool, math: FocMath)
      : (FocState, Result<FocResult, FocFault>)
      requires Valid()
    {
      if params.numPolePairs.None? then (this, Err(MissingMotorParams))
      else
        var scale := ElectricalScale(input, params.numPolePairs.value);
        var thetaE, omegaE := Mul(scale, input.theta), Mul(scale, input.omega);
        var measured := ForwardPark(ForwardClarke(input.phaseCurrents, root3), math.sinCos(thetaE));
        var (next, demand) := Demanded(input, omegaE, measured, filtered, params, weaken, math);
        match demand
        case Err(fault) => (next, Err(fault))
        case Ok(demanded) =>
          (next.(prev := Remembered(demanded, input, omegaE, math)),
           Ok(Applied(demanded, input, thetaE, omegaE, measured, filtered, params, sine, math)))
    }

    /** Nothing of earlier steps is left. */
    function Cleared(): FocState {
      this.(calibrationD := calibrationD.Cleared(), calibrationQ := calibrationQ.Cleared(), d := d.Cleared(),
            q := q.Cleared(), weakening := weakening.(integral := 0.0), prev := NOTHING_BEFORE)
    }
  }

  // ---- What is fed forward ----

  /** The flux linkage of a motor whose magnets lie on the direct axis. */
  function FluxLinkage(flux: real, dInductance: real, qInductance: real, i: ClarkPark): ClarkPark {
    I.Linkage(flux, 0.5 * (dInductance + qInductance), 0.5 * (dInductance - qInductance), 1.0, 0.0, i)
  }

  lemma LinkageOnAxis(flux: real, dInductance: real, qInductance: real, i: ClarkPark)
    ensures FluxLinkage(flux, dInductance, qInductance, i)
         == ClarkPark(flux + Mul(dInductance, i.d), Mul(qInductance, i.q))
  {
    MulSum(0.5 * (dInductance + qInductance), 0.5 * (dInductance - qInductance), i.d);
    MulSum(0.5 * (dInductance + qInductance), 0.5 * (dInductance - qInductance), i.q);
    MulOne(flux);
    MulZero(flux);
    MulOne(i.d);
    MulOne(i.q);
    MulZero(i.d);
    MulZero(i.q);
    assert Square(1.0) == 1.0 && Square(0.0) == 0.0 && Mul(0.0, 1.0) == 0.0;
    MulLinear(0.5 * (dInductance - qInductance), i.q, 0.0);
    hide Mul, Square;
  }

  /** The controllers answer the errors only: to their output the demand adds exactly the voltage that the linkage of the
      flux and the current induces at the speed `omegaE`. Where their output is the drop of a resistance, the demand is
      the voltage that holds the current in a motor turning at that speed. */
  lemma DemandHoldsRotation(
    c: FocState, target: ClarkPark, i: ClarkPark, omegaE: real, flux: real, params: MotorParamsEstimate, resistance: real)
    requires c.Voltages(target, i, omegaE, flux, params).1.Ok?
    ensures var demand := c.Voltages(target, i, omegaE, flux, params).1.value;
            var uD, uQ := c.d.Step(target.d, i.d, c.prev.saturation.d).1, c.q.Step(target.q, i.q, c.prev.saturation.q).1;
            && params.dInductance.Some? && params.qInductance.Some? && uD.Some? && uQ.Some?
            && var lambda := FluxLinkage(flux, params.dInductance.value, params.qInductance.value, i);
               && demand.target == target
               && demand.u.d == uD.value - Mul(omegaE, lambda.q) && demand.u.q == uQ.value + Mul(omegaE, lambda.d)
               && (uD.value == Mul(resistance, i.d) && uQ.value == Mul(resistance, i.q) ==>
                     demand.u.d - Mul(resistance, i.d) == -Mul(omegaE, lambda.q)
                     && demand.u.q - Mul(resistance, i.q) == Mul(omegaE, lambda.d))
  {
    var ld, lq := params.dInductance.value, params.qInductance.value;
    LinkageOnAxis(flux, ld, lq, i);
    MulComm(Mul(-lq, i.q), omegaE);
    MulComm(-lq, i.q);
    MulLinear(i.q, lq, 0.0);
    MulComm(lq, i.q);
    MulLinear(omegaE, Mul(lq, i.q), 0.0);
    hide Mul, PiState.Step, FluxLinkage;
  }

  /** A current command is held against the measured currents without the flux of the magnets, a torque command against
      the filtered ones with it. */
  lemma DemandsOfCommands(
    c: FocState, input: FocInput, omegaE: real, measured: ClarkPark, filtered: ClarkPark, params: MotorParamsEstimate,
    weaken: bool, math: FocMath)
    requires c.Valid()
    ensures var r := c.Demanded(input, omegaE, measured, filtered, params, weaken, math).1;
            && (input.command.TargetCurrents? ==> r == c.Voltages(input.command.i, measured, omegaE, 0.0, params).1)
            && (input.command.TargetTorque? && r.Ok? ==>
                  && params.pmFluxLinkage.Some?
                  && r == c.Voltages(r.value.target, filtered, omegaE, params.pmFluxLinkage.value, params).1)
            && (input.command.CalibrationVoltage? ==> r == Ok(Demand(input.command.u, ClarkPark(0.0, 0.0))))
            && (input.command.RawVoltages? ==> r == Ok(Demand(input.command.u, ClarkPark(0.0, 0.0))))
            && (input.command.CalibrationCurrents? ==> r.Ok? && r.value.target == input.command.i)
  {
    hide TorqueCurrents, WeakeningCurrent, NextIntegral, MotorParamsEstimate.TorqueConstant, Mul, PiState.Step;
  }

  /** A step succeeds if and only if it has the pole pairs and what its command takes: both gains and inductances for
      currents, and the flux too for a torque. */
  lemma StepSucceedsIff(
    c: FocState, input: FocInput, params: MotorParamsEstimate, filtered: ClarkPark, sine: real, weaken: bool, math: FocMath)
    requires c.Valid()
    ensures var r := c.Step(input, params, filtered, sine, weaken, math).1;
            var gains, inductances := c.d.gains.Some? && c.q.gains.Some?, params.dInductance.Some? && params.qInductance.Some?;
            && (r.Ok? <==> params.numPolePairs.Some?
                           && (input.command.TargetCurrents? || input.command.TargetTorque? ==> gains && inductances)
                           && (input.command.TargetTorque? ==> params.pmFluxLinkage.Some?))
            && (r.Err? ==> r.error == MissingMotorParams || (r.error == MissingControllerGains && !gains))
  {
    hide SetpointFilter, IntegralStep, PiOutput, TorqueCurrents, WeakeningCurrent, NextIntegral, FocState.Applied,
         FocState.Remembered, ForwardPark, ForwardClarke, Mul;
  }

  /** What a step reports: the electrical angle and speed, the measured currents in the frame of the rotor, the part of
      them the filters take out, and the applied voltage, turned back into that frame. It injects on raw voltages, and on
      a torque below the threshold speed in either direction, and then exactly the injection is added to the saturated
      demand. */
  lemma StepReports(
    c: FocState, input: FocInput, params: MotorParamsEstimate, filtered: ClarkPark, sine: real, weaken: bool, math: FocMath)
    requires c.Valid() && math.Exact()
    ensures var r := c.Step(input, params, filtered, sine, weaken, math).1;
            r.Ok? ==>
              var poles := params.numPolePairs.value as real;
              var sc, threshold := math.sinCos(r.value.thetaE), input.hfiParams.disableThresholdOmegaRads;
              && r.value.thetaE == (if input.angleType.Electrical? then input.theta else Mul(poles, input.theta))
              && r.value.omegaE == (if input.angleType.Electrical? then input.omega else Mul(poles, input.omega))
              && InversePark(r.value.measuredIDq, sc) == r.value.measuredIAb == ForwardClarke(input.phaseCurrents, c.root3)
              && Add(r.value.hfiIDq, filtered) == r.value.measuredIDq
              && ForwardPark(r.value.uAb, sc) == r.value.uDq
              && (r.value.isInjecting <==>
                    input.command.RawVoltages? || (input.command.TargetTorque? && -threshold < r.value.omegaE < threshold))
              && r.value.dcBusVoltageV == input.dcBusVoltageV && r.value.hfiParams == input.hfiParams
  {
    if params.numPolePairs.Some? {
      var scale := ElectricalScale(input, params.numPolePairs.value);
      var thetaE, omegaE := Mul(scale, input.theta), Mul(scale, input.omega);
      MulOne(input.theta);
      MulOne(input.omega);
      var measuredAb := ForwardClarke(input.phaseCurrents, c.root3);
      var sc := math.sinCos(thetaE);
      ParkRoundTripBack(measuredAb, sc);
      var measured := ForwardPark(measuredAb, sc);
      var demand := c.Demanded(input, omegaE, measured, filtered, params, weaken, math).1;
      hide FocState.Demanded, ForwardClarke, ForwardPark, InversePark, Mul, VoltageSector, Duties, Compensated, Saturate,
           VoltageRadius, InverseClarke;
      if demand.Ok? {
        ParkRoundTrip(c.Applied(demand.value, input, thetaE, omegaE, measured, filtered, params, sine, math).uDq, sc);
      }
      hide Square;
    }
  }

  /** What the next step compares with: the radius of the linear region, the demanded voltage and what the saturation took
      of it. A demand inside the circle loses nothing; any other loses exactly what brings it onto the circle, the direct
      axis what the clamp to the radius takes. */
  lemma NextStepSees(c: FocState, demand: Demand, input: FocInput, omegaE: real, math: FocMath)
    requires c.Valid() && math.Exact() && AmplitudeFits(input, c.root3)
    ensures var p, radius := c.Remembered(demand, input, omegaE, math), VoltageRadius(input, Injecting(input, omegaE), c.root3);
            var kept := Add(demand.u, p.saturation);
            && p.uMax == LinearRadius(input.dcBusVoltageV, c.root3) && p.uQ == demand.u.q
            && Square(p.uMag) == kept.Norm2() && 0.0 <= p.uMag <= radius <= p.uMax
            && (demand.u.Norm2() <= Square(radius) ==> kept == demand.u)
            && (demand.u.Norm2() > Square(radius) ==> kept.Norm2() == Square(radius))
            && kept.d == Clamp(demand.u.d, -radius, radius)
  {
    var radius := VoltageRadius(input, Injecting(input, omegaE), c.root3);
    SaturateMeetsCircle(demand.u, radius, math);
    var s := Saturate(demand.u, radius, math);
    assert Add(demand.u, Subtract(s.u, demand.u)) == s.u;
    hide Square, Saturate, LinearRadius;
  }

  /** What is applied is what is left of the demand, and the injection when there is one: along the direct axis, the
      amplitude times the sine of its phase. */
  lemma AppliedIsKept(
    c: FocState, demand: Demand, input: FocInput, thetaE: real, omegaE: real, measured: ClarkPark, filtered: ClarkPark,
    params: MotorParamsEstimate, sine: real, math: FocMath)
    requires c.Valid()
    ensures var r := c.Applied(demand, input, thetaE, omegaE, measured, filtered, params, sine, math);
            var kept := Add(demand.u, c.Remembered(demand, input, omegaE, math).saturation);
            && r.uDq.q == kept.q && r.targetIDq == demand.target
            && r.uDq.d - kept.d == if r.isInjecting then Mul(input.hfiParams.amplitudeV, sine) else 0.0
  {
    hide Saturate, InversePark, InverseClarke, ForwardClarke, Duties, VoltageSector, VoltageRadius, Compensated, Mul;
  }

  predicate OutsideBand(current: real, bandReciprocal: real) {
    current * bandReciprocal <= -1.0 || current * bandReciprocal >= 1.0
  }

  /** Through a dead time that takes the share `k` of a period from each leg against its current, compensated duty cycles
      deliver the intended ones where the current is outside the band. */
  lemma CompensationRestores(duties: Phases, k: real, currents: Phases, bandReciprocal: real)
    requires bandReciprocal > 0.0 && OutsideBand(currents.u, bandReciprocal)
    requires OutsideBand(currents.v, bandReciprocal) && OutsideBand(currents.w, bandReciprocal)
    ensures var d := Compensated(duties, Some(k), currents, bandReciprocal);
            && d.u - k * Signum(currents.u) == duties.u && d.v - k * Signum(currents.v) == duties.v
            && d.w - k * Signum(currents.w) == duties.w
    ensures Compensated(duties, Some(k), Phases(0.0, 0.0, 0.0), bandReciprocal) == duties
    ensures Compensated(duties, None, currents, bandReciprocal) == duties
  {
    ShareIsSign(currents.u, bandReciprocal);
    ShareIsSign(currents.v, bandReciprocal);
    ShareIsSign(currents.w, bandReciprocal);
  }

  lemma ShareIsSign(current: real, bandReciprocal: real)
    requires bandReciprocal > 0.0 && OutsideBand(current, bandReciprocal)
    ensures DeadtimeShare(current, bandReciprocal) == Signum(current)
  {
    MulSign(current, bandReciprocal);
    MulSign(-current, bandReciprocal);
  }

  /** The weakening of a step follows the voltage of the last one: with room below the threshold the integral goes back
      towards zero, and with the threshold passed, where weakening helps, it goes down. */
  lemma WeakeningFollowsVoltage(c: FocState, omegaE: real, dInductance: real, pmFluxLinkage: real, limit: real)
    requires limit >= 0.0 && c.weakening.samplingTimeS >= 0.0 && c.weakening.kI >= 0.0 && c.weakening.kP >= 0.0
    requires 0.0 <= c.weakening.decayRate <= 1.0 && c.weakening.integral <= 0.0
    ensures var next := c.Weaken(omegaE, Some(dInductance), pmFluxLinkage, limit).0.weakening.integral;
            var threshold := Mul(c.overmodulationThresholdRatio, c.prev.uMax);
            var lower := LowerBoundRatio(dInductance, pmFluxLinkage, limit).current;
            var weakens := Weakening(c.WeakeningInput(omegaE, dInductance, pmFluxLinkage, limit));
            && (c.prev.uMag <= threshold ==> c.weakening.integral <= next <= 0.0)
            && (c.prev.uMag >= threshold && lower <= c.weakening.integral && weakens ==> lower <= next <= c.weakening.integral)
    ensures c.Weaken(omegaE, None, pmFluxLinkage, limit) == (c, 0.0)
  {
    var input := c.WeakeningInput(omegaE, dInductance, pmFluxLinkage, limit);
    if input.overmodulation >= 0.0 {
      RoomRelaxes(c.weakening, input);
    }
    if input.overmodulation <= 0.0 {
      LackWeakens(c.weakening, input);
    }
    hide NextIntegral, WeakeningCurrent, LowerBoundRatio, Quotient, Mul;
  }

  // ---- What every step keeps ----

  /** For every torque, speed, weakening history and current limit, the target lies in the left half of the circle of
      the current limit. */
  lemma TorqueTargetInCircle(
    c: FocState, torque: real, omegaE: real, limit: real, params: MotorParamsEstimate, weaken: bool, math: FocMath)
    requires math.Exact() && limit >= 0.0
    ensures var t := c.TorqueTarget(torque, omegaE, limit, params, weaken, math).1;
            t.Ok? ==> InCircle(t.value, limit)
  {
    hide Square, TorqueCurrents, WeakeningCurrent, NextIntegral, MotorParamsEstimate.TorqueConstant;
    var t := c.TorqueTarget(torque, omegaE, limit, params, weaken, math).1;
    if t.Ok? {
      var constant := params.TorqueConstant().value;
      if weaken {
        var input := c.WeakeningInput(omegaE, params.dInductance.value, params.pmFluxLinkage.value, limit);
        WeakeningWithinLimit(c.weakening, input);
        CurrentsMeetCircle(WeakeningCurrent(c.weakening, input), torque, constant, limit, math);
      } else {
        CurrentsMeetCircle(0.0, torque, constant, limit, math);
      }
    }
  }

  /** On every command path, whatever was demanded, the applied voltage stays in the linear region, and without dead-time
      compensation the bridge delivers it whole. */
  lemma AppliedVoltageIsLinear(
    c: FocState, demand: Demand, input: FocInput, thetaE: real, omegaE: real, measured: ClarkPark, filtered: ClarkPark,
    params: MotorParamsEstimate, sine: real, math: FocMath)
    requires math.Exact() && c.Valid() && input.dcBusVoltageV > 0.0 && AmplitudeFits(input, c.root3) && -1.0 <= sine <= 1.0
    ensures Linear(c.Applied(demand, input, thetaE, omegaE, measured, filtered, params, sine, math), params, c.root3)
  {
    hide Mul, Square, Saturate, InversePark, InverseClarke, ForwardClarke, LinearRadius, Duties, VoltageSector, Injecting;
    var injecting := Injecting(input, omegaE);
    ScaledWithin(input.hfiParams.amplitudeV, sine);
    AppliedInLinearRegion(input, demand.u, injecting, InjectedVoltage(input, sine), c.root3, math);
    var result := c.Applied(demand, input, thetaE, omegaE, measured, filtered, params, sine, math);
    LinearRegionIsDelivered(result.uDq, math.sinCos(thetaE), input.dcBusVoltageV, c.root3);
  }

  /** A step that succeeds applies a linear voltage and keeps the torque target in the current limit. One that fails
      leaves what the next step compares with as it was. */
  lemma StepIsLinear(
    c: FocState, input: FocInput, params: MotorParamsEstimate, filtered: ClarkPark, sine: real, weaken: bool, math: FocMath)
    requires math.Exact() && c.Valid() && -1.0 <= sine <= 1.0
    ensures var (next, r) := c.Step(input, params, filtered, sine, weaken, math);
            && next.Valid() && (r.Err? ==> next.prev == c.prev)
            && (r.Ok? && AmplitudeFits(input, c.root3) && input.dcBusVoltageV > 0.0 ==> Linear(r.value, params, c.root3))
            && (r.Ok? && input.command.TargetTorque? && input.currentLimitA >= 0.0 ==>
                  InCircle(r.value.targetIDq, input.currentLimitA))
  {
    hide FocState.Applied, FocState.Remembered, Linear, InCircle;
    if params.numPolePairs.Some? {
      var scale := ElectricalScale(input, params.numPolePairs.value);
      var thetaE, omegaE := Mul(scale, input.theta), Mul(scale, input.omega);
      var measured := ForwardPark(ForwardClarke(input.phaseCurrents, c.root3), math.sinCos(thetaE));
      DemandInCircle(c, input, omegaE, measured, filtered, params, weaken, math);
      var (next, demand) := c.Demanded(input, omegaE, measured, filtered, params, weaken, math);
      hide FocState.Demanded, ForwardPark, ForwardClarke, Mul;
      if demand.Ok? {
        AppliedTarget(c, demand.value, input, thetaE, omegaE, measured, filtered, params, sine, math);
        if AmplitudeFits(input, c.root3) && input.dcBusVoltageV > 0.0 {
          AppliedVoltageIsLinear(c, demand.value, input, thetaE, omegaE, measured, filtered, params, sine, math);
        }
      }
    }
  }

  lemma AppliedTarget(
    c: FocState, demand: Demand, input: FocInput, thetaE: real, omegaE: real, measured: ClarkPark, filtered: ClarkPark,
    params: MotorParamsEstimate, sine: real, math: FocMath)
    requires c.Valid()
    ensures c.Applied(demand, input, thetaE, omegaE, measured, filtered, params, sine, math).targetIDq == demand.target
  {
  }

  lemma DemandInCircle(
    c: FocState, input: FocInput, omegaE: real, measured: ClarkPark, filtered: ClarkPark, params: MotorParamsEstimate,
    weaken: bool, math: FocMath)
    requires math.Exact() && c.Valid()
    ensures var (next, r) := c.Demanded(input, omegaE, measured, filtered, params, weaken, math);
            && next.Valid() && next.prev == c.prev
            && (r.Ok? && input.command.TargetTorque? && input.currentLimitA >= 0.0 ==>
                  InCircle(r.value.target, input.currentLimitA))
  {
    hide TorqueCurrents, WeakeningCurrent, NextIntegral, MotorParamsEstimate.TorqueConstant, SetpointFilter, IntegralStep,
         PiOutput, Mul, InCircle;
    if input.command.TargetTorque? && input.currentLimitA >= 0.0 {
      TorqueTargetInCircle(c, input.command.torque, omegaE, input.currentLimitA, params, weaken, math);
    }
  }

  // ---- Runs ----

  datatype Tick = Tick(input: FocInput, params: MotorParamsEstimate, filtered: ClarkPark, sine: real, weaken: bool)

  function Run(c: FocState, ticks: seq<Tick>, math: FocMath): (c': FocState)
    requires c.Valid()
    ensures c'.Valid()
  {
    if ticks == [] then c
    else
      var t := ticks[|ticks| - 1];
      var before := Run(c, ticks[..|ticks| - 1], math);
      StepKeepsValid(before, t.input, t.params, t.filtered, t.sine, t.weaken, math);
      before.Step(t.input, t.params, t.filtered, t.sine, t.weaken, math).0
  }

  lemma StepKeepsValid(
    c: FocState, input: FocInput, params: MotorParamsEstimate, filtered: ClarkPark, sine: real, weaken: bool, math: FocMath)
    requires c.Valid()
    ensures var next := c.Step(input, params, filtered, sine, weaken, math).0;
            next.Valid() && next.weakening == c.weakening.(integral := next.weakening.integral)
  {
    hide SetpointFilter, IntegralStep, PiOutput, TorqueCurrents, WeakeningCurrent, NextIntegral, FocState.Applied,
         FocState.Remembered, MotorParamsEstimate.TorqueConstant, ForwardPark, ForwardClarke, Mul;
  }

  /** What holds between steps: the weakening integral weakens, and the voltage remembered is one of the linear region. */
  predicate Bounded(c: FocState) {
    c.weakening.integral <= 0.0 && 0.0 <= c.prev.uMag <= c.prev.uMax
  }

  predicate Sane(t: Tick, root3: real)
    requires root3 != 0.0
  {
    AmplitudeFits(t.input, root3) && t.input.currentLimitA >= 0.0
  }

  lemma StepKeepsBounded(c: FocState, t: Tick, math: FocMath)
    requires math.Exact() && c.Valid() && Bounded(c) && Sane(t, c.root3) && c.weakening.decayRate >= 0.0
    ensures var next := c.Step(t.input, t.params, t.filtered, t.sine, t.weaken, math).0;
            Bounded(next) && next.root3 == c.root3
  {
    hide SetpointFilter, IntegralStep, PiOutput, TorqueCurrents, WeakeningCurrent, NextIntegral, FocState.Applied,
         FocState.Remembered, MotorParamsEstimate.TorqueConstant, ForwardPark, ForwardClarke, Mul, Square, AmplitudeFits;
    if t.params.pmFluxLinkage.Some? && t.params.dInductance.Some? && t.params.numPolePairs.Some? {
      var omegaE := Mul(ElectricalScale(t.input, t.params.numPolePairs.value), t.input.omega);
      IntegralStaysNegative(
        c.weakening, c.WeakeningInput(omegaE, t.params.dInductance.value, t.params.pmFluxLinkage.value, t.input.currentLimitA));
    }
    forall demand: Demand, omegaE: real
      ensures var p := c.Remembered(demand, t.input, omegaE, math); 0.0 <= p.uMag <= p.uMax
    {
      RememberedIsLinear(c, demand, t.input, omegaE, math);
    }
  }

  lemma RememberedIsLinear(c: FocState, demand: Demand, input: FocInput, omegaE: real, math: FocMath)
    requires math.Exact() && c.Valid() && AmplitudeFits(input, c.root3)
    ensures var p := c.Remembered(demand, input, omegaE, math);
            && p.uMax == LinearRadius(input.dcBusVoltageV, c.root3) && 0.0 <= p.uMag <= p.uMax
  {
    SaturateMeetsCircle(demand.u, VoltageRadius(input, Injecting(input, omegaE), c.root3), math);
    hide Square, Saturate, LinearRadius;
  }

  /** Over every run of steps from a cleared state, whatever is commanded and however many steps fail: the weakening
      integral never turns positive, and the voltage remembered for the weakening is one of the linear region. */
  lemma {:induction false} RunsStayBounded(c: FocState, ticks: seq<Tick>, math: FocMath)
    requires math.Exact() && c.Valid() && c.weakening.decayRate >= 0.0
    requires forall k :: 0 <= k < |ticks| ==> Sane(ticks[k], c.root3)
    ensures var last := Run(c.Cleared(), ticks, math);
            Bounded(last) && last.root3 == c.root3 && last.weakening.decayRate == c.weakening.decayRate
  {
    hide Sane, FocState.Step;
    if ticks != [] {
      var n := |ticks| - 1;
      RunsStayBounded(c, ticks[..n], math);
      var before, t := Run(c.Cleared(), ticks[..n], math), ticks[n];
      StepKeepsBounded(before, t, math);
      StepKeepsValid(before, t.input, t.params, t.filtered, t.sine, t.weaken, math);
      hide Bounded, FocState.Valid;
    }
  }

  class FOC {
    const calibrationDPi: PIController
    const calibrationQPi: PIController
    const dPi: PIController
    const qPi: PIController
    const fieldWeakening: FieldWeakening
    const overmodulationThresholdRatio: real
    const deadtimeBandReciprocal: real
    const root3: real
    var prev: Previous

    ghost const Repr: set<object> := {calibrationDPi, calibrationQPi, dPi, qPi, fieldWeakening}

    function State(): FocState
      reads this, calibrationDPi, calibrationQPi, dPi, qPi, fieldWeakening
    {
      FocState(calibrationDPi.State(), calibrationQPi.State(), dPi.State(), qPi.State(), fieldWeakening.State(),
               overmodulationThresholdRatio, deadtimeBandReciprocal, root3, prev)
    }

    ghost predicate Valid()
      reads this, Repr
    {
      && State().Valid()
      && calibrationDPi != calibrationQPi && calibrationDPi != dPi && calibrationDPi != qPi
      && calibrationQPi != dPi && calibrationQPi != qPi && dPi != qPi
    }

    constructor (samplingTimeS: real, overmodulationThresholdRatio: real, deadtimeCompensationBandA: real,
                 weakeningDecayRate: real, root3: real)
      requires IsRoot3(root3)
      ensures Valid() && fresh(Repr) && State() == State().Cleared()
      ensures dPi.gains.None? && qPi.gains.None?
      ensures this.overmodulationThresholdRatio == overmodulationThresholdRatio && this.root3 == root3
    {
      var calibrationGains := PIGains(0.0, 0.0, 1.0, 1.0, 0.0);
      calibrationDPi := new PIController(Some(calibrationGains), samplingTimeS);
      calibrationQPi := new PIController(Some(calibrationGains), samplingTimeS);
      dPi := new PIController(None, samplingTimeS);
      qPi := new PIController(None, samplingTimeS);
      fieldWeakening := new FieldWeakening(samplingTimeS, weakeningDecayRate);
      this.overmodulationThresholdRatio, this.root3 := overmodulationThresholdRatio, root3;
      deadtimeBandReciprocal := 1.0 / (Abs(deadtimeCompensationBandA) + 0.00001);
      prev := NOTHING_BEFORE;
    }

    method ComputeVoltages(target: ClarkPark, i: ClarkPark, omegaE: real, pmFluxLinkage: real, params: MotorParamsEstimate)
      returns (r: Result<Demand, FocFault>)
      requires Valid()
      modifies dPi`integralTerm, dPi`prevRf, qPi`integralTerm, qPi`prevRf
      ensures Valid() && (State(), r) == old(State()).Voltages(target, i, omegaE, pmFluxLinkage, params)
    {
      hide Mul, SetpointFilter, IntegralStep, PiOutput;
      var d := dPi.Compute(target.d, i.d, prev.saturation.d);
      if d.None? {
        return Err(MissingControllerGains);
      }
      var q := qPi.Compute(target.q, i.q, prev.saturation.q);
      if q.None? {
        return Err(MissingControllerGains);
      }
      var uD, uQ := d.value, q.value;
      if params.qInductance.None? {
        return Err(MissingMotorParams);
      }
      uD := uD + Mul(Mul(-params.qInductance.value, i.q), omegaE);
      if params.dInductance.None? {
        return Err(MissingMotorParams);
      }
      uQ := uQ + Mul(omegaE, pmFluxLinkage + Mul(params.dInductance.value, i.d));
      r := Ok(Demand(ClarkPark(uD, uQ), target));
    }

    method ComputeTorqueTarget(
      torque: real, omegaE: real, limit: real, params: MotorParamsEstimate, weaken: bool, math: FocMath)
      returns (r: Result<ClarkPark, FocFault>)
      requires Valid()
      modifies fieldWeakening`integralTerm
      ensures Valid() && (State(), r) == old(State()).TorqueTarget(torque, omegaE, limit, params, weaken, math)
    {
      hide Mul, Square, WeakeningCurrent, NextIntegral, Quotient, MotorParamsEstimate.TorqueConstant;
      if params.pmFluxLinkage.None? {
        return Err(MissingMotorParams);
      }
      var iD := 0.0;
      if weaken {
        var overmodulation := Mul(overmodulationThresholdRatio, prev.uMax) - prev.uMag;
        if params.dInductance.None? {
          return Err(MissingMotorParams);
        }
        iD := fieldWeakening.Compute(
          FieldWeakeningInput(omegaE, params.dInductance.value, params.pmFluxLinkage.value, overmodulation,
                              prev.uQ, prev.uMag, limit));
      }
      var budgetSq := Square(limit) - Square(iD);
      var budget := if budgetSq > 0.0 then math.sqrt(budgetSq) else 0.0;
      if params.TorqueConstant().None? {
        return Err(MissingMotorParams);
      }
      var kTau := Quotient(1.0, params.TorqueConstant().value);
      var iQ := Mul(kTau, torque);
      if Abs(iQ) > budget {
        iQ := Mul(Signum(iQ), budget);
      }
      r := Ok(ClarkPark(iD, iQ));
    }

    method ComputeDemand(
      input: FocInput, omegaE: real, measured: ClarkPark, filtered: ClarkPark, params: MotorParamsEstimate,
      weaken: bool, math: FocMath) returns (r: Result<Demand, FocFault>)
      requires Valid()
      modifies Repr
      ensures Valid() && (State(), r) == old(State()).Demanded(input, omegaE, measured, filtered, params, weaken, math)
    {
      hide FocState.Voltages, FocState.TorqueTarget, SetpointFilter, IntegralStep, PiOutput;
      match input.command {
        case CalibrationVoltage(u) =>
          r := Ok(Demand(u, ClarkPark(0.0, 0.0)));
        case RawVoltages(u) =>
          r := Ok(Demand(u, ClarkPark(0.0, 0.0)));
        case CalibrationCurrents(i) =>
          var uD := calibrationDPi.Compute(i.d, measured.d, prev.saturation.d);
          var uQ := calibrationQPi.Compute(i.q, measured.q, prev.saturation.q);
          r := Ok(Demand(ClarkPark(uD.value, uQ.value), i));
        case TargetCurrents(i) =>
          r := ComputeVoltages(i, measured, omegaE, 0.0, params);
        case TargetTorque(torque) =>
          TorqueTargetNeedsFlux(State(), torque, omegaE, input.currentLimitA, params, weaken, math);
          var target := ComputeTorqueTarget(torque, omegaE, input.currentLimitA, params, weaken, math);
          if target.Err? {
            return Err(target.error);
          }
          r := ComputeVoltages(target.value, filtered, omegaE, params.pmFluxLinkage.value, params);
      }
    }

    /** One step in place. `filtered` is what the notch filters make of the measured currents; without a source there is
        no injection. The injection moves on only when the step succeeds. */
    method Compute(
      input: FocInput, params: MotorParamsEstimate, filtered: ClarkPark, math: FocMath, hfi: SinusoidalPulsingHfi?,
      weaken: bool) returns (r: Result<FocResult, FocFault>)
      requires Valid() && math.Exact()
      requires hfi != null ==> hfi.Valid() && {hfi, hfi.history} !! Repr + {this}
      modifies this`prev, Repr, if hfi == null then {} else {hfi, hfi.history}
      ensures Valid() && (hfi != null ==> hfi.Valid())
      ensures (State(), r) == old(State()).Step(input, params, filtered, old(SineOf(hfi)), weaken, math)
      ensures hfi != null ==> hfi.ticks == old(hfi.ticks) + if r.Ok? then 1 else 0
      ensures r.Ok? && input.command.TargetTorque? && input.currentLimitA >= 0.0 ==>
        InCircle(r.value.targetIDq, input.currentLimitA)
      ensures r.Ok? && AmplitudeFits(input, root3) && input.dcBusVoltageV > 0.0 ==> Linear(r.value, params, root3)
    {
      hide Mul, Linear, InCircle, FocState.Demanded, FocState.Applied, FocState.Remembered, ForwardPark, ForwardClarke;
      SineWithin(hfi);
      StepIsLinear(State(), input, params, filtered, SineOf(hfi), weaken, math);
      if params.numPolePairs.None? {
        return Err(MissingMotorParams);
      }
      var scale := if input.angleType.Electrical? then 1.0 else params.numPolePairs.value as real;
      var thetaE, omegaE := Mul(scale, input.theta), Mul(scale, input.omega);
      var measured := ForwardPark(ForwardClarke(input.phaseCurrents, root3), math.sinCos(thetaE));
      ghost var before := State();
      var demand := ComputeDemand(input, omegaE, measured, filtered, params, weaken, math);
      if demand.Err? {
        return Err(demand.error);
      }
      DemandKeepsRest(before, input, omegaE, measured, filtered, params, weaken, math);
      SameApplied(before, State(), demand.value, input, thetaE, omegaE, measured, filtered, params, SineOf(hfi), math);
      var result := Modulate(demand.value, input, thetaE, omegaE, measured, filtered, params, math, hfi);
      r := Ok(result);
    }

    /** Saturates the demand, adds the injection and puts the sum on the bridge. */
    method Modulate(
      demand: Demand, input: FocInput, thetaE: real, omegaE: real, measured: ClarkPark, filtered: ClarkPark,
      params: MotorParamsEstimate, math: FocMath, hfi: SinusoidalPulsingHfi?) returns (result: FocResult)
      requires Valid()
      requires hfi != null ==> hfi.Valid() && {hfi, hfi.history} !! Repr + {this}
      modifies this`prev, if hfi == null then {} else {hfi, hfi.history}
      ensures Valid() && (hfi != null ==> hfi.Valid() && hfi.ticks == old(hfi.ticks) + 1)
      ensures result == old(State()).Applied(demand, input, thetaE, omegaE, measured, filtered, params, old(SineOf(hfi)), math)
      ensures State() == old(State()).(prev := old(State()).Remembered(demand, input, omegaE, math))
    {
      hide Mul, Saturate, InversePark, InverseClarke, ForwardClarke, LinearRadius, Duties, VoltageSector, Injecting,
           VoltageRadius, Compensated;
      ghost var sine := SineOf(hfi);
      var u, injecting := demand.u, Injecting(input, omegaE);
      var s := Saturate(u, VoltageRadius(input, injecting, root3), math);
      prev := Previous(LinearRadius(input.dcBusVoltageV, root3), u.q, s.mag, Subtract(s.u, u));
      var injected := ClarkPark(0.0, 0.0);
      if hfi != null {
        injected := hfi.Compute(input.hfiParams);
      }
      MulZero(input.hfiParams.amplitudeV);
      assert injected == InjectedVoltage(input, sine);
      var uDq := if injecting then Add(s.u, injected) else s.u;
      var uAb := InversePark(uDq, math.sinCos(thetaE));
      var duties := Duties(InverseClarke(uAb, root3), input.dcBusVoltageV);
      duties := ClampDuties(Compensated(duties, params.deadtimeRatio, input.phaseCurrents, deadtimeBandReciprocal));
      result := FocResult(thetaE, omegaE, input.dcBusVoltageV, duties, VoltageSector(uAb, root3),
                          ForwardClarke(input.phaseCurrents, root3), measured, demand.target, uDq, uAb, injecting,
                          Subtract(measured, filtered), input.hfiParams);
    }

    method ClearWindup()
      requires Valid()
      modifies this`prev, Repr
      ensures Valid() && State() == old(State()).Cleared()
    {
      calibrationDPi.ClearWindup();
      calibrationQPi.ClearWindup();
      fieldWeakening.ClearWindup();
      dPi.ClearWindup();
      qPi.ClearWindup();
      prev := NOTHING_BEFORE;
    }
  }

  /** The sine of the phase the next injection has. */
  ghost function SineOf(hfi: SinusoidalPulsingHfi?): real
    reads if hfi == null then {} else {hfi}
  {
    if hfi == null then 0.0 else hfi.Past(0).sin
  }

  lemma SineWithin(hfi: SinusoidalPulsingHfi?)
    requires hfi != null ==> hfi.Valid()
    ensures -1.0 <= SineOf(hfi) <= 1.0
  {
    if hfi != null {
      hfi.PhaseWithin();
    }
  }

  /** A demand leaves the constants and what the last step left for the saturation. */
  lemma DemandKeepsRest(
    c: FocState, input: FocInput, omegaE: real, measured: ClarkPark, filtered: ClarkPark, params: MotorParamsEstimate,
    weaken: bool, math: FocMath)
    requires c.Valid()
    ensures var next := c.Demanded(input, omegaE, measured, filtered, params, weaken, math).0;
            next.Valid() && next.root3 == c.root3 && next.deadtimeBandReciprocal == c.deadtimeBandReciprocal
  {
    hide TorqueCurrents, WeakeningCurrent, NextIntegral, MotorParamsEstimate.TorqueConstant, SetpointFilter, IntegralStep,
         PiOutput, Mul;
  }

  /** What a demand puts on the bridge depends on the constants only. */
  lemma SameApplied(
    c: FocState, c': FocState, demand: Demand, input: FocInput, thetaE: real, omegaE: real, measured: ClarkPark,
    filtered: ClarkPark, params: MotorParamsEstimate, sine: real, math: FocMath)
    requires c.Valid() && c'.Valid() && c'.root3 == c.root3 && c'.deadtimeBandReciprocal == c.deadtimeBandReciprocal
    ensures c'.Applied(demand, input, thetaE, omegaE, measured, filtered, params, sine, math)
         == c.Applied(demand, input, thetaE, omegaE, measured, filtered, params, sine, math)
    ensures c'.Remembered(demand, input, omegaE, math) == c.Remembered(demand, input, omegaE, math)
  {
    hide Saturate, InversePark, InverseClarke, ForwardClarke, LinearRadius, Duties, VoltageSector, Injecting, VoltageRadius,
         Compensated, Mul;
  }

  lemma TorqueTargetNeedsFlux(
    c: FocState, torque: real, omegaE: real, limit: real, params: MotorParamsEstimate, weaken: bool, math: FocMath)
    ensures c.TorqueTarget(torque, omegaE, limit, params, weaken, math).1.Ok? ==> params.pmFluxLinkage.Some?
  {
  }
}
