/** One iteration of the current loop: firmware-core/src/app/control.rs.

    The calibrator is a parameter, and so is what the saliency estimator reads as. */
module FocSteps {
  import opened Angles
  import opened CalibrationRuns
  import opened Faults
  import opened Foc
  import opened FocTypes
  import opened HfiSources
  import opened Identification
  import opened Modes
  import opened Modulation
  import opened MotorParameters
  import opened PolarityTests
  import opened Reals
  import opened SafeStrategy
  import opened Transforms
  import opened Wrappers

  const RPM_TO_RADS := PI / 30.0

  datatype FocStepInputs = FocStepInputs(
    phaseCurrents: Phases,
    watchdogFault: bool,
    overcurrent: bool,
    brakingLimitExceeded: bool,
    dcBusReadingV: Option<real>,
    rotorFeedback: Result<RotorFeedback, RotorFeedbackFault>,
    stationaryOmegaThreshold: real,
    targetTorque: Option<real>,
    activeCurrentLimitA: real,
    rotorSpeedLimitMechRpm: nat,
    rotorOverspeedFaultThresholdMechRpm: nat,
    brakingCurrentLimitA: real,
    dcBusMaxV: real,
    tickDtMs: real,
    hfiAmplitudeV: real,
    hfiStartupAmplitudeV: real,
    hfiFrequencyHz: real,
    hfiDisableThresholdOmegaRads: real)

  datatype SaliencyReading = SaliencyReading(
    polePolarity: Option<Result<(), PolarityTestFault>>, feedback: Result<RotorFeedback, RotorFeedbackFault>)

  datatype FocStepOutcome = Normal(result: FocResult) | Shorted | NonConducting

  datatype CalibratorOps<!C> = CalibratorOps(
    mode: Calibrators<C>,
    step: (C, CalibrationInputs) -> (C, CalibrationOutput, Option<StageResult>),
    feed: (C, FocResult) -> C,
    estimate: C -> MotorParamsEstimate)

  /** The estimator of the motor parameters outside a calibration. */
  datatype ParamOps<!P> = ParamOps(feed: (P, FocResult) -> P, estimate: P -> MotorParamsEstimate)

  const ZERO_FEEDBACK := RotorFeedback(Electrical, 0.0, 0.0)

  function FromEstimation(fault: EstimationStepFault): FaultCause {
    match fault
    case MissingParameter => MotorParamsMissing
    case Overflow => EstimationOverflow
    case InsufficientSamples => EstimationInsufficientSamples
    case DegenSolution => EstimationDegenSolution
    case ParameterOutOfBounds => EstimationParameterOutOfBounds
    case TargetCurrentUnreachable => EstimationTargetCurrentUnreachable
  }

  function FromCalibration(cause: CalibrationFailureCause): FaultCause {
    match cause
    case MotorParameterEstimation(fault) => FromEstimation(fault)
    case HallCalibrationFailed(EdgeDisagreement) => HallEdgeDisagreement
    case Timeout => CalibrationTimeout
  }

  function AssertIf<C>(mode: OperatingMode<C>, condition: bool, cause: FaultCause, ops: CalibratorOps<C>)
    : (r: OperatingMode<C>)
    requires mode.Valid()
    ensures r.Valid() && (condition || mode.Fault? ==> r.Fault?) && (!condition ==> r == mode)
  {
    if condition then Commanded(mode, AssertFault(cause), ops.mode).0 else mode
  }

  // ---- The parts of a step ----

  function Diagnosed<C>(mode: OperatingMode<C>, inputs: FocStepInputs, ops: CalibratorOps<C>): (r: OperatingMode<C>)
    requires mode.Valid()
    ensures r.Valid()
  {
    AssertIf(AssertIf(AssertIf(mode, inputs.watchdogFault, RealtimeViolated, ops),
                      inputs.overcurrent, Overcurrent, ops),
             inputs.brakingLimitExceeded, RegenLimitExceeded, ops)
  }

  /** Above the injection threshold the saliency estimator is seeded from another source. */
  predicate Seeds(inputs: FocStepInputs) {
    && inputs.rotorFeedback.Ok? && inputs.rotorFeedback.value.angleType.Electrical?
    && Abs(inputs.rotorFeedback.value.omega) > inputs.hfiDisableThresholdOmegaRads
  }

  /** The mode after the verdict of the polarity test, and the feedback to use. */
  function Resolved<C>(mode: OperatingMode<C>, inputs: FocStepInputs, saliency: SaliencyReading, ops: CalibratorOps<C>)
    : (r: (OperatingMode<C>, Result<RotorFeedback, RotorFeedbackFault>))
    requires mode.Valid()
    ensures r.0.Valid()
  {
    if !mode.SaliencyPolarityTest? then (mode, inputs.rotorFeedback)
    else
      match saliency.polePolarity
      case None =>
        if Seeds(inputs) then (Commanded(mode, EnableTorqueControl, ops.mode).0, inputs.rotorFeedback)
        else (mode, saliency.feedback)
      case Some(Ok(_)) => (Commanded(mode, EnableTorqueControl, ops.mode).0, inputs.rotorFeedback)
      case Some(Err(_)) =>
        (Commanded(mode, AssertFault(SensorlessPolarityTestFault), ops.mode).0, inputs.rotorFeedback)
  }

  /** What the saliency estimator is reset with. */
  function SeedOf<C>(mode: OperatingMode<C>, inputs: FocStepInputs, saliency: SaliencyReading): Option<RotorFeedback> {
    if mode.SaliencyPolarityTest? && saliency.polePolarity.None? && Seeds(inputs) then Some(inputs.rotorFeedback.value) else None
  }

  /** Leaving the polarity test for torque control starts the controllers afresh. */
  predicate StartsAfresh<C>(mode: OperatingMode<C>, inputs: FocStepInputs, saliency: SaliencyReading) {
    && mode.SaliencyPolarityTest?
    && (saliency.polePolarity.None? ==> Seeds(inputs))
    && (saliency.polePolarity.Some? ==> saliency.polePolarity.value.Ok?)
  }

  predicate NeedsSetpoint<C>(mode: OperatingMode<C>) {
    mode.SaliencyPolarityTest? || mode.TorqueControl?
  }

  function WithSetpoint<C>(mode: OperatingMode<C>, inputs: FocStepInputs, ops: CalibratorOps<C>): (r: OperatingMode<C>)
    requires mode.Valid()
    ensures r.Valid()
  {
    AssertIf(mode, NeedsSetpoint(mode) && inputs.targetTorque.None?, SetpointTimeout, ops)
  }

  predicate FeedbackFault<C>(
    mode: OperatingMode<C>, feedback: Result<RotorFeedback, RotorFeedbackFault>, ops: CalibratorOps<C>)
  {
    feedback.Err? && !Gate(mode, ops.mode).feedbackOptional
  }

  /** A step of the calibrator, when it is not waiting. */
  datatype Calibrated<C> = Calibrated(
    mode: OperatingMode<C>,
    stage: Option<StageResult>,
    output: Option<CalibrationOutput>,
    estimate: MotorParamsEstimate)

  function CalibrationStep<C>(
    mode: OperatingMode<C>, feedback: RotorFeedback, params: MotorParamsEstimate, ops: CalibratorOps<C>)
    : (r: Calibrated<C>)
    requires mode.Valid()
    ensures r.mode.Valid()
  {
    if mode.Calibration? && Gate(mode, ops.mode).active then
      var (c, output, stage) := ops.step(mode.calibrator, CalibrationInputs(feedback.angleType, feedback.theta));
      var stepped := OperatingMode.Calibration(c);
      Calibrated(
        if stage.Some? && stage.value.StageFailure?
        then Commanded(stepped, AssertFault(FromCalibration(stage.value.cause)), ops.mode).0 else stepped,
        stage, Some(output), ops.estimate(c))
    else Calibrated(mode, None, None, params)
  }

  /** From mechanical speed to the speed of the feedback. */
  function MechToFeedback(angleType: AngleType, estimate: MotorParamsEstimate): Option<real> {
    match angleType
    case Mechanical => Some(1.0)
    case Electrical => if estimate.numPolePairs.Some? then Some(estimate.numPolePairs.value as real) else None
  }

  predicate Overspeeding(omega: real, scale: Option<real>, inputs: FocStepInputs) {
    scale.Some? && Abs(omega) > Mul(inputs.rotorOverspeedFaultThresholdMechRpm as real * RPM_TO_RADS, scale.value)
  }

  function BackEmfConstant(angleType: AngleType, estimate: MotorParamsEstimate): Option<real> {
    match angleType
    case Electrical => estimate.pmFluxLinkage
    case Mechanical =>
      if estimate.pmFluxLinkage.Some? && estimate.numPolePairs.Some?
      then Some(Mul(estimate.pmFluxLinkage.value, estimate.numPolePairs.value as real)) else None
  }

  function OrZero(x: Option<real>): real {
    if x.Some? then x.value else 0.0
  }

  /** The torque demand within the speed limit and the braking limit. */
  function LimitedTorque(setpoint: real, omega: real, speedLimit: Option<real>, stationary: real, maxBraking: real): real {
    var demand :=
      if speedLimit.Some? && ((omega > speedLimit.value && setpoint > 0.0) || (omega < -speedLimit.value && setpoint < 0.0))
      then 0.0 else setpoint;
    if omega > stationary && demand < -maxBraking then -maxBraking
    else if omega < -stationary && demand > maxBraking then maxBraking
    else demand
  }

  /** The demand never exceeds the setpoint nor turns it round; beyond the speed limit it does not accelerate, and a
      turning rotor is not braked harder than allowed. It is the setpoint unless one of the limits takes hold. */
  lemma LimitedTorqueKeepsLimits(setpoint: real, omega: real, speedLimit: Option<real>, stationary: real, maxBraking: real)
    requires maxBraking >= 0.0 && stationary >= 0.0 && (speedLimit.Some? ==> speedLimit.value >= 0.0)
    ensures var t := LimitedTorque(setpoint, omega, speedLimit, stationary, maxBraking);
            && Towards(t, setpoint)
            && (speedLimit.Some? && omega > speedLimit.value ==> t <= 0.0)
            && (speedLimit.Some? && omega < -speedLimit.value ==> t >= 0.0)
            && (omega > stationary ==> t >= -maxBraking)
            && (omega < -stationary ==> t <= maxBraking)
            && (t != setpoint ==> t == 0.0 || t == maxBraking || t == -maxBraking)
            && (-stationary <= omega <= stationary && (speedLimit.Some? ==> -speedLimit.value <= omega <= speedLimit.value)
                ==> t == setpoint)
  {
  }

  // ---- The plan of a step ----

  datatype Decision = DecideOpen | DecideShort | DecideCompute(input: FocInput, estimate: MotorParamsEstimate)

  datatype Plan<C> = Plan(mode: OperatingMode<C>, stage: Option<StageResult>, decision: Decision)

  function CappedAmplitude(amplitude: real, bus: real, root3: real): real
    requires root3 != 0.0
  {
    if amplitude > LinearRadius(bus, root3) then LinearRadius(bus, root3) else amplitude
  }

  function InputFor(
    command: FocCommand, angleType: AngleType, theta: real, omega: real, bus: real, amplitude: real,
    inputs: FocStepInputs, root3: real): FocInput
    requires root3 != 0.0
  {
    FocInput(command, bus, angleType, theta, omega, inputs.phaseCurrents, inputs.activeCurrentLimitA,
             HfiParams(CappedAmplitude(amplitude, bus, root3), inputs.hfiFrequencyHz, inputs.hfiDisableThresholdOmegaRads))
  }

  function TorqueDemand(inputs: FocStepInputs, omega: real, scale: Option<real>, estimate: MotorParamsEstimate): real {
    var speedLimit :=
      if scale.Some? then Some(Mul(RPM_TO_RADS * inputs.rotorSpeedLimitMechRpm as real, scale.value)) else None;
    LimitedTorque(
      OrZero(inputs.targetTorque), omega, speedLimit,
      Mul(inputs.stationaryOmegaThreshold, if scale.Some? then scale.value else 1.0),
      Mul(OrZero(estimate.TorqueConstant()), inputs.brakingCurrentLimitA))
  }

  function SafeInputFor(
    feedback: RotorFeedback, valid: bool, bus: real, estimate: MotorParamsEstimate, inputs: FocStepInputs): SafeInput
  {
    SafeInput(feedback.omega, valid, BackEmfConstant(feedback.angleType, estimate), bus, inputs.dcBusMaxV, inputs.tickDtMs)
  }

  /** The mode once the diagnostics, the polarity test, the setpoint and the feedback are checked. */
  datatype Checked<C> = Checked(
    mode: OperatingMode<C>, feedback: Result<RotorFeedback, RotorFeedbackFault>, feedbackFault: bool)

  function Check<C>(mode: OperatingMode<C>, saliency: SaliencyReading, inputs: FocStepInputs, ops: CalibratorOps<C>)
    : (r: Checked<C>)
    requires mode.Valid()
    ensures r.mode.Valid()
  {
    var resolved := Resolved(Diagnosed(mode, inputs, ops), inputs, saliency, ops);
    var demanded := WithSetpoint(resolved.0, inputs, ops);
    var fault := FeedbackFault(demanded, resolved.1, ops);
    Checked(AssertIf(demanded, fault, InvalidRotorFeedback, ops), resolved.1, fault)
  }

  function FeedbackOf<C>(checked: Checked<C>): RotorFeedback {
    if checked.feedback.Ok? then checked.feedback.value else ZERO_FEEDBACK
  }

  /** The calibrator's step and the overspeed check. */
  function Stepped<C>(checked: Checked<C>, params: MotorParamsEstimate, inputs: FocStepInputs, ops: CalibratorOps<C>)
    : (r: Calibrated<C>)
    requires checked.mode.Valid()
    ensures r.mode.Valid()
  {
    var feedback := FeedbackOf(checked);
    var calibrated := CalibrationStep(checked.mode, feedback, params, ops);
    var scale := MechToFeedback(feedback.angleType, calibrated.estimate);
    calibrated.(mode := AssertIf(calibrated.mode, !checked.feedbackFault && Overspeeding(feedback.omega, scale, inputs),
                                 Overspeed, ops))
  }

  /** What to do once the mode of the tick is settled. */
  function Decided<C>(
    calibrated: Calibrated<C>, feedback: RotorFeedback, valid: bool, bus: real, inputs: FocStepInputs,
    ops: CalibratorOps<C>, root3: real): (r: Plan<C>)
    requires calibrated.mode.Valid() && root3 != 0.0
    ensures r.mode.Valid()
  {
    var mode, stage, estimate := calibrated.mode, calibrated.stage, calibrated.estimate;
    if mode.Idle? || mode.Fault? then
      var strategy := mode.safeStrategy.Tick(SafeInputFor(feedback, valid, bus, estimate, inputs), root3);
      var next := mode.(safeStrategy := strategy);
      match strategy.Output()
      case Floating => Plan(next, stage, DecideOpen)
      case ActiveShort => Plan(next, stage, DecideShort)
      case Foc(command) =>
        Plan(next, stage, DecideCompute(
               InputFor(command, feedback.angleType, feedback.theta, feedback.omega, bus, inputs.hfiAmplitudeV, inputs, root3),
               estimate))
    else if !Gate(mode, ops.mode).active then Plan(mode, stage, DecideOpen)
    else if calibrated.output.Some? then
      var output := calibrated.output.value;
      Plan(mode, stage, DecideCompute(
             InputFor(output.focCommand, output.angleType, output.theta, feedback.omega, bus, inputs.hfiAmplitudeV, inputs, root3),
             estimate))
    else if mode.SaliencyPolarityTest? then
      Plan(mode, stage, DecideCompute(
             InputFor(RawVoltages(NO_CURRENT), feedback.angleType, feedback.theta, feedback.omega, bus,
                      inputs.hfiStartupAmplitudeV, inputs, root3),
             estimate))
    else
      var torque := TorqueDemand(inputs, feedback.omega, MechToFeedback(feedback.angleType, estimate), estimate);
      Plan(mode, stage, DecideCompute(
             InputFor(TargetTorque(torque), feedback.angleType, feedback.theta, feedback.omega, bus, inputs.hfiAmplitudeV,
                      inputs, root3),
             estimate))
  }

  /** Everything a step decides before it computes. */
  function PlanStep<C>(
    mode: OperatingMode<C>, params: MotorParamsEstimate, saliency: SaliencyReading, inputs: FocStepInputs,
    ops: CalibratorOps<C>, root3: real): (r: Plan<C>)
    requires mode.Valid() && root3 != 0.0
    ensures r.mode.Valid()
  {
    var checked := Check(mode, saliency, inputs, ops);
    if inputs.dcBusReadingV.None? then Plan(checked.mode, None, DecideOpen)
    else
      Decided(Stepped(checked, params, inputs, ops), FeedbackOf(checked), checked.feedback.Ok?,
              inputs.dcBusReadingV.value, inputs, ops, root3)
  }

  // ---- What every plan keeps ----

  /** The commands a decision can hold, by mode. */
  lemma DecidedByMode<C>(
    calibrated: Calibrated<C>, feedback: RotorFeedback, valid: bool, bus: real, inputs: FocStepInputs,
    ops: CalibratorOps<C>, root3: real)
    requires calibrated.mode.Valid() && root3 != 0.0
    ensures var plan := Decided(calibrated, feedback, valid, bus, inputs, ops, root3);
            && plan.stage == calibrated.stage
            && (plan.mode.Fault? <==> calibrated.mode.Fault?) && (plan.mode.Idle? <==> calibrated.mode.Idle?)
            && (!plan.mode.Fault? && !plan.mode.Idle? ==> plan.mode == calibrated.mode)
            && (plan.mode.Fault? ==> plan.mode.trace == calibrated.mode.trace)
            && (plan.decision.DecideCompute? ==>
                  var input := plan.decision.input;
                  && input.dcBusVoltageV == bus && input.currentLimitA == inputs.activeCurrentLimitA
                  && input.phaseCurrents == inputs.phaseCurrents && input.omega == feedback.omega
                  && plan.decision.estimate == calibrated.estimate
                  && input.hfiParams.amplitudeV
                     == CappedAmplitude(
                          if plan.mode.SaliencyPolarityTest? && calibrated.output.None? then inputs.hfiStartupAmplitudeV
                          else inputs.hfiAmplitudeV, bus, root3)
                  && (plan.mode.Fault? || plan.mode.Idle? ==> input.command == TargetTorque(0.0))
                  && (plan.mode.TorqueControl? && calibrated.output.None? ==>
                        input.command == TargetTorque(
                          TorqueDemand(inputs, feedback.omega, MechToFeedback(feedback.angleType, calibrated.estimate),
                                       calibrated.estimate))))
  {
    hide TorqueDemand, Strategy.Tick, SafeInputFor, CappedAmplitude, MechToFeedback;
  }

  /** Whichever fault a tick raises, a drive that ends the tick faulted, or idle, modulates zero torque or nothing:
      never the setpoint and never a command of the calibration. */
  lemma FaultModulatesZeroTorque<C>(
    mode: OperatingMode<C>, params: MotorParamsEstimate, saliency: SaliencyReading, inputs: FocStepInputs,
    ops: CalibratorOps<C>, root3: real)
    requires mode.Valid() && root3 != 0.0
    ensures var plan := PlanStep(mode, params, saliency, inputs, ops, root3);
            (plan.mode.Fault? || plan.mode.Idle?) && plan.decision.DecideCompute? ==>
              plan.decision.input.command == TargetTorque(0.0)
  {
    hide Check, Stepped, FeedbackOf, Decided;
    if inputs.dcBusReadingV.Some? {
      var checked := Check(mode, saliency, inputs, ops);
      DecidedByMode(Stepped(checked, params, inputs, ops), FeedbackOf(checked), checked.feedback.Ok?,
                    inputs.dcBusReadingV.value, inputs, ops, root3);
    }
  }

  /** A checked drive in torque control or in the polarity test has a setpoint and a valid feedback. */
  lemma CheckedHasSetpoint<C>(
    mode: OperatingMode<C>, saliency: SaliencyReading, inputs: FocStepInputs, ops: CalibratorOps<C>)
    requires mode.Valid()
    ensures var checked := Check(mode, saliency, inputs, ops);
            checked.mode.TorqueControl? || checked.mode.SaliencyPolarityTest? ==>
              inputs.targetTorque.Some? && checked.feedback.Ok?
    ensures var checked := Check(mode, saliency, inputs, ops);
            checked.mode.TorqueControl? ==> checked.feedback == inputs.rotorFeedback
  {
    hide Diagnosed, Seeds;
  }

  /** A calibrator's step belongs to the calibration mode only, and later checks can only turn it into a fault. */
  lemma SteppedByMode<C>(checked: Checked<C>, params: MotorParamsEstimate, inputs: FocStepInputs, ops: CalibratorOps<C>)
    requires checked.mode.Valid()
    ensures var stepped := Stepped(checked, params, inputs, ops);
            && (checked.mode.Fault? ==> stepped.mode.Fault?)
            && (stepped.mode.Fault? || stepped.mode == checked.mode || checked.mode.Calibration?)
            && (stepped.mode.Calibration? <==> checked.mode.Calibration? && !stepped.mode.Fault?)
            && (stepped.output.Some? ==> checked.mode.Calibration?)
            && (stepped.output.None? ==> stepped.stage.None? && stepped.estimate == params)
            && (stepped.stage.Some? && stepped.stage.value.StageFailure? ==>
                  stepped.mode.Fault? && stepped.mode.trace[0] == FromCalibration(stepped.stage.value.cause))
            && (!checked.feedbackFault
                && Overspeeding(FeedbackOf(checked).omega, MechToFeedback(FeedbackOf(checked).angleType, stepped.estimate), inputs)
                ==> stepped.mode.Fault?)
  {
    hide Overspeeding, MechToFeedback, FromCalibration;
  }

  /** Modulating in torque control takes a setpoint, a valid feedback and a bus reading, and modulates the setpoint
      within its limits. The polarity test takes as much, and modulates no voltage but the injection. */
  lemma ModulatingNeedsInputs<C>(
    mode: OperatingMode<C>, params: MotorParamsEstimate, saliency: SaliencyReading, inputs: FocStepInputs,
    ops: CalibratorOps<C>, root3: real)
    requires mode.Valid() && root3 != 0.0
    ensures var plan := PlanStep(mode, params, saliency, inputs, ops, root3);
            plan.decision.DecideCompute? ==> inputs.dcBusReadingV.Some?
    ensures var plan := PlanStep(mode, params, saliency, inputs, ops, root3);
            plan.decision.DecideCompute? && (plan.mode.TorqueControl? || plan.mode.SaliencyPolarityTest?) ==>
              inputs.targetTorque.Some? && Check(mode, saliency, inputs, ops).feedback.Ok?
    ensures var plan := PlanStep(mode, params, saliency, inputs, ops, root3);
            plan.decision.DecideCompute? && plan.mode.TorqueControl? ==>
              && inputs.rotorFeedback.Ok?
              && var feedback := inputs.rotorFeedback.value;
                 plan.decision.input.command
                 == TargetTorque(TorqueDemand(inputs, feedback.omega, MechToFeedback(feedback.angleType, params), params))
  {
    hide Check, Stepped, Decided, TorqueDemand, MechToFeedback;
    if inputs.dcBusReadingV.Some? {
      var checked := Check(mode, saliency, inputs, ops);
      CheckedHasSetpoint(mode, saliency, inputs, ops);
      SteppedByMode(checked, params, inputs, ops);
      DecidedByMode(Stepped(checked, params, inputs, ops), FeedbackOf(checked), checked.feedback.Ok?,
                    inputs.dcBusReadingV.value, inputs, ops, root3);
    }
  }

  /** A fault of the board, of the calibration or of the speed ends the tick faulted, and a fault lasts the tick. */
  lemma FaultsEndFaulted<C>(
    mode: OperatingMode<C>, params: MotorParamsEstimate, saliency: SaliencyReading, inputs: FocStepInputs,
    ops: CalibratorOps<C>, root3: real)
    requires mode.Valid() && root3 != 0.0
    ensures var plan := PlanStep(mode, params, saliency, inputs, ops, root3);
            && (mode.Fault? || inputs.watchdogFault || inputs.overcurrent || inputs.brakingLimitExceeded ==> plan.mode.Fault?)
            && (Check(mode, saliency, inputs, ops).feedbackFault ==> plan.mode.Fault?)
            && (plan.stage.Some? && plan.stage.value.StageFailure? ==>
                  plan.mode.Fault? && plan.mode.trace[0] == FromCalibration(plan.stage.value.cause))
  {
    CheckKeepsFault(mode, saliency, inputs, ops);
    hide Check, Stepped, Decided, FeedbackOf;
    if inputs.dcBusReadingV.Some? {
      var checked := Check(mode, saliency, inputs, ops);
      SteppedByMode(checked, params, inputs, ops);
      DecidedByMode(Stepped(checked, params, inputs, ops), FeedbackOf(checked), checked.feedback.Ok?,
                    inputs.dcBusReadingV.value, inputs, ops, root3);
    }
  }

  lemma CheckKeepsFault<C>(
    mode: OperatingMode<C>, saliency: SaliencyReading, inputs: FocStepInputs, ops: CalibratorOps<C>)
    requires mode.Valid()
    ensures var checked := Check(mode, saliency, inputs, ops);
            && (mode.Fault? || inputs.watchdogFault || inputs.overcurrent || inputs.brakingLimitExceeded ==> checked.mode.Fault?)
            && (checked.feedbackFault ==> checked.mode.Fault?)
  {
    hide Seeds, FeedbackFault, NeedsSetpoint, Commanded;
  }

  /** The injection amplitude handed to the controller is one the bus has room for. */
  lemma AmplitudeAlwaysFits<C>(
    mode: OperatingMode<C>, params: MotorParamsEstimate, saliency: SaliencyReading, inputs: FocStepInputs,
    ops: CalibratorOps<C>, root3: real)
    requires mode.Valid() && IsRoot3(root3)
    requires inputs.hfiAmplitudeV >= 0.0 && inputs.hfiStartupAmplitudeV >= 0.0
    requires inputs.dcBusReadingV.Some? ==> inputs.dcBusReadingV.value >= 0.0
    ensures var plan := PlanStep(mode, params, saliency, inputs, ops, root3);
            plan.decision.DecideCompute? ==>
              AmplitudeFits(plan.decision.input, root3) && plan.decision.input.dcBusVoltageV == inputs.dcBusReadingV.value
  {
    if inputs.dcBusReadingV.Some? {
      var checked := Check(mode, saliency, inputs, ops);
      RadiusSquared(inputs.dcBusReadingV.value, root3);
      hide Check, Stepped, Decided, FeedbackOf, LinearRadius, TorqueDemand, MechToFeedback;
      DecidedByMode(Stepped(checked, params, inputs, ops), FeedbackOf(checked), checked.feedback.Ok?,
                    inputs.dcBusReadingV.value, inputs, ops, root3);
    }
  }

  // ---- In mechanical terms ----

  /** The mechanical speed of a feedback, in revolutions a minute. */
  function MechRpm(feedback: RotorFeedback, numPolePairs: nat): real
    requires numPolePairs >= 1
  {
    var mech := if feedback.angleType.Mechanical? then feedback.omega else feedback.omega / numPolePairs as real;
    mech * 30.0 / PI
  }

  lemma RpmScales(feedback: RotorFeedback, numPolePairs: nat, limit: real, scale: real)
    requires numPolePairs >= 1 && scale == if feedback.angleType.Mechanical? then 1.0 else numPolePairs as real
    ensures feedback.omega > Mul(limit * RPM_TO_RADS, scale) <==> MechRpm(feedback, numPolePairs) > limit
    ensures feedback.omega < -Mul(limit * RPM_TO_RADS, scale) <==> MechRpm(feedback, numPolePairs) < -limit
  {
    var mech := if feedback.angleType.Mechanical? then feedback.omega else feedback.omega / numPolePairs as real;
    if feedback.angleType.Electrical? {
      DivMul(feedback.omega, scale);
    } else {
      MulOne(mech);
    }
    assert feedback.omega == Mul(scale, mech);
    MulComm(limit * RPM_TO_RADS, scale);
    MulLinear(scale, mech, limit * RPM_TO_RADS);
    MulSign(scale, mech - limit * RPM_TO_RADS);
    MulSign(scale, -(mech + limit * RPM_TO_RADS));
    MulLinear(scale, mech + limit * RPM_TO_RADS, 0.0);
    hide Mul;
  }

  lemma LimitScales(feedback: RotorFeedback, numPolePairs: nat, limit: real, scale: real)
    requires numPolePairs >= 1 && scale == if feedback.angleType.Mechanical? then 1.0 else numPolePairs as real
    ensures feedback.omega > Mul(RPM_TO_RADS * limit, scale) <==> MechRpm(feedback, numPolePairs) > limit
    ensures feedback.omega < -Mul(RPM_TO_RADS * limit, scale) <==> MechRpm(feedback, numPolePairs) < -limit
  {
    RpmScales(feedback, numPolePairs, limit, scale);
    assert RPM_TO_RADS * limit == limit * RPM_TO_RADS;
    hide Mul, MechRpm;
  }

  lemma StationaryScales(feedback: RotorFeedback, numPolePairs: nat, omega: real, scale: real)
    requires numPolePairs >= 1 && scale == if feedback.angleType.Mechanical? then 1.0 else numPolePairs as real
    ensures feedback.omega > Mul(omega, scale) <==> MechRpm(feedback, numPolePairs) > omega * 30.0 / PI
    ensures feedback.omega < -Mul(omega, scale) <==> MechRpm(feedback, numPolePairs) < -(omega * 30.0 / PI)
  {
    RpmScales(feedback, numPolePairs, omega * 30.0 / PI, scale);
    assert omega * 30.0 / PI * RPM_TO_RADS == omega;
    hide Mul, MechRpm;
  }

  /** Whether the feedback is mechanical or electrical, the rotor is too fast when its mechanical speed passes the
      threshold in either direction, and a tick with a valid feedback and a known number of poles then ends faulted. */
  lemma OverspeedIsMechanical<C>(
    mode: OperatingMode<C>, params: MotorParamsEstimate, saliency: SaliencyReading, inputs: FocStepInputs,
    ops: CalibratorOps<C>, root3: real)
    requires mode.Valid() && root3 != 0.0 && mode.TorqueControl? && inputs.rotorFeedback.Ok?
    requires params.numPolePairs.Some? && params.numPolePairs.value >= 1 && inputs.dcBusReadingV.Some?
    ensures var rpm := MechRpm(inputs.rotorFeedback.value, params.numPolePairs.value);
            var threshold := inputs.rotorOverspeedFaultThresholdMechRpm as real;
            var healthy := inputs.targetTorque.Some? && !inputs.watchdogFault && !inputs.overcurrent && !inputs.brakingLimitExceeded;
            var plan := PlanStep(mode, params, saliency, inputs, ops, root3);
            && (rpm > threshold || rpm < -threshold ==>
                  plan.mode.Fault? && (healthy ==> plan.mode.trace[0] == Overspeed))
            && (healthy && -threshold <= rpm <= threshold ==> plan.mode.TorqueControl? && plan.decision.DecideCompute?)
  {
    var feedback := inputs.rotorFeedback.value;
    var scale := if feedback.angleType.Mechanical? then 1.0 else params.numPolePairs.value as real;
    RpmScales(feedback, params.numPolePairs.value, inputs.rotorOverspeedFaultThresholdMechRpm as real, scale);
    hide Mul, MechRpm, Strategy.Tick, Strategy.FaultEvolve, Reaction, TorqueDemand, BackEmfConstant, CappedAmplitude;
  }

  /** The torque of a running drive, in mechanical terms: it does not accelerate a rotor past the speed limit, brakes a
      turning one with no more than the braking current makes, and is the setpoint otherwise. */
  lemma TorqueDemandMeans(inputs: FocStepInputs, feedback: RotorFeedback, params: MotorParamsEstimate)
    requires params.numPolePairs.Some? && params.numPolePairs.value >= 1 && params.pmFluxLinkage.Some?
    requires params.pmFluxLinkage.value >= 0.0 && inputs.brakingCurrentLimitA >= 0.0 && inputs.stationaryOmegaThreshold >= 0.0
    ensures var rpm, limit := MechRpm(feedback, params.numPolePairs.value), inputs.rotorSpeedLimitMechRpm as real;
            var stationary := inputs.stationaryOmegaThreshold * 30.0 / PI;
            var braking := Mul(Mul(1.5 * params.numPolePairs.value as real, params.pmFluxLinkage.value), inputs.brakingCurrentLimitA);
            var setpoint := OrZero(inputs.targetTorque);
            var t := TorqueDemand(inputs, feedback.omega, MechToFeedback(feedback.angleType, params), params);
            && Towards(t, setpoint)
            && (rpm > limit ==> t <= 0.0) && (rpm < -limit ==> t >= 0.0)
            && (rpm > stationary ==> t >= -braking) && (rpm < -stationary ==> t <= braking)
            && (-limit <= rpm <= limit && -braking <= setpoint <= braking ==> t == setpoint)
            && (-limit <= rpm <= limit && -stationary <= rpm <= stationary ==> t == setpoint)
  {
    var scale := if feedback.angleType.Mechanical? then 1.0 else params.numPolePairs.value as real;
    LimitScales(feedback, params.numPolePairs.value, inputs.rotorSpeedLimitMechRpm as real, scale);
    StationaryScales(feedback, params.numPolePairs.value, inputs.stationaryOmegaThreshold, scale);
    MulNonNegative(inputs.stationaryOmegaThreshold, scale);
    MulNonNegative(RPM_TO_RADS * inputs.rotorSpeedLimitMechRpm as real, scale);
    BrakingNotNegative(params, inputs.brakingCurrentLimitA);
    TorqueConstantIs(params);
    hide Mul, MechRpm, MotorParamsEstimate.TorqueConstant;
  }

  lemma TorqueConstantIs(params: MotorParamsEstimate)
    requires params.numPolePairs.Some? && params.pmFluxLinkage.Some?
    ensures params.TorqueConstant().Some?
    ensures params.TorqueConstant().value == Mul(1.5 * params.numPolePairs.value as real, params.pmFluxLinkage.value)
  {
  }

  lemma BrakingNotNegative(params: MotorParamsEstimate, limit: real)
    requires params.numPolePairs.Some? && params.pmFluxLinkage.Some? && params.pmFluxLinkage.value >= 0.0 && limit >= 0.0
    ensures Mul(OrZero(params.TorqueConstant()), limit) >= 0.0
  {
    TorqueConstantIs(params);
    MulNonNegative(1.5 * params.numPolePairs.value as real, params.pmFluxLinkage.value);
    MulNonNegative(OrZero(params.TorqueConstant()), limit);
  }

  /** The back-EMF the safe state is chosen by is that of the electrical speed and the flux, whichever speed the feedback
      gives. */
  lemma BackEmfIsElectrical(
    feedback: RotorFeedback, valid: bool, bus: real, params: MotorParamsEstimate, inputs: FocStepInputs, root3: real)
    requires params.numPolePairs.Some? && params.pmFluxLinkage.Some?
    ensures var input := SafeInputFor(feedback, valid, bus, params, inputs);
            var omegaE := if feedback.angleType.Electrical? then feedback.omega
                          else Mul(params.numPolePairs.value as real, feedback.omega);
            && input.backEmfConstant.Some? && input.dcBusV == bus && input.dcBusMaxV == inputs.dcBusMaxV
            && input.rotorFeedbackValid == valid && input.tickDtMs == inputs.tickDtMs
            && BackEmf(input.backEmfConstant.value, input.omega, root3)
               == Mul(root3, Mul(params.pmFluxLinkage.value, Abs(omegaE)))
  {
    var n, flux, speed := params.numPolePairs.value as real, params.pmFluxLinkage.value, Abs(feedback.omega);
    AbsScales(n, feedback.omega);
    MulAssoc(root3, flux, speed);
    MulAssoc(root3, Mul(flux, n), speed);
    MulAssoc(flux, n, speed);
    hide Mul, Abs;
  }

  lemma AbsScales(n: real, x: real)
    requires n >= 0.0
    ensures Abs(Mul(n, x)) == Mul(n, Abs(x))
  {
    MulSign(n, x);
    MulLinear(n, x, 0.0);
    MulZero(x);
    hide Mul;
  }

  /** How the polarity test ends. It goes over to torque control when the polarity is found, and when another source gives
      an electrical angle above the threshold speed in either direction; then the saliency estimator is seeded with that
      feedback, and the windup cleared. A failed test faults the drive. Until then the feedback is that of the saliency
      estimator, and outside the test nothing happens. */
  lemma PolarityResolves<C>(
    foc: FocState, mode: OperatingMode<C>, saliency: SaliencyReading, inputs: FocStepInputs, ops: CalibratorOps<C>)
    requires mode.Valid() && !inputs.watchdogFault && !inputs.overcurrent && !inputs.brakingLimitExceeded
    ensures var fast := && inputs.rotorFeedback.Ok? && inputs.rotorFeedback.value.angleType.Electrical?
                        && (inputs.rotorFeedback.value.omega > inputs.hfiDisableThresholdOmegaRads
                            || -inputs.rotorFeedback.value.omega > inputs.hfiDisableThresholdOmegaRads);
            var (next, feedback) := Resolved(Diagnosed(mode, inputs, ops), inputs, saliency, ops);
            var seed := SeedOf(Diagnosed(mode, inputs, ops), inputs, saliency);
            var entered := Entered(foc, mode, saliency, inputs, ops);
            && (!mode.SaliencyPolarityTest? ==> next == mode && feedback == inputs.rotorFeedback && seed == None && entered == foc)
            && (mode.SaliencyPolarityTest? ==>
                  match saliency.polePolarity
                  case Some(Ok(_)) =>
                    next.TorqueControl? && feedback == inputs.rotorFeedback && seed == None && entered == foc.Cleared()
                  case Some(Err(_)) =>
                    next.Fault? && next.trace[0] == SensorlessPolarityTestFault && seed == None && entered == foc
                  case None =>
                    if fast then
                      next.TorqueControl? && feedback == inputs.rotorFeedback && seed == Some(inputs.rotorFeedback.value)
                      && entered == foc.Cleared()
                    else next == mode && feedback == saliency.feedback && seed == None && entered == foc)
  {
    hide Strategy.FaultEvolve, Reaction;
  }

  /** The trace of a fault starts with what was found first: a violated deadline, too much current, the braking limit, then
      a missing setpoint, then an invalid feedback. */
  lemma FaultsAreNamed<C>(
    mode: OperatingMode<C>, saliency: SaliencyReading, inputs: FocStepInputs, ops: CalibratorOps<C>)
    requires mode.Valid() && mode.TorqueControl?
    ensures var checked := Check(mode, saliency, inputs, ops).mode;
            var first := if checked.Fault? then Some(checked.trace[0]) else None;
            first == (if inputs.watchdogFault then Some(RealtimeViolated)
                      else if inputs.overcurrent then Some(Overcurrent)
                      else if inputs.brakingLimitExceeded then Some(RegenLimitExceeded)
                      else if inputs.targetTorque.None? then Some(SetpointTimeout)
                      else if inputs.rotorFeedback.Err? then Some(InvalidRotorFeedback)
                      else None)
  {
    hide Strategy.FaultEvolve, Reaction;
  }

  /** Different failures of an estimation, of a calibration and of the computation show as different causes, but for the
      two ways a controller can lack its gains. */
  lemma CausesTellApart(a: EstimationStepFault, b: EstimationStepFault, c: FocFault, d: FocFault)
    ensures FromEstimation(a) == FromEstimation(b) <==> a == b
    ensures FromCalibration(MotorParameterEstimation(a)) == FromEstimation(a)
    ensures FromEstimation(a) != CalibrationTimeout && FromEstimation(a) != HallEdgeDisagreement
    ensures FromCalibration(Timeout) == CalibrationTimeout
    ensures FromCalibration(HallCalibrationFailed(EdgeDisagreement)) == HallEdgeDisagreement
    ensures FromFoc(c) == FromFoc(d) <==>
            c == d || (c in {MissingControllerGains, InvalidParameter} && d in {MissingControllerGains, InvalidParameter})
    ensures FromFoc(c) in {MotorParamsMissing, ControllerGainsMissing, ControllerNumericalError}
    ensures FromEstimation(EstimationStepFault.MissingParameter) == FromFoc(MissingMotorParams) == MotorParamsMissing
  {
  }

  /** An invalid feedback faults torque control and the polarity test, and nothing else. */
  lemma FeedbackFaultsIff<C>(
    mode: OperatingMode<C>, saliency: SaliencyReading, inputs: FocStepInputs, ops: CalibratorOps<C>)
    requires mode.Valid() && !inputs.watchdogFault && !inputs.overcurrent && !inputs.brakingLimitExceeded
    ensures var checked := Check(mode, saliency, inputs, ops);
            && (mode.Idle? || mode.Calibration? || mode.Fault? ==>
                  checked.mode == mode && !checked.feedbackFault && checked.feedback == inputs.rotorFeedback)
            && (mode.TorqueControl? && inputs.targetTorque.Some? ==>
                  (checked.feedbackFault <==> inputs.rotorFeedback.Err?)
                  && (checked.mode.Fault? <==> inputs.rotorFeedback.Err?))
            && (mode.SaliencyPolarityTest? && saliency.polePolarity.None? && !Seeds(inputs) && inputs.targetTorque.Some? ==>
                  (checked.feedbackFault <==> saliency.feedback.Err?) && (checked.mode.Fault? <==> saliency.feedback.Err?))
  {
    hide Seeds, Strategy.FaultEvolve, Reaction;
  }

  /** What a calibration modulates is what its calibrator asks for, with the parameters found so far. */
  lemma CalibrationModulates<C>(
    mode: OperatingMode<C>, params: MotorParamsEstimate, saliency: SaliencyReading, inputs: FocStepInputs,
    ops: CalibratorOps<C>, root3: real)
    requires mode.Valid() && root3 != 0.0 && mode.Calibration?
    ensures var plan, feedback := PlanStep(mode, params, saliency, inputs, ops, root3), FeedbackOf(Check(mode, saliency, inputs, ops));
            var (next, output, stage) := ops.step(mode.calibrator, CalibrationInputs(feedback.angleType, feedback.theta));
            && feedback == (if inputs.rotorFeedback.Ok? then inputs.rotorFeedback.value else RotorFeedback(Electrical, 0.0, 0.0))
            && (plan.mode.Calibration? && plan.decision.DecideCompute? ==>
                  && plan.mode.calibrator == next && plan.stage == stage && plan.decision.estimate == ops.estimate(next)
                  && plan.decision.input.command == output.focCommand && plan.decision.input.theta == output.theta
                  && plan.decision.input.angleType == output.angleType)
            && (plan.mode.Calibration? && inputs.dcBusReadingV.Some? ==>
                  (plan.decision.DecideCompute? <==> !ops.mode.waiting(mode.calibrator) && !ops.mode.waiting(next)))
  {
    hide Overspeeding, MechToFeedback, FromCalibration, TorqueDemand, Strategy.Tick, Strategy.FaultEvolve, Reaction, CappedAmplitude,
         Seeds;
  }

  // ---- The drive with its calibration ----

  /** The operations of the calibration runner, for a given setup and reading of the Hall calibrator. */
  function RunnerOps(setup: Setup, hall: HallReading): CalibratorOps<Runner> {
    CalibratorOps(
      Calibrators((request: CalibrationRequest) => NewRunner(request.numPolePairs),
                  (r: Runner) => r.Resume(setup.numPolePairs),
                  (r: Runner) => r.phase.Waiting()),
      (r: Runner, inputs: CalibrationInputs) => r.Step(inputs, hall, setup.config, setup.hasHall),
      (r: Runner, data: FocResult) =>
        r.(estimator := r.estimator.AfterFocIteration(data, setup.config.estimator, setup.math)),
      (r: Runner) => r.estimator.params)
  }

  ghost predicate CalibratorInStep(mode: OperatingMode<Runner>) {
    mode.Calibration? ==> mode.calibrator.InStep()
  }

  /** No command, in any mode, takes the phase of a calibration out of step with its estimator. */
  lemma CommandKeepsInStep(mode: OperatingMode<Runner>, command: Command, setup: Setup, hall: HallReading)
    requires mode.Valid() && CalibratorInStep(mode)
    ensures CalibratorInStep(Commanded(mode, command, RunnerOps(setup, hall).mode).0)
  {
    if mode.Calibration? {
      ResumeStaysInStep(mode.calibrator, setup);
    }
    if command.StartCalibration? {
      RunsStayInStep(command.request.numPolePairs, [], setup);
    }
    hide Runner.InStep, Runner.Resume, Strategy.FaultEvolve, Reaction;
  }

  /** Nor does a step of the current loop, whatever its inputs. */
  lemma PlanKeepsInStep(
    mode: OperatingMode<Runner>, params: MotorParamsEstimate, saliency: SaliencyReading, inputs: FocStepInputs,
    setup: Setup, hall: HallReading, root3: real)
    requires mode.Valid() && root3 != 0.0 && CalibratorInStep(mode)
    ensures CalibratorInStep(PlanStep(mode, params, saliency, inputs, RunnerOps(setup, hall), root3).mode)
  {
    var ops := RunnerOps(setup, hall);
    var checked := Check(mode, saliency, inputs, ops);
    CheckKeepsCalibrator(mode, saliency, inputs, ops);
    if checked.mode.Calibration? {
      var feedback := FeedbackOf(checked);
      StepStaysInStep(checked.mode.calibrator, CalibrationInputs(feedback.angleType, feedback.theta), hall, setup);
    }
    SteppedKeepsCalibrator(checked, params, inputs, ops);
    SteppedByMode(checked, params, inputs, ops);
    hide Check, Stepped, Decided, Runner.InStep, Runner.Step, FeedbackOf;
    if inputs.dcBusReadingV.Some? {
      DecidedByMode(Stepped(checked, params, inputs, ops), FeedbackOf(checked), checked.feedback.Ok?,
                    inputs.dcBusReadingV.value, inputs, ops, root3);
    }
  }

  lemma CheckKeepsCalibrator<C>(
    mode: OperatingMode<C>, saliency: SaliencyReading, inputs: FocStepInputs, ops: CalibratorOps<C>)
    requires mode.Valid()
    ensures Check(mode, saliency, inputs, ops).mode.Calibration? ==>
      mode.Calibration? && Check(mode, saliency, inputs, ops).mode == mode
  {
    hide Seeds, FeedbackFault;
  }

  lemma SteppedKeepsCalibrator<C>(
    checked: Checked<C>, params: MotorParamsEstimate, inputs: FocStepInputs, ops: CalibratorOps<C>)
    requires checked.mode.Valid()
    ensures var stepped := Stepped(checked, params, inputs, ops);
            stepped.mode.Calibration? ==>
              && checked.mode.Calibration?
              && (stepped.mode == checked.mode
                  || stepped.mode.calibrator
                     == ops.step(checked.mode.calibrator,
                                 CalibrationInputs(FeedbackOf(checked).angleType, FeedbackOf(checked).theta)).0)
  {
    hide Overspeeding, MechToFeedback, FromCalibration, FeedbackOf;
  }

  // ---- The step ----

  /** The controllers once the mode is checked. */
  function Entered<C>(
    foc: FocState, mode: OperatingMode<C>, saliency: SaliencyReading, inputs: FocStepInputs, ops: CalibratorOps<C>): (r: FocState)
    requires mode.Valid()
    ensures foc.Valid() ==> r.Valid()
    ensures r.root3 == foc.root3
  {
    if StartsAfresh(Diagnosed(mode, inputs, ops), inputs, saliency) then foc.Cleared() else foc
  }

  /** What the computation makes of a plan: the mode, the controllers and the outcome. */
  function Settled<C>(
    plan: Plan<C>, foc: FocState, filtered: ClarkPark, sine: real, ops: CalibratorOps<C>, math: FocMath)
    : (OperatingMode<C>, FocState, FocStepOutcome)
    requires plan.mode.Valid() && foc.Valid()
  {
    match plan.decision
    case DecideOpen => (plan.mode, foc, NonConducting)
    case DecideShort => (plan.mode, foc, Shorted)
    case DecideCompute(input, estimate) =>
      var (next, r) := foc.Step(input, estimate, filtered, sine, true, math);
      match r
      case Ok(result) =>
        (plan.mode, if plan.stage.Some? && plan.stage.value.ClearsWindup() then next.Cleared() else next, Normal(result))
      case Err(fault) =>
        var mode := Commanded(plan.mode, AssertFault(FromFoc(fault)), ops.mode).0;
        (mode, next, if mode.Fault? && mode.safeStrategy.Asc? then Shorted else NonConducting)
  }

  /** A whole step. Whatever does not modulate clears the windup. */
  function Completed<C>(
    plan: Plan<C>, foc: FocState, filtered: ClarkPark, sine: real, ops: CalibratorOps<C>, math: FocMath)
    : (OperatingMode<C>, FocState, FocStepOutcome)
    requires plan.mode.Valid() && foc.Valid()
  {
    var (mode, next, outcome) := Settled(plan, foc, filtered, sine, ops, math);
    (mode, if outcome.Normal? then next else next.Cleared(), outcome)
  }

  /** How a step ends. Modulating leaves the mode of the plan, and a decision to compute that does not modulate ends
      faulted. The controllers of a step that does not modulate start afresh, and so do those of a step that ends a stage of
      a calibration, unless the stage asks for a tuning. Any other step leaves what the computation leaves. */
  lemma StepEnds<C>(
    plan: Plan<C>, foc: FocState, filtered: ClarkPark, sine: real, ops: CalibratorOps<C>, math: FocMath)
    requires plan.mode.Valid() && foc.Valid()
    ensures var (mode, next, outcome) := Completed(plan, foc, filtered, sine, ops, math);
            && (outcome.Normal? ==> plan.decision.DecideCompute? && mode == plan.mode)
            && (plan.decision.DecideCompute? && !outcome.Normal? ==>
                  var r := foc.Step(plan.decision.input, plan.decision.estimate, filtered, sine, true, math).1;
                  mode.Fault? && r.Err? && (!plan.mode.Fault? ==> mode.trace[0] == FromFoc(r.error)))
            && (!outcome.Normal? ==> next == next.Cleared())
            && (outcome.Normal? && plan.stage.Some? && !plan.stage.value.TuningRequest? ==> next == next.Cleared())
            && (outcome.Normal? && (plan.stage.None? || plan.stage.value.TuningRequest?) ==>
                  (next, Ok(outcome.result)) == foc.Step(plan.decision.input, plan.decision.estimate, filtered, sine, true, math))
            && (outcome.Shorted? && plan.decision.DecideCompute? ==> mode.safeStrategy.Asc?)
  {
    hide FocState.Step, FocState.Valid, FromFoc, Strategy.FaultEvolve;
  }

  /** Nor does a step of the drive, cleared or not, leave the bounds of the controllers. */
  lemma StepEndsBounded<C>(
    plan: Plan<C>, foc: FocState, filtered: ClarkPark, sine: real, ops: CalibratorOps<C>, math: FocMath)
    requires plan.mode.Valid() && foc.Valid() && math.Exact() && Bounded(foc) && foc.weakening.decayRate >= 0.0
    requires plan.decision.DecideCompute? ==>
               AmplitudeFits(plan.decision.input, foc.root3) && plan.decision.input.currentLimitA >= 0.0
    ensures Bounded(Completed(plan, foc, filtered, sine, ops, math).1)
  {
    if plan.decision.DecideCompute? {
      StepKeepsBounded(foc, Tick(plan.decision.input, plan.decision.estimate, filtered, sine, true), math);
    }
    hide FocState.Step, AmplitudeFits, FocMath.Exact, FromFoc, Commanded, FocState.Valid;
  }

  method DiagnoseFaults<C>(holder: ModeHolder<C>, inputs: FocStepInputs, ops: CalibratorOps<C>)
    requires holder.mode.Valid()
    modifies holder
    ensures holder.mode.Valid() && holder.mode == Diagnosed(old(holder.mode), inputs, ops)
  {
    hide Commanded;
    if inputs.watchdogFault {
      var _ := holder.OnCommand(AssertFault(RealtimeViolated), ops.mode);
    }
    if inputs.overcurrent {
      var _ := holder.OnCommand(AssertFault(Overcurrent), ops.mode);
    }
    if inputs.brakingLimitExceeded {
      var _ := holder.OnCommand(AssertFault(RegenLimitExceeded), ops.mode);
    }
  }

  method ResolvePolarity<C>(
    holder: ModeHolder<C>, foc: FOC, saliency: SaliencyReading, inputs: FocStepInputs, ops: CalibratorOps<C>)
    returns (feedback: Result<RotorFeedback, RotorFeedbackFault>, seed: Option<RotorFeedback>)
    requires holder.mode.Valid() && foc.Valid() && {holder as object} !! foc.Repr + {foc}
    modifies holder, foc`prev, foc.Repr
    ensures foc.Valid() && holder.mode.Valid()
    ensures (holder.mode, feedback) == Resolved(old(holder.mode), inputs, saliency, ops)
    ensures seed == SeedOf(old(holder.mode), inputs, saliency)
    ensures foc.State()
         == if StartsAfresh(old(holder.mode), inputs, saliency) then old(foc.State()).Cleared() else old(foc.State())
  {
    hide Commanded;
    seed := None;
    if !holder.mode.SaliencyPolarityTest? {
      return inputs.rotorFeedback, None;
    }
    match saliency.polePolarity {
      case None =>
        if Seeds(inputs) {
          seed := Some(inputs.rotorFeedback.value);
          foc.ClearWindup();
          var _ := holder.OnCommand(EnableTorqueControl, ops.mode);
          feedback := inputs.rotorFeedback;
        } else {
          feedback := saliency.feedback;
        }
      case Some(Ok(_)) =>
        foc.ClearWindup();
        var _ := holder.OnCommand(EnableTorqueControl, ops.mode);
        feedback := inputs.rotorFeedback;
      case Some(Err(_)) =>
        var _ := holder.OnCommand(AssertFault(SensorlessPolarityTestFault), ops.mode);
        feedback := inputs.rotorFeedback;
    }
  }

  method CheckMode<C>(
    holder: ModeHolder<C>, foc: FOC, saliency: SaliencyReading, inputs: FocStepInputs, ops: CalibratorOps<C>)
    returns (checked: Checked<C>, seed: Option<RotorFeedback>)
    requires holder.mode.Valid() && foc.Valid() && {holder as object} !! foc.Repr + {foc}
    modifies holder, foc`prev, foc.Repr
    ensures foc.Valid() && holder.mode.Valid()
    ensures checked == Check(old(holder.mode), saliency, inputs, ops) && holder.mode == checked.mode
    ensures foc.State() == Entered(old(foc.State()), old(holder.mode), saliency, inputs, ops)
    ensures seed == SeedOf(Diagnosed(old(holder.mode), inputs, ops), inputs, saliency)
  {
    hide Diagnosed, Resolved, Commanded, StartsAfresh, SeedOf;
    DiagnoseFaults(holder, inputs, ops);
    var feedback;
    feedback, seed := ResolvePolarity(holder, foc, saliency, inputs, ops);
    if NeedsSetpoint(holder.mode) && inputs.targetTorque.None? {
      var _ := holder.OnCommand(AssertFault(SetpointTimeout), ops.mode);
    }
    var fault := feedback.Err? && !Gate(holder.mode, ops.mode).feedbackOptional;
    if fault {
      var _ := holder.OnCommand(AssertFault(InvalidRotorFeedback), ops.mode);
    }
    checked := Checked(holder.mode, feedback, fault);
  }

  method StepCalibration<C>(
    holder: ModeHolder<C>, checked: Checked<C>, params: MotorParamsEstimate, inputs: FocStepInputs, ops: CalibratorOps<C>)
    returns (stepped: Calibrated<C>)
    requires holder.mode.Valid() && holder.mode == checked.mode
    modifies holder
    ensures holder.mode.Valid() && holder.mode == stepped.mode && stepped == Stepped(checked, params, inputs, ops)
  {
    hide Commanded, Overspeeding, MechToFeedback, FromCalibration;
    var feedback := FeedbackOf(checked);
    var stage, output, estimate := None, None, params;
    if Gate(holder.mode, ops.mode).active {
      if holder.mode.Calibration? {
        var next := ops.step(holder.mode.calibrator, CalibrationInputs(feedback.angleType, feedback.theta));
        holder.mode := OperatingMode.Calibration(next.0);
        output, stage, estimate := Some(next.1), next.2, ops.estimate(next.0);
      }
    }
    if stage.Some? && stage.value.StageFailure? {
      var _ := holder.OnCommand(AssertFault(FromCalibration(stage.value.cause)), ops.mode);
    }
    if !checked.feedbackFault && Overspeeding(feedback.omega, MechToFeedback(feedback.angleType, estimate), inputs) {
      var _ := holder.OnCommand(AssertFault(Overspeed), ops.mode);
    }
    stepped := Calibrated(holder.mode, stage, output, estimate);
  }

  method Decide<C>(
    holder: ModeHolder<C>, calibrated: Calibrated<C>, feedback: RotorFeedback, valid: bool, bus: real,
    inputs: FocStepInputs, ops: CalibratorOps<C>, root3: real) returns (decision: Decision)
    requires holder.mode.Valid() && holder.mode == calibrated.mode && root3 != 0.0
    modifies holder
    ensures holder.mode.Valid()
    ensures Plan(holder.mode, calibrated.stage, decision)
         == Decided(calibrated, feedback, valid, bus, inputs, ops, root3)
  {
    hide TorqueDemand, MechToFeedback, CappedAmplitude, Strategy.Tick, SafeInputFor;
    var angleType, theta, command := feedback.angleType, feedback.theta, TargetTorque(0.0);
    var amplitude, estimate := inputs.hfiAmplitudeV, calibrated.estimate;
    var gate := Gate(holder.mode, ops.mode);
    if gate.useSafetyCommand {
      var strategy := new SafeControlStrategy(holder.mode.safeStrategy, root3);
      var safeCommand := strategy.FocTick(SafeInputFor(feedback, valid, bus, estimate, inputs));
      holder.mode := holder.mode.(safeStrategy := strategy.strategy);
      match safeCommand {
        case Floating => return DecideOpen;
        case ActiveShort => return DecideShort;
        case Foc(c) => command := c;
      }
    } else if !gate.active {
      return DecideOpen;
    } else if calibrated.output.Some? {
      var output := calibrated.output.value;
      angleType, theta, command := output.angleType, output.theta, output.focCommand;
    } else if holder.mode.SaliencyPolarityTest? {
      amplitude := inputs.hfiStartupAmplitudeV;
      command := RawVoltages(NO_CURRENT);
    } else {
      command := TargetTorque(TorqueDemand(inputs, feedback.omega, MechToFeedback(feedback.angleType, estimate), estimate));
    }
    decision := DecideCompute(InputFor(command, angleType, theta, feedback.omega, bus, amplitude, inputs, root3), estimate);
  }

  /** One step. `filtered` is what the notch filters let through of the measured currents, and `seed` what the saliency
      estimator is reset with. */
  method FocStep<C>(
    holder: ModeHolder<C>, params: MotorParamsEstimate, foc: FOC, math: FocMath, hfi: SinusoidalPulsingHfi?,
    saliency: SaliencyReading, inputs: FocStepInputs, filtered: ClarkPark, ops: CalibratorOps<C>)
    returns (outcome: FocStepOutcome, stage: Option<StageResult>, seed: Option<RotorFeedback>, ghost plan: Plan<C>)
    requires holder.mode.Valid() && foc.Valid() && math.Exact()
    requires {holder as object} !! foc.Repr + {foc}
    requires hfi != null ==> hfi.Valid() && {hfi, hfi.history} !! foc.Repr + {foc, holder}
    modifies holder, foc`prev, foc.Repr, if hfi == null then {} else {hfi, hfi.history}
    ensures foc.Valid() && (hfi != null ==> hfi.Valid() && hfi.ticks == old(hfi.ticks) + if outcome.Normal? then 1 else 0)
    ensures plan == PlanStep(old(holder.mode), params, saliency, inputs, ops, foc.root3) && stage == plan.stage
    ensures seed == SeedOf(Diagnosed(old(holder.mode), inputs, ops), inputs, saliency)
    ensures (holder.mode, foc.State(), outcome)
         == Completed(plan, Entered(old(foc.State()), old(holder.mode), saliency, inputs, ops), filtered, old(SineOf(hfi)), ops, math)
    ensures outcome.Normal? && AmplitudeFits(plan.decision.input, foc.root3) && plan.decision.input.dcBusVoltageV > 0.0 ==>
      Linear(outcome.result, plan.decision.estimate, foc.root3)
    ensures outcome.Normal? && plan.decision.input.command.TargetTorque? && inputs.activeCurrentLimitA >= 0.0 ==>
      InCircle(outcome.result.targetIDq, inputs.activeCurrentLimitA)
  {
    hide PlanStep, Settled, Linear, InCircle, Entered, SeedOf, Diagnosed;
    outcome, stage, seed, plan := StepInner(holder, params, foc, math, hfi, saliency, inputs, filtered, ops);
    if !outcome.Normal? {
      foc.ClearWindup();
    }
  }

  method StepInner<C>(
    holder: ModeHolder<C>, params: MotorParamsEstimate, foc: FOC, math: FocMath, hfi: SinusoidalPulsingHfi?,
    saliency: SaliencyReading, inputs: FocStepInputs, filtered: ClarkPark, ops: CalibratorOps<C>)
    returns (outcome: FocStepOutcome, stage: Option<StageResult>, seed: Option<RotorFeedback>, ghost plan: Plan<C>)
    requires holder.mode.Valid() && foc.Valid() && math.Exact()
    requires {holder as object} !! foc.Repr + {foc}
    requires hfi != null ==> hfi.Valid() && {hfi, hfi.history} !! foc.Repr + {foc, holder}
    modifies holder, foc`prev, foc.Repr, if hfi == null then {} else {hfi, hfi.history}
    ensures foc.Valid() && (hfi != null ==> hfi.Valid() && hfi.ticks == old(hfi.ticks) + if outcome.Normal? then 1 else 0)
    ensures plan == PlanStep(old(holder.mode), params, saliency, inputs, ops, foc.root3) && stage == plan.stage
    ensures seed == SeedOf(Diagnosed(old(holder.mode), inputs, ops), inputs, saliency)
    ensures (holder.mode, foc.State(), outcome)
         == Settled(plan, Entered(old(foc.State()), old(holder.mode), saliency, inputs, ops), filtered, old(SineOf(hfi)), ops, math)
    ensures outcome.Normal? && AmplitudeFits(plan.decision.input, foc.root3) && plan.decision.input.dcBusVoltageV > 0.0 ==>
      Linear(outcome.result, plan.decision.estimate, foc.root3)
    ensures outcome.Normal? && plan.decision.input.command.TargetTorque? && inputs.activeCurrentLimitA >= 0.0 ==>
      InCircle(outcome.result.targetIDq, inputs.activeCurrentLimitA)
  {
    hide Check, Stepped, FeedbackOf, Diagnosed, Entered, SeedOf, Linear, InCircle, Commanded, FocState.Step;
    stage := None;
    plan := PlanStep(holder.mode, params, saliency, inputs, ops, foc.root3);
    var checked;
    checked, seed := CheckMode(holder, foc, saliency, inputs, ops);
    if inputs.dcBusReadingV.None? {
      return NonConducting, None, seed, plan;
    }
    var feedback, bus := FeedbackOf(checked), inputs.dcBusReadingV.value;
    var stepped := StepCalibration(holder, checked, params, inputs, ops);
    DecidedByMode(stepped, feedback, checked.feedback.Ok?, bus, inputs, ops, foc.root3);
    stage := stepped.stage;
    hide Decided;
    var decision := Decide(holder, stepped, feedback, checked.feedback.Ok?, bus, inputs, ops, foc.root3);
    match decision {
      case DecideOpen => outcome := NonConducting;
      case DecideShort => outcome := Shorted;
      case DecideCompute(input, estimate) =>
        outcome := Modulate(holder, foc, math, hfi, input, estimate, filtered, stage, ops);
    }
  }

  /** Compute, and settle the outcome. */
  method Modulate<C>(
    holder: ModeHolder<C>, foc: FOC, math: FocMath, hfi: SinusoidalPulsingHfi?, input: FocInput,
    estimate: MotorParamsEstimate, filtered: ClarkPark, stage: Option<StageResult>, ops: CalibratorOps<C>)
    returns (outcome: FocStepOutcome)
    requires holder.mode.Valid() && foc.Valid() && math.Exact()
    requires {holder as object} !! foc.Repr + {foc}
    requires hfi != null ==> hfi.Valid() && {hfi, hfi.history} !! foc.Repr + {foc, holder}
    modifies holder, foc`prev, foc.Repr, if hfi == null then {} else {hfi, hfi.history}
    ensures foc.Valid() && (hfi != null ==> hfi.Valid() && hfi.ticks == old(hfi.ticks) + if outcome.Normal? then 1 else 0)
    ensures (holder.mode, foc.State(), outcome)
         == Settled(Plan(old(holder.mode), stage, DecideCompute(input, estimate)), old(foc.State()), filtered,
                    old(SineOf(hfi)), ops, math)
    ensures outcome.Normal? && AmplitudeFits(input, foc.root3) && input.dcBusVoltageV > 0.0 ==>
      Linear(outcome.result, estimate, foc.root3)
    ensures outcome.Normal? && input.command.TargetTorque? && input.currentLimitA >= 0.0 ==>
      InCircle(outcome.result.targetIDq, input.currentLimitA)
  {
    hide Linear, InCircle, FocState.Step, Commanded, FromFoc;
    var r := foc.Compute(input, estimate, filtered, math, hfi, true);
    if r.Ok? {
      if stage.Some? && stage.value.ClearsWindup() {
        foc.ClearWindup();
      }
      outcome := Normal(r.value);
    } else {
      outcome := FaultOutcome(holder, r.error, ops);
    }
  }

  method FaultOutcome<C>(holder: ModeHolder<C>, error: FocFault, ops: CalibratorOps<C>) returns (outcome: FocStepOutcome)
    requires holder.mode.Valid()
    modifies holder
    ensures holder.mode.Valid() && holder.mode == Commanded(old(holder.mode), AssertFault(FromFoc(error)), ops.mode).0
    ensures holder.mode.Fault? && outcome == if holder.mode.safeStrategy.Asc? then Shorted else NonConducting
  {
    hide FromFoc;
    var _ := holder.OnCommand(AssertFault(FromFoc(error)), ops.mode);
    match holder.mode.safeStrategy {
      case Asc(_) => outcome := Shorted;
      case _ => outcome := NonConducting;
    }
  }

  // ---- After the step ----

  /** What the estimators are fed: the result of a step that modulated and whose stage had none. */
  function SampleOf(outcome: FocStepOutcome, stage: Option<StageResult>): Option<FocResult> {
    if outcome.Normal? && stage.None? then Some(outcome.result) else None
  }

  /** The estimators after a step, and the parameters to use next. */
  function AfterStep<C, P>(
    mode: OperatingMode<C>, params: P, outcome: FocStepOutcome, stage: Option<StageResult>, ops: CalibratorOps<C>,
    paramOps: ParamOps<P>): (OperatingMode<C>, P, MotorParamsEstimate)
  {
    var sample := SampleOf(outcome, stage);
    match mode
    case Calibration(calibrator) =>
      var fed := if sample.Some? then ops.feed(calibrator, sample.value) else calibrator;
      (OperatingMode.Calibration(fed), params, ops.estimate(fed))
    case TorqueControl =>
      var fed := if sample.Some? then paramOps.feed(params, sample.value) else params;
      (mode, fed, paramOps.estimate(fed))
    case _ => (mode, params, paramOps.estimate(params))
  }

  method AfterFocStep<C, P>(
    holder: ModeHolder<C>, params: P, outcome: FocStepOutcome, stage: Option<StageResult>, ops: CalibratorOps<C>,
    paramOps: ParamOps<P>) returns (fed: P, estimate: MotorParamsEstimate)
    modifies holder
    ensures (holder.mode, fed, estimate) == AfterStep(old(holder.mode), params, outcome, stage, ops, paramOps)
  {
    fed := params;
    var sample := if outcome.Normal? && stage.None? then Some(outcome.result) else None;
    match holder.mode {
      case Calibration(calibrator) =>
        var estimator := calibrator;
        if sample.Some? {
          estimator := ops.feed(calibrator, sample.value);
          holder.mode := OperatingMode.Calibration(estimator);
        }
        estimate := ops.estimate(estimator);
      case TorqueControl =>
        if sample.Some? {
          fed := paramOps.feed(params, sample.value);
        }
        estimate := paramOps.estimate(fed);
      case _ => estimate := paramOps.estimate(params);
    }
  }

  /** After a tick in torque control the estimator of the parameters is fed with what was modulated, and its estimate used
      next. After any tick outside a calibration nothing else is fed. */
  lemma AfterStepFeeds<C, P>(
    mode: OperatingMode<C>, params: P, outcome: FocStepOutcome, stage: Option<StageResult>, ops: CalibratorOps<C>,
    paramOps: ParamOps<P>)
    ensures var (next, fed, estimate) := AfterStep(mode, params, outcome, stage, ops, paramOps);
            && (!mode.Calibration? ==> next == mode && estimate == paramOps.estimate(fed))
            && (mode.TorqueControl? && outcome.Normal? && stage.None? ==> fed == paramOps.feed(params, outcome.result))
            && (!mode.TorqueControl? || !outcome.Normal? || stage.Some? ==> fed == params)
            && (mode.Calibration? ==> next.Calibration? && estimate == ops.estimate(next.calibrator))
  {
  }

  /** The calibrator of a checked drive is stepped unless it waits, and the later checks keep it or fault. */
  lemma SteppedCalibration(
    checked: Checked<Runner>, params: MotorParamsEstimate, inputs: FocStepInputs, setup: Setup, hall: HallReading)
    requires checked.mode.Valid()
    ensures var stepped := Stepped(checked, params, inputs, RunnerOps(setup, hall));
            stepped.mode.Calibration? ==>
              && checked.mode.Calibration?
              && var r, feedback := checked.mode.calibrator, FeedbackOf(checked);
                 if r.phase.Waiting() then stepped.mode == checked.mode && stepped.stage.None?
                 else
                   var (next, _, stage) :=
                     r.Step(CalibrationInputs(feedback.angleType, feedback.theta), hall, setup.config, setup.hasHall);
                   stepped.mode.calibrator == next && stepped.stage == stage
  {
    hide Overspeeding, MechToFeedback, FromCalibration, FeedbackOf, Runner.Step;
  }

  /** The calibration of a plan. */
  lemma PlannedCalibration(
    mode: OperatingMode<Runner>, params: MotorParamsEstimate, saliency: SaliencyReading, inputs: FocStepInputs,
    setup: Setup, hall: HallReading, root3: real)
    requires mode.Valid() && mode.Calibration? && root3 != 0.0
    ensures var ops := RunnerOps(setup, hall);
            var plan, feedback := PlanStep(mode, params, saliency, inputs, ops, root3), FeedbackOf(Check(mode, saliency, inputs, ops));
            plan.mode.Calibration? ==>
              if inputs.dcBusReadingV.None? || mode.calibrator.phase.Waiting() then
                plan.mode == mode && plan.stage.None? && plan.decision.DecideOpen?
              else
                var (next, _, stage) := mode.calibrator.Step(CalibrationInputs(feedback.angleType, feedback.theta), hall,
                                                             setup.config, setup.hasHall);
                plan.mode.calibrator == next && plan.stage == stage
  {
    var ops := RunnerOps(setup, hall);
    var checked := Check(mode, saliency, inputs, ops);
    CheckKeepsCalibrator(mode, saliency, inputs, ops);
    SteppedCalibration(checked, params, inputs, setup, hall);
    var stepped := Stepped(checked, params, inputs, ops);
    hide Check, Stepped, FeedbackOf, Runner.Step;
    if inputs.dcBusReadingV.Some? {
      DecidedByMode(stepped, FeedbackOf(checked), checked.feedback.Ok?, inputs.dcBusReadingV.value, inputs, ops, root3);
      WaitingDecidesOpen(stepped, FeedbackOf(checked), checked.feedback.Ok?, inputs.dcBusReadingV.value, inputs, setup, hall, root3);
      hide Decided;
    }
  }

  lemma WaitingDecidesOpen(
    calibrated: Calibrated<Runner>, feedback: RotorFeedback, valid: bool, bus: real, inputs: FocStepInputs,
    setup: Setup, hall: HallReading, root3: real)
    requires calibrated.mode.Valid() && root3 != 0.0
    ensures calibrated.mode.Calibration? && calibrated.mode.calibrator.phase.Waiting() ==>
      Decided(calibrated, feedback, valid, bus, inputs, RunnerOps(setup, hall), root3).decision.DecideOpen?
  {
  }

  /** A tick of the drive, its step and what follows it, moves a calibration on exactly as a tick of a calibration run
      does, unless there is no bus reading, which stops the tick before the calibration. */
  lemma DriveTickIsNext<P>(
    mode: OperatingMode<Runner>, estimates: MotorParamsEstimate, saliency: SaliencyReading, inputs: FocStepInputs,
    foc: FocState, filtered: ClarkPark, sine: real, params: P, paramOps: ParamOps<P>, setup: Setup, hall: HallReading,
    math: FocMath)
    requires mode.Valid() && mode.Calibration? && foc.Valid()
    ensures var ops := RunnerOps(setup, hall);
            var plan := PlanStep(mode, estimates, saliency, inputs, ops, foc.root3);
            var (ended, _, outcome) := Completed(plan, Entered(foc, mode, saliency, inputs, ops), filtered, sine, ops, math);
            var next := AfterStep(ended, params, outcome, plan.stage, ops, paramOps).0;
            var feedback := FeedbackOf(Check(mode, saliency, inputs, ops));
            var tick := CalibrationRuns.Event.OnTick(CalibrationInputs(feedback.angleType, feedback.theta), hall,
                                                     if outcome.Normal? then Some(outcome.result) else None);
            next.Calibration? ==>
              next.calibrator == if inputs.dcBusReadingV.None? then mode.calibrator else Next(mode.calibrator, tick, setup)
  {
    var ops := RunnerOps(setup, hall);
    var plan := PlanStep(mode, estimates, saliency, inputs, ops, foc.root3);
    var entered := Entered(foc, mode, saliency, inputs, ops);
    var checked := Check(mode, saliency, inputs, ops);
    CheckKeepsCalibrator(mode, saliency, inputs, ops);
    PlannedCalibration(mode, estimates, saliency, inputs, setup, hall, foc.root3);
    StepEnds(plan, entered, filtered, sine, ops, math);
    hide PlanStep, Check, Entered, Settled, FeedbackOf, Runner.Step;
  }
}
