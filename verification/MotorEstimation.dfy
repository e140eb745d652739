/** The offline motor estimator: field-oriented/src/commission/motor_estimation.rs.

    The accumulators and the flux solver are values inside the state. */
module MotorEstimation {
  import opened Angles
  import opened FocTypes
  import opened Identification
  import opened Modulation
  import opened MotorParameters
  import opened Multiples
  import opened Reals
  import opened Transforms
  import opened Wrappers

  const MIN_SOLVE_SAMPLES: nat := 1000
  const EST_R_BLOCKS: nat := 4
  const EST_R_TARGET_TOLERANCE := 0.05
  const EST_L_VOLTAGE_MARGIN := 1.5
  const EST_R_MIN_DELTA := 0.00001

  datatype OfflineEstimatorConfig = OfflineEstimatorConfig(
    settleTimeS: real,
    testTimeS: real,
    maxSpinTimeS: real,
    spinOmega: real,
    calibrationCurrentA: real,
    calibrationVoltageV: real,
    dtS: real)

  datatype State =
    | Off
    | RotorLockWait(waitedS: real, known: Option<real>)
    | EstR(block: nat, blockRanS: real, targetReached: bool, high: Mean, low: Mean)
    | EstL(
        axis: Axis,
        lRanS: real,
        lResistance: real,
        sign: real,
        signFlips: nat,
        early: Option<real>,
        late: Option<real>,
        prevI: real,
        lse: Lse)
    | HallCalibrationRequired(resistance: real)
    | TuningRequired(resistance: real)
    | EstF(
        fRanS: real,
        theta: real,
        omega: real,
        fResistance: real,
        dInductance: real,
        qInductance: real,
        voltage: Mean,
        current: Mean)
    | RampDown(
        solver: Option<PmFluxSolver>,
        pendingFault: Option<EstimationStepFault>,
        rampRanS: real,
        rampTheta: real,
        rampOmega: real,
        rampDurationS: real)
    | Failure(fault: EstimationStepFault)
    | Done
  {
    /** No sample moves the estimator on: it waits, has finished or was not started. */
    predicate Settled() {
      Off? || HallCalibrationRequired? || TuningRequired? || Failure? || Done?
    }
  }

  datatype StepResult =
    | Stay(state: State)
    | Transition(next: State)
    | EstimateR(resistance: real, deadtimeRatio: real, next: State)
    | EstimateL(axis: Axis, inductance: real, next: State)
    | EstimateF(next: State)
    | EstimationDone(pmFluxLinkage: real)
    | StepFailed(fault: EstimationStepFault)

  // ---- One sample ----

  function EstRTarget(block: nat, config: OfflineEstimatorConfig): real {
    if block % 2 == 0 then config.calibrationCurrentA else 0.5 * config.calibrationCurrentA
  }

  function StartEstL(axis: Axis, resistance: real, data: FocResult): State {
    EstL(axis, 0.0, resistance, 1.0, 0, None, None, axis.Of(data.measuredIDq), NO_DATA)
  }

  /** A target of zero is never reached: the error ratio is not a number or infinite. */
  predicate ReachesTarget(i: real, target: real) {
    target != 0.0 && Quotient(Abs(i - target), target) <= EST_R_TARGET_TOLERANCE
  }

  /** The resistance and the dead-time ratio of two measured levels. */
  function SolveR(high: Mean, low: Mean): StepResult {
    if high.numData < MIN_SOLVE_SAMPLES || low.numData < MIN_SOLVE_SAMPLES then StepFailed(InsufficientSamples)
    else
      var deltaX := high.X() - low.X();
      if !(Abs(deltaX) > EST_R_MIN_DELTA) then StepFailed(DegenSolution)
      else
        var resistance := Quotient(high.Y() - low.Y(), deltaX);
        if !(resistance > 0.0) then StepFailed(ParameterOutOfBounds)
        else EstimateR(resistance, 0.75 * (high.Y() - Mul(resistance, high.X())), HallCalibrationRequired(resistance))
  }

  function StepEstR(s: State, data: FocResult, config: OfflineEstimatorConfig): StepResult
    requires s.EstR?
  {
    var i, ran := data.measuredIDq.d, s.blockRanS + config.dtS;
    if !s.targetReached then
      if ReachesTarget(i, EstRTarget(s.block, config)) then Stay(s.(blockRanS := 0.0, targetReached := true))
      else if ran >= config.testTimeS then StepFailed(TargetCurrentUnreachable)
      else Stay(s.(blockRanS := ran))
    else
      var x, y := Quotient(i, data.dcBusVoltageV), Quotient(data.uDq.d, data.dcBusVoltageV);
      var high := if s.block % 2 == 0 then s.high.Accumulate(x, y) else s.high;
      var low := if s.block % 2 == 0 then s.low else s.low.Accumulate(x, y);
      if ran < config.testTimeS / 4.0 then Stay(s.(blockRanS := ran, high := high, low := low))
      else if s.block + 1 >= EST_R_BLOCKS then SolveR(high, low)
      else Stay(EstR(s.block + 1, 0.0, false, high, low))
  }

  /** The accumulated data after one more sample; a sample counts between two equal signs only. */
  function AccumulatedL(s: State, data: FocResult, didt: real): Lse
    requires s.EstL?
  {
    if s.signFlips > 0 && s.early.Some? && s.late.Some? && s.early == s.late
    then s.lse.Accumulate(Abs(s.axis.Of(data.uDq)), Mul(s.late.value, didt))
    else s.lse
  }

  function StepEstL(s: State, data: FocResult, config: OfflineEstimatorConfig): StepResult
    requires s.EstL?
  {
    if config.calibrationVoltageV < EST_L_VOLTAGE_MARGIN * Mul(s.lResistance, config.calibrationCurrentA)
    then StepFailed(TargetCurrentUnreachable)
    else
      var i := s.axis.Of(data.measuredIDq);
      var didt, ran := Quotient(i - s.prevI, config.dtS), s.lRanS + config.dtS;
      var lse := AccumulatedL(s, data, didt);
      var moved := s.(prevI := i, lse := lse, early := s.late, late := Some(s.sign), lRanS := ran);
      if ran >= 2.0 * config.testTimeS then StepFailed(InsufficientSamples)
      else if Mul(s.sign, i + 1.5 * Mul(didt, config.dtS)) < config.calibrationCurrentA then Stay(moved)
      else
        var halves := s.signFlips;
        if ran >= config.testTimeS && halves >= 2 && halves % 2 == 0 then
          match lse.Solve(MIN_SOLVE_SAMPLES)
          case Err(fault) => StepFailed(fault)
          case Ok(reciprocal) =>
            var inductance := Quotient(1.0, reciprocal);
            if !(inductance > 0.0) then StepFailed(ParameterOutOfBounds)
            else EstimateL(s.axis, inductance,
                           if s.axis.D? then StartEstL(Q, s.lResistance, data) else TuningRequired(s.lResistance))
        else Stay(moved.(sign := -s.sign, signFlips := s.signFlips + 1))
  }

  function StepEstF(s: State, data: FocResult, config: OfflineEstimatorConfig): StepResult
    requires s.EstF?
  {
    var spinningUp := s.fRanS < config.maxSpinTimeS;
    var omega := if spinningUp then Quotient(Mul(config.spinOmega, s.fRanS), config.maxSpinTimeS) else s.omega;
    var i, u := data.measuredIDq, data.uDq;
    var voltage :=
      if spinningUp then s.voltage
      else s.voltage.Accumulate(u.d - Mul(s.fResistance, i.d), u.q - Mul(s.fResistance, i.q));
    var current := if spinningUp then s.current else s.current.Accumulate(i.d, i.q);
    var theta, ran := WrapTo2Pi(s.theta + Mul(omega, config.dtS)), s.fRanS + config.dtS;
    if ran >= config.maxSpinTimeS + config.testTimeS then
      EstimateF(
        if voltage.numData < MIN_SOLVE_SAMPLES
        then RampDown(None, Some(InsufficientSamples), 0.0, theta, omega, config.testTimeS)
        else if omega == 0.0
        then RampDown(None, Some(DegenSolution), 0.0, theta, omega, config.testTimeS)
        else RampDown(Some(FluxSolverOf(voltage, current, omega, s.dInductance, s.qInductance)), None,
                      0.0, theta, omega, config.testTimeS))
    else
      Stay(s.(omega := omega, voltage := voltage, current := current, theta := theta, fRanS := ran))
  }

  function FluxSolverOf(voltage: Mean, current: Mean, omega: real, dInductance: real, qInductance: real): PmFluxSolver {
    NewSolver(ClarkPark(Quotient(voltage.Y(), omega), Quotient(-voltage.X(), omega)),
              ClarkPark(current.X(), current.Y()), dInductance, qInductance)
  }

  function StepRampDown(s: State, config: OfflineEstimatorConfig, math: FocMath): StepResult
    requires s.RampDown?
  {
    var solver := if s.solver.Some? then Some(s.solver.value.Iterate(math)) else None;
    var theta, ran := WrapTo2Pi(s.rampTheta + Mul(s.rampOmega, config.dtS)), s.rampRanS + config.dtS;
    if ran >= s.rampDurationS then
      if s.pendingFault.Some? then StepFailed(s.pendingFault.value)
      else if solver.Some? && solver.value.pmFlux > 0.0 then EstimationDone(solver.value.pmFlux)
      else StepFailed(ParameterOutOfBounds)
    else Stay(s.(solver := solver, rampTheta := theta, rampRanS := ran))
  }

  function StepLockWait(s: State, data: FocResult, config: OfflineEstimatorConfig): StepResult
    requires s.RotorLockWait?
  {
    var waited := s.waitedS + config.dtS;
    if waited >= config.settleTimeS then
      Transition(match s.known
                 case None => EstR(0, 0.0, false, NO_SAMPLES, NO_SAMPLES)
                 case Some(resistance) => StartEstL(D, resistance, data))
    else Stay(s.(waitedS := waited))
  }

  function StepState(s: State, data: FocResult, config: OfflineEstimatorConfig, math: FocMath): StepResult {
    match s
    case RotorLockWait(_, _) => StepLockWait(s, data, config)
    case EstR(_, _, _, _, _) => StepEstR(s, data, config)
    case EstL(_, _, _, _, _, _, _, _, _) => StepEstL(s, data, config)
    case EstF(_, _, _, _, _, _, _, _) => StepEstF(s, data, config)
    case RampDown(_, _, _, _, _, _) => StepRampDown(s, config, math)
    case _ => Stay(s)
  }

  // ---- The estimator ----

  datatype Estimator = Estimator(state: State, params: MotorParamsEstimate, shouldUnwindController: bool)
  {
    function Start(numPolePairs: u8): Estimator {
      Estimator(RotorLockWait(0.0, None), params.(numPolePairs := Some(numPolePairs)), false)
    }

    function AcknowledgeHallCalibration(): Estimator {
      if state.HallCalibrationRequired? then this.(state := RotorLockWait(0.0, Some(state.resistance))) else this
    }

    function AcknowledgeTuning(): Estimator {
      if !state.TuningRequired? then this
      else if params.dInductance.Some? && params.qInductance.Some? then
        this.(state := EstF(0.0, 0.0, 0.0, state.resistance, params.dInductance.value, params.qInductance.value,
                            NO_SAMPLES, NO_SAMPLES))
      else this.(state := Failure(EstimationStepFault.MissingParameter))
    }

    function Apply(result: StepResult): Estimator {
      match result
      case Stay(s) => this.(state := s)
      case Transition(next) => this.(state := next)
      case EstimateR(resistance, deadtimeRatio, next) =>
        Estimator(next, params.(statorResistance := Some(resistance), deadtimeRatio := Some(deadtimeRatio)), true)
      case EstimateL(axis, inductance, next) =>
        Estimator(next,
                  if axis.D? then params.(dInductance := Some(inductance)) else params.(qInductance := Some(inductance)),
                  shouldUnwindController)
      case EstimateF(next) => this.(state := next)
      case EstimationDone(flux) => Estimator(Done, params.(pmFluxLinkage := Some(flux)), true)
      case StepFailed(fault) => this.(state := Failure(fault), shouldUnwindController := true)
    }

    function AfterFocIteration(data: FocResult, config: OfflineEstimatorConfig, math: FocMath): Estimator {
      if params.numPolePairs.None? then this.(state := Failure(EstimationStepFault.MissingParameter))
      else Apply(StepState(state, data, config, math))
    }

    function Run(samples: seq<FocResult>, config: OfflineEstimatorConfig, math: FocMath): Estimator {
      if samples == [] then this
      else Run(samples[..|samples| - 1], config, math).AfterFocIteration(samples[|samples| - 1], config, math)
    }

    predicate HasResistance() {
      && params.statorResistance.Some? && params.statorResistance.value > 0.0 && params.deadtimeRatio.Some?
    }

    predicate HasInductances() {
      && params.dInductance.Some? && params.dInductance.value > 0.0
      && params.qInductance.Some? && params.qInductance.value > 0.0
    }

    /** All fields are present, and the resistance, the inductances and the flux are positive. */
    predicate Complete() {
      && params.numPolePairs.Some? && HasResistance() && HasInductances()
      && params.pmFluxLinkage.Some? && params.pmFluxLinkage.value > 0.0
    }

    /** What the state implies for the parameters found so far. */
    predicate Consistent() {
      && params.numPolePairs.Some?
      && match state
         case RotorLockWait(_, Some(r)) => HasResistance() && params.statorResistance == Some(r)
         case HallCalibrationRequired(r) => HasResistance() && params.statorResistance == Some(r)
         case EstL(axis, _, r, _, _, _, _, _, _) =>
           && HasResistance() && params.statorResistance == Some(r)
           && (axis.Q? ==> params.dInductance.Some? && params.dInductance.value > 0.0)
         case TuningRequired(r) => HasResistance() && HasInductances() && params.statorResistance == Some(r)
         case EstF(_, _, _, r, d, q, _, _) =>
           && HasResistance() && HasInductances() && params.statorResistance == Some(r)
           && params.dInductance == Some(d) && params.qInductance == Some(q)
         case RampDown(_, _, _, _, _, _) => HasResistance() && HasInductances()
         case Done => Complete()
         case _ => true
    }
  }

  /** Every sample keeps the parameters in step with the state. */
  lemma SampleKeepsConsistent(e: Estimator, data: FocResult, config: OfflineEstimatorConfig, math: FocMath)
    requires e.Consistent()
    ensures e.AfterFocIteration(data, config, math).Consistent()
  {
    hide ReachesTarget, AccumulatedL, Quotient, Mul, Abs, WrapTo2Pi, Lse.Solve, Mean.X, Mean.Y, Mean.Accumulate,
         PmFluxSolver.Iterate, FluxSolverOf, EstRTarget;
  }

  /** The request is met: the missing-parameter branch of the acknowledgement is never taken. */
  lemma TuningNeverMissesParameter(e: Estimator)
    requires e.Consistent()
    ensures e.AcknowledgeTuning().Consistent()
    ensures e.state.TuningRequired? ==> e.AcknowledgeTuning().state.EstF?
  {
  }

  // ---- Termination ----

  function Ceil(x: real): int {
    -((-x).Floor)
  }

  /** The samples until a clock that lacks `gap` seconds has run out, at least one. */
  function TicksFor(gap: real, dtS: real): (n: nat)
    requires dtS > 0.0
    ensures n >= 1
  {
    var n := Ceil(gap / dtS);
    if n < 1 then 1 else n
  }

  lemma TickRuns(gap: real, dtS: real)
    requires dtS > 0.0 && gap - dtS > 0.0
    ensures TicksFor(gap - dtS, dtS) + 1 <= TicksFor(gap, dtS)
  {
    QuotientLess(gap, dtS);
  }

  lemma QuotientLess(gap: real, dtS: real)
    requires dtS > 0.0
    ensures (gap - dtS) / dtS == gap / dtS - 1.0
    ensures gap - dtS > 0.0 ==> (gap - dtS) / dtS > 0.0
  {
    var q := gap / dtS;
    DivMul(gap, dtS);
    assert Mul(q - 1.0, dtS) == Mul(dtS, q) - dtS;
    QuotientOf(q - 1.0, dtS);
    if gap - dtS > 0.0 {
      QuotientSign(gap - dtS, dtS);
    }
    hide Mul;
  }

  /** The samples one block of the resistance test takes at most: to reach the target, and to measure. */
  function BlockTicks(config: OfflineEstimatorConfig): nat
    requires config.dtS > 0.0
  {
    TicksFor(config.testTimeS, config.dtS) + TicksFor(config.testTimeS / 4.0, config.dtS)
  }

  function RemainingBlocks(block: nat): nat {
    if block + 1 >= EST_R_BLOCKS then 0 else EST_R_BLOCKS - 1 - block
  }

  /** A bound on the samples until the state is settled. */
  function TicksLeft(s: State, config: OfflineEstimatorConfig): nat
    requires config.dtS > 0.0
  {
    match s
    case RotorLockWait(waited, known) =>
      TicksFor(config.settleTimeS - waited, config.dtS)
      + if known.None? then Times(EST_R_BLOCKS, BlockTicks(config)) else 2 * TicksFor(2.0 * config.testTimeS, config.dtS)
    case EstR(block, ran, reached, _, _) =>
      Times(RemainingBlocks(block), BlockTicks(config))
      + if reached then TicksFor(config.testTimeS / 4.0 - ran, config.dtS)
        else TicksFor(config.testTimeS - ran, config.dtS) + TicksFor(config.testTimeS / 4.0, config.dtS)
    case EstL(axis, ran, _, _, _, _, _, _, _) =>
      TicksFor(2.0 * config.testTimeS - ran, config.dtS)
      + if axis.D? then TicksFor(2.0 * config.testTimeS, config.dtS) else 0
    case EstF(ran, _, _, _, _, _, _, _) =>
      TicksFor(config.maxSpinTimeS + config.testTimeS - ran, config.dtS) + TicksFor(config.testTimeS, config.dtS)
    case RampDown(_, _, ran, _, _, duration) => TicksFor(duration - ran, config.dtS)
    case _ => 0
  }

  /** The state a step leaves behind, when it does not fail. */
  function Left(result: StepResult): State {
    match result
    case Stay(s) => s
    case Transition(next) => next
    case EstimateR(_, _, next) => next
    case EstimateL(_, _, next) => next
    case EstimateF(next) => next
    case EstimationDone(_) => Done
    case StepFailed(fault) => Failure(fault)
  }

  lemma LockWaitTicks(s: State, data: FocResult, config: OfflineEstimatorConfig)
    requires s.RotorLockWait? && config.dtS > 0.0
    ensures TicksLeft(Left(StepLockWait(s, data, config)), config) < TicksLeft(s, config)
  {
    if config.settleTimeS - s.waitedS - config.dtS > 0.0 {
      TickRuns(config.settleTimeS - s.waitedS, config.dtS);
      assert config.settleTimeS - s.waitedS - config.dtS == config.settleTimeS - (s.waitedS + config.dtS);
    } else {
      NextBlock(3, BlockTicks(config));
    }
    hide TicksFor, Times;
  }

  lemma NextBlock(remaining: nat, ticks: nat)
    ensures Times(remaining + 1, ticks) == Times(remaining, ticks) + ticks
    ensures Times(0, ticks) == 0
  {
    TimesSum(remaining, 1, ticks);
    TimesAtLeast(1, ticks);
    hide Times;
  }

  lemma EstRTicks(s: State, data: FocResult, config: OfflineEstimatorConfig)
    requires s.EstR? && config.dtS > 0.0
    ensures TicksLeft(Left(StepEstR(s, data, config)), config) < TicksLeft(s, config)
  {
    var gap := (if s.targetReached then config.testTimeS / 4.0 else config.testTimeS) - s.blockRanS;
    if gap - config.dtS > 0.0 {
      TickRuns(gap, config.dtS);
    }
    if RemainingBlocks(s.block) > 0 {
      NextBlock(RemainingBlocks(s.block) - 1, BlockTicks(config));
    }
    hide TicksFor, Times, ReachesTarget, Mean.X, Mean.Y, Quotient, Mul, Abs, EstRTarget;
    assert gap - config.dtS == (if s.targetReached then config.testTimeS / 4.0 else config.testTimeS) - (s.blockRanS + config.dtS);
  }

  lemma EstLTicks(s: State, data: FocResult, config: OfflineEstimatorConfig)
    requires s.EstL? && config.dtS > 0.0
    ensures TicksLeft(Left(StepEstL(s, data, config)), config) < TicksLeft(s, config)
  {
    var gap := 2.0 * config.testTimeS - s.lRanS;
    if gap - config.dtS > 0.0 {
      TickRuns(gap, config.dtS);
      assert gap - config.dtS == 2.0 * config.testTimeS - (s.lRanS + config.dtS);
    }
    hide TicksFor, AccumulatedL, Lse.Solve, Quotient, Mul, Abs;
  }

  lemma EstFTicks(s: State, data: FocResult, config: OfflineEstimatorConfig)
    requires s.EstF? && config.dtS > 0.0
    ensures TicksLeft(Left(StepEstF(s, data, config)), config) < TicksLeft(s, config)
  {
    var gap := config.maxSpinTimeS + config.testTimeS - s.fRanS;
    if gap - config.dtS > 0.0 {
      TickRuns(gap, config.dtS);
      assert gap - config.dtS == config.maxSpinTimeS + config.testTimeS - (s.fRanS + config.dtS);
    }
    assert config.testTimeS - 0.0 == config.testTimeS;
    hide TicksFor, FluxSolverOf, Mean.Accumulate, Quotient, Mul, WrapTo2Pi;
  }

  lemma RampDownTicks(s: State, config: OfflineEstimatorConfig, math: FocMath)
    requires s.RampDown? && config.dtS > 0.0
    ensures TicksLeft(Left(StepRampDown(s, config, math)), config) < TicksLeft(s, config)
  {
    var gap := s.rampDurationS - s.rampRanS;
    if gap - config.dtS > 0.0 {
      TickRuns(gap, config.dtS);
      assert gap - config.dtS == s.rampDurationS - (s.rampRanS + config.dtS);
    }
    hide TicksFor, PmFluxSolver.Iterate, Mul, WrapTo2Pi;
  }

  /** Whatever the samples, the bound runs down, and settled states stay. */
  lemma SampleRunsDown(e: Estimator, data: FocResult, config: OfflineEstimatorConfig, math: FocMath)
    requires config.dtS > 0.0 && e.params.numPolePairs.Some?
    ensures var next := e.AfterFocIteration(data, config, math);
            && next.params.numPolePairs.Some?
            && if e.state.Settled() then next == e else TicksLeft(next.state, config) < TicksLeft(e.state, config)
  {
    match e.state {
      case RotorLockWait(_, _) => LockWaitTicks(e.state, data, config);
      case EstR(_, _, _, _, _) => EstRTicks(e.state, data, config);
      case EstL(_, _, _, _, _, _, _, _, _) => EstLTicks(e.state, data, config);
      case EstF(_, _, _, _, _, _, _, _) => EstFTicks(e.state, data, config);
      case RampDown(_, _, _, _, _, _) => RampDownTicks(e.state, config, math);
      case _ =>
    }
    hide TicksLeft, StepLockWait, StepEstR, StepEstL, StepEstF, StepRampDown;
  }

  /** Every run of samples at least as long as the bound of its first state ends waiting, done or failed. */
  lemma {:induction false} RunsSettle(e: Estimator, samples: seq<FocResult>, config: OfflineEstimatorConfig, math: FocMath)
    requires config.dtS > 0.0 && e.params.numPolePairs.Some?
    ensures var last := e.Run(samples, config, math);
            && last.params.numPolePairs.Some?
            && (last.state.Settled() || TicksLeft(last.state, config) + |samples| <= TicksLeft(e.state, config))
  {
    if samples != [] {
      var before, data := samples[..|samples| - 1], samples[|samples| - 1];
      RunsSettle(e, before, config, math);
      SampleRunsDown(e.Run(before, config, math), data, config, math);
    }
    hide TicksLeft, Estimator.AfterFocIteration;
  }

  lemma UnsettledTicks(s: State, config: OfflineEstimatorConfig)
    requires config.dtS > 0.0
    ensures TicksLeft(s, config) == 0 <==> s.Settled()
  {
    hide TicksFor, Times;
  }

  /** From the start, and from either acknowledgement, the bound follows from the configured times. */
  lemma WaitIsBounded(e: Estimator, samples: seq<FocResult>, config: OfflineEstimatorConfig, math: FocMath)
    requires config.dtS > 0.0 && e.params.numPolePairs.Some?
    requires |samples| >= TicksLeft(e.state, config)
    ensures e.Run(samples, config, math).state.Settled()
  {
    RunsSettle(e, samples, config, math);
    UnsettledTicks(e.Run(samples, config, math).state, config);
  }

  lemma BoundAtStart(e: Estimator, numPolePairs: u8, config: OfflineEstimatorConfig)
    requires config.dtS > 0.0
    ensures TicksLeft(e.Start(numPolePairs).state, config)
         == TicksFor(config.settleTimeS, config.dtS)
            + 4 * (TicksFor(config.testTimeS, config.dtS) + TicksFor(config.testTimeS / 4.0, config.dtS))
    ensures e.state.HallCalibrationRequired? ==>
      TicksLeft(e.AcknowledgeHallCalibration().state, config)
      == TicksFor(config.settleTimeS, config.dtS) + 2 * TicksFor(2.0 * config.testTimeS, config.dtS)
    ensures e.Consistent() && e.state.TuningRequired? ==>
      TicksLeft(e.AcknowledgeTuning().state, config)
      == TicksFor(config.maxSpinTimeS + config.testTimeS, config.dtS) + TicksFor(config.testTimeS, config.dtS)
  {
    assert config.settleTimeS - 0.0 == config.settleTimeS;
    assert config.maxSpinTimeS + config.testTimeS - 0.0 == config.maxSpinTimeS + config.testTimeS;
    hide TicksFor;
  }

  // ---- The resistance is identified ----

  /** A sample of a locked rotor with resistance `r` and dead-time ratio `deadtime`. */
  predicate Obeys(data: FocResult, r: real, deadtime: real) {
    && data.dcBusVoltageV != 0.0
    && data.uDq.d == Mul(r, data.measuredIDq.d) + Mul(4.0 / 3.0 * deadtime, data.dcBusVoltageV)
  }

  lemma NormalisedSample(data: FocResult, r: real, deadtime: real)
    requires Obeys(data, r, deadtime)
    ensures Quotient(data.uDq.d, data.dcBusVoltageV)
         == Mul(r, Quotient(data.measuredIDq.d, data.dcBusVoltageV)) + 4.0 / 3.0 * deadtime
  {
    var bus, x := data.dcBusVoltageV, Quotient(data.measuredIDq.d, data.dcBusVoltageV);
    DivMul(data.measuredIDq.d, bus);
    assert Mul(Mul(r, x) + 4.0 / 3.0 * deadtime, bus) == Mul(r, Mul(bus, x)) + Mul(4.0 / 3.0 * deadtime, bus);
    QuotientOf(Mul(r, x) + 4.0 / 3.0 * deadtime, bus);
    hide Mul;
  }

  /** Both levels hold data of the line only. */
  predicate LevelsOnLine(s: State, r: real, deadtime: real)
    requires s.EstR?
  {
    s.high.OnLine(r, 4.0 / 3.0 * deadtime) && s.low.OnLine(r, 4.0 / 3.0 * deadtime)
  }

  lemma SolveRRecovers(high: Mean, low: Mean, r: real, deadtime: real)
    requires high.OnLine(r, 4.0 / 3.0 * deadtime) && low.OnLine(r, 4.0 / 3.0 * deadtime)
    ensures var result := SolveR(high, low);
            result.StepFailed? || result == EstimateR(r, deadtime, HallCalibrationRequired(r))
  {
    if SolveR(high, low).EstimateR? {
      MeanOnLine(high, r, 4.0 / 3.0 * deadtime);
      MeanOnLine(low, r, 4.0 / 3.0 * deadtime);
      MulLinear(r, high.X(), low.X());
      QuotientOf(r, high.X() - low.X());
    }
    hide Mul, Quotient, Mean.X, Mean.Y, Mean.OnLine;
  }

  lemma StepKeepsLine(s: State, data: FocResult, config: OfflineEstimatorConfig, r: real, deadtime: real)
    requires s.EstR? && LevelsOnLine(s, r, deadtime) && Obeys(data, r, deadtime)
    ensures var result := StepEstR(s, data, config);
            && (result.Stay? ==> result.state.EstR? && LevelsOnLine(result.state, r, deadtime))
            && (result.Stay? || result.StepFailed? || result == EstimateR(r, deadtime, HallCalibrationRequired(r)))
  {
    var x, y := Quotient(data.measuredIDq.d, data.dcBusVoltageV), Quotient(data.uDq.d, data.dcBusVoltageV);
    NormalisedSample(data, r, deadtime);
    AccumulateOnLine(s.high, x, y, r, 4.0 / 3.0 * deadtime);
    AccumulateOnLine(s.low, x, y, r, 4.0 / 3.0 * deadtime);
    var high := if s.block % 2 == 0 then s.high.Accumulate(x, y) else s.high;
    var low := if s.block % 2 == 0 then s.low else s.low.Accumulate(x, y);
    SolveRRecovers(high, low, r, deadtime);
    hide Mul, Quotient, SolveR, Mean.OnLine, Mean.Accumulate, ReachesTarget, EstRTarget, Obeys;
  }

  /** What a run over samples of one resistance can reach from the start. */
  predicate Identifies(e: Estimator, r: real, deadtime: real) {
    && e.params.numPolePairs.Some?
    && match e.state
       case RotorLockWait(_, known) => known.None?
       case EstR(_, _, _, _, _) => LevelsOnLine(e.state, r, deadtime)
       case HallCalibrationRequired(found) =>
         found == r && e.params.statorResistance == Some(r) && e.params.deadtimeRatio == Some(deadtime)
       case Failure(_) => true
       case _ => false
  }

  lemma SampleIdentifies(
    e: Estimator, data: FocResult, config: OfflineEstimatorConfig, math: FocMath, r: real, deadtime: real)
    requires Identifies(e, r, deadtime) && Obeys(data, r, deadtime)
    ensures Identifies(e.AfterFocIteration(data, config, math), r, deadtime)
  {
    if e.state.EstR? {
      StepKeepsLine(e.state, data, config, r, deadtime);
      hide StepEstR, LevelsOnLine, Obeys;
    } else {
      EmptyOnLine(r, 4.0 / 3.0 * deadtime);
      hide Mean.OnLine, Obeys;
    }
  }

  lemma {:induction false} RunIdentifies(
    e: Estimator, samples: seq<FocResult>, config: OfflineEstimatorConfig, math: FocMath, r: real, deadtime: real)
    requires Identifies(e, r, deadtime) && forall i :: 0 <= i < |samples| ==> Obeys(samples[i], r, deadtime)
    ensures Identifies(e.Run(samples, config, math), r, deadtime)
  {
    if samples != [] {
      var before, data := samples[..|samples| - 1], samples[|samples| - 1];
      RunIdentifies(e, before, config, math, r, deadtime);
      hide Identifies, Obeys, Estimator.AfterFocIteration;
      SampleIdentifies(e.Run(before, config, math), data, config, math, r, deadtime);
    }
  }

  /** From the start, samples of a motor with resistance `r` and dead-time ratio `deadtime` give exactly these, if the
      estimator gets as far as asking for the Hall calibration. */
  lemma ResistanceIsRecovered(
    e: Estimator, numPolePairs: u8, samples: seq<FocResult>, config: OfflineEstimatorConfig, math: FocMath,
    r: real, deadtime: real)
    requires forall i :: 0 <= i < |samples| ==> Obeys(samples[i], r, deadtime)
    ensures var last := e.Start(numPolePairs).Run(samples, config, math);
            last.state.HallCalibrationRequired? ==>
              && last.state.resistance == r
              && last.params.statorResistance == Some(r) && last.params.deadtimeRatio == Some(deadtime)
  {
    RunIdentifies(e.Start(numPolePairs), samples, config, math, r, deadtime);
    hide Estimator.Run, Obeys;
  }

  // ---- The inductance is identified ----

  /** Whether the next sample of an inductance test counts: it lies between two ticks of the same sign, past the first
      flip. */
  predicate Counts(s: State) {
    s.EstL? && s.signFlips > 0 && s.early.Some? && s.late.Some? && s.early == s.late
  }

  /** What a sample that counts tells of the winding, whose current had the mean `mean` since the last sample. */
  function ExcitationOf(s: State, data: FocResult, mean: real, config: OfflineEstimatorConfig): Excitation
    requires Counts(s)
  {
    Excitation(Abs(s.axis.Of(data.uDq)),
               Mul(s.late.value, Quotient(s.axis.Of(data.measuredIDq) - s.prevI, config.dtS)),
               Mul(s.late.value, mean))
  }

  /** The samples that count of the part of a run that tests `axis`. */
  function TestOf(
    e: Estimator, axis: Axis, samples: seq<FocResult>, means: seq<real>, config: OfflineEstimatorConfig, math: FocMath): seq<Excitation>
    requires |means| == |samples|
  {
    if samples == [] then []
    else
      var n := |samples| - 1;
      var s := e.Run(samples[..n], config, math).state;
      TestOf(e, axis, samples[..n], means[..n], config, math)
      + if Counts(s) && s.axis == axis then [ExcitationOf(s, samples[n], means[n], config)] else []
  }

  /** The winding answers the voltage, of the sign commanded and the magnitude applied, less the drop of its
      resistance, with the slope of its current. */
  predicate Answers(s: State, data: FocResult, mean: real, config: OfflineEstimatorConfig, inductance: real, r: real) {
    Counts(s) ==>
      Mul(inductance, Quotient(s.axis.Of(data.measuredIDq) - s.prevI, config.dtS))
      == Mul(s.late.value, Abs(s.axis.Of(data.uDq))) - Mul(r, mean)
  }

  predicate IsSign(x: real) {
    x == 1.0 || x == -1.0
  }

  predicate Signed(s: State)
    requires s.EstL?
  {
    IsSign(s.sign) && (s.early.Some? ==> IsSign(s.early.value)) && (s.late.Some? ==> IsSign(s.late.value))
  }

  /** What a run can reach from the start of the test of `axis`, whose samples that count so far are `test`. */
  predicate Excites(e: Estimator, axis: Axis, test: seq<Excitation>) {
    && e.params.numPolePairs.Some?
    && match e.state
       case EstL(_, _, _, _, _, _, _, _, lse) => if e.state.axis == axis then Signed(e.state) && lse == Accumulated(Samples(test)) else axis.D?
       case TuningRequired(_) => true
       case Failure(_) => true
       case _ => false
  }

  lemma SampleAppends(test: seq<Excitation>, x: Excitation)
    ensures Accumulated(Samples(test + [x])) == Accumulated(Samples(test)).Accumulate(x.v, x.slope)
  {
    hide Lse.Accumulate;
    assert Samples(test + [x])[..|test|] == Samples(test);
  }

  /** The sums after a sample are those of the samples that count, this one included if it does. */
  lemma AccumulatedTest(s: State, test: seq<Excitation>, data: FocResult, mean: real, config: OfflineEstimatorConfig)
    requires s.EstL? && s.lse == Accumulated(Samples(test))
    ensures var next := test + if Counts(s) then [ExcitationOf(s, data, mean, config)] else [];
            AccumulatedL(s, data, Quotient(s.axis.Of(data.measuredIDq) - s.prevI, config.dtS)) == Accumulated(Samples(next))
  {
    hide Mul, Quotient, Abs, Accumulated, Samples, Lse.Accumulate;
    assert test + [] == test;
    if Counts(s) {
      SampleAppends(test, ExcitationOf(s, data, mean, config));
    }
  }

  lemma SampleExcites(
    e: Estimator, axis: Axis, test: seq<Excitation>, data: FocResult, mean: real, config: OfflineEstimatorConfig, math: FocMath)
    requires Excites(e, axis, test)
    ensures var s := e.state;
            var next := test + if Counts(s) && s.axis == axis then [ExcitationOf(s, data, mean, config)] else [];
            Excites(e.AfterFocIteration(data, config, math), axis, next)
  {
    hide Mul, Quotient, Abs, Accumulated, Samples, Lse.Solve, Lse.Accumulate, AccumulatedL, ExcitationOf;
    if e.state.EstL? && e.state.axis == axis {
      AccumulatedTest(e.state, test, data, mean, config);
    } else {
      assert test + [] == test;
    }
  }

  lemma {:induction false} RunExcites(
    e: Estimator, axis: Axis, samples: seq<FocResult>, means: seq<real>, config: OfflineEstimatorConfig, math: FocMath)
    requires |means| == |samples| && Excites(e, axis, [])
    ensures Excites(e.Run(samples, config, math), axis, TestOf(e, axis, samples, means, config, math))
  {
    hide Excites, Counts, Estimator.AfterFocIteration;
    if samples != [] {
      var n := |samples| - 1;
      RunExcites(e, axis, samples[..n], means[..n], config, math);
      SampleExcites(e.Run(samples[..n], config, math), axis, TestOf(e, axis, samples[..n], means[..n], config, math),
                    samples[n], means[n], config, math);
    }
  }

  /** A sign squares to one. */
  lemma SignTwice(sign: real, x: real)
    requires IsSign(sign)
    ensures Mul(sign, Mul(sign, x)) == x
  {
  }

  lemma ExcitationAnswers(s: State, data: FocResult, mean: real, config: OfflineEstimatorConfig, inductance: real, r: real)
    requires Counts(s) && Signed(s) && Answers(s, data, mean, config, inductance, r)
    ensures var x := ExcitationOf(s, data, mean, config);
            Mul(inductance, x.slope) == x.v - Mul(r, x.current)
  {
    var v, slope := Abs(s.axis.Of(data.uDq)), Quotient(s.axis.Of(data.measuredIDq) - s.prevI, config.dtS);
    var sign := s.late.value;
    hide Mul, Abs, Quotient;
    SignTwice(sign, v);
    MulSwap(inductance, sign, slope);
    MulSwap(r, sign, mean);
    MulLinear(sign, Mul(sign, v), Mul(r, mean));
  }

  /** The excitations are those of a winding. */
  ghost predicate Obeyed(test: seq<Excitation>, inductance: real, r: real) {
    forall k :: 0 <= k < |test| ==> Mul(inductance, test[k].slope) == test[k].v - Mul(r, test[k].current)
  }

  /** Every sample of a run is one of a winding. */
  ghost predicate AllAnswer(
    e: Estimator, samples: seq<FocResult>, means: seq<real>, config: OfflineEstimatorConfig, math: FocMath,
    inductance: real, r: real)
    requires |means| == |samples|
  {
    forall k :: 0 <= k < |samples| ==>
      Answers(e.Run(samples[..k], config, math).state, samples[k], means[k], config, inductance, r)
  }

  lemma AnswersBefore(
    e: Estimator, samples: seq<FocResult>, means: seq<real>, config: OfflineEstimatorConfig, math: FocMath,
    inductance: real, r: real)
    requires samples != [] && |means| == |samples| && AllAnswer(e, samples, means, config, math, inductance, r)
    ensures var n := |samples| - 1;
            && AllAnswer(e, samples[..n], means[..n], config, math, inductance, r)
            && Answers(e.Run(samples[..n], config, math).state, samples[n], means[n], config, inductance, r)
  {
    hide Answers, Estimator.Run;
    var n := |samples| - 1;
    forall k | 0 <= k < n
      ensures Answers(e.Run(samples[..n][..k], config, math).state, samples[..n][k], means[..n][k], config, inductance, r)
    {
      assert samples[..n][..k] == samples[..k];
    }
  }

  lemma {:induction false} TestAnswers(
    e: Estimator, axis: Axis, samples: seq<FocResult>, means: seq<real>, config: OfflineEstimatorConfig, math: FocMath,
    inductance: real, r: real)
    requires |means| == |samples| && Excites(e, axis, []) && AllAnswer(e, samples, means, config, math, inductance, r)
    ensures Obeyed(TestOf(e, axis, samples, means, config, math), inductance, r)
  {
    hide Mul, Abs, Quotient, Estimator.Run, Accumulated, Samples, Answers, AllAnswer, ExcitationOf;
    if samples != [] {
      var n := |samples| - 1;
      AnswersBefore(e, samples, means, config, math, inductance, r);
      TestAnswers(e, axis, samples[..n], means[..n], config, math, inductance, r);
      RunExcites(e, axis, samples[..n], means[..n], config, math);
      var s := e.Run(samples[..n], config, math).state;
      if Counts(s) && s.axis == axis {
        ExcitationAnswers(s, samples[n], means[n], config, inductance, r);
      }
    }
  }

  /** The inductance a test ends with is the reciprocal of the slope solved from the samples that counted. */
  lemma SolvedFromTest(
    s: State, before: seq<Excitation>, data: FocResult, mean: real, config: OfflineEstimatorConfig) returns (reciprocal: real)
    requires s.EstL? && s.lse == Accumulated(Samples(before)) && StepEstL(s, data, config).EstimateL?
    ensures var test := before + if Counts(s) then [ExcitationOf(s, data, mean, config)] else [];
            Accumulated(Samples(test)).Solve(MIN_SOLVE_SAMPLES) == Ok(reciprocal)
    ensures var result := StepEstL(s, data, config);
            result.axis == s.axis && result.inductance == Quotient(1.0, reciprocal) > 0.0
  {
    hide Mul, Quotient, Abs, Accumulated, Samples, Lse.Solve, AccumulatedL, ExcitationOf, StartEstL;
    AccumulatedTest(s, before, data, mean, config);
    reciprocal := AccumulatedL(s, data, Quotient(s.axis.Of(data.measuredIDq) - s.prevI, config.dtS)).Solve(MIN_SOLVE_SAMPLES).value;
  }

  lemma ReciprocalOf(reciprocal: real, inductance: real)
    requires Quotient(1.0, reciprocal) > 0.0
    ensures Quotient(1.0, reciprocal) == inductance <==> Mul(inductance, reciprocal) == 1.0
  {
    DivMul(1.0, reciprocal);
    MulComm(inductance, reciprocal);
    CancelFactor(inductance, 1.0 / reciprocal, reciprocal);
    hide Mul;
  }

  lemma LastOfTest(
    e: Estimator, axis: Axis, samples: seq<FocResult>, means: seq<real>, config: OfflineEstimatorConfig, math: FocMath)
    requires samples != [] && |means| == |samples|
    ensures var n := |samples| - 1;
            var now := e.Run(samples[..n], config, math);
            && e.Run(samples, config, math) == now.AfterFocIteration(samples[n], config, math)
            && TestOf(e, axis, samples, means, config, math)
               == TestOf(e, axis, samples[..n], means[..n], config, math)
                  + if Counts(now.state) && now.state.axis == axis then [ExcitationOf(now.state, samples[n], means[n], config)] else []
  {
    hide Counts, ExcitationOf, Estimator.AfterFocIteration;
  }

  lemma FoundIs(now: Estimator, data: FocResult, config: OfflineEstimatorConfig, math: FocMath)
    requires now.params.numPolePairs.Some? && now.state.EstL? && StepEstL(now.state, data, config).EstimateL?
    ensures var result := StepEstL(now.state, data, config);
            var params := now.AfterFocIteration(data, config, math).params;
            (if result.axis.D? then params.dInductance else params.qInductance) == Some(result.inductance)
  {
    hide StepEstL;
  }

  /** When the samples of a winding with inductance `inductance` and resistance `r` end the test of an axis, the
      inductance found is exactly that of the winding if and only if the drop of the resistance cancels over the
      samples that counted. */
  lemma InductanceIsExactIff(
    e: Estimator, axis: Axis, samples: seq<FocResult>, means: seq<real>, config: OfflineEstimatorConfig, math: FocMath,
    inductance: real, r: real)
    requires e.params.numPolePairs.Some? && samples != [] && |means| == |samples|
    requires exists start, resistance :: e.state == StartEstL(axis, resistance, start)
    requires AllAnswer(e, samples, means, config, math, inductance, r)
    requires var s := e.Run(samples[..|samples| - 1], config, math).state;
             s.EstL? && s.axis == axis && StepEstL(s, samples[|samples| - 1], config).EstimateL?
    ensures var last := e.Run(samples, config, math);
            var found := if axis.D? then last.params.dInductance else last.params.qInductance;
            && found.Some?
            && (found == Some(inductance) <==> Mul(r, Imbalance(TestOf(e, axis, samples, means, config, math))) == 0.0)
  {
    assert Excites(e, axis, []);
    hide StepEstL, AllAnswer, ExcitationOf, Counts, Accumulated, Samples, Lse.Solve, Mul, Quotient, Imbalance, TestOf,
         Estimator.Run, Estimator.AfterFocIteration;
    var n := |samples| - 1;
    var now := e.Run(samples[..n], config, math);
    RunExcites(e, axis, samples[..n], means[..n], config, math);
    TestAnswers(e, axis, samples, means, config, math, inductance, r);
    LastOfTest(e, axis, samples, means, config, math);
    var reciprocal := SolvedFromTest(now.state, TestOf(e, axis, samples[..n], means[..n], config, math), samples[n], means[n], config);
    FoundIs(now, samples[n], config, math);
    hide Excites, StartEstL;
    ReciprocalOf(reciprocal, inductance);
    ReciprocalIsExactIff(inductance, r, TestOf(e, axis, samples, means, config, math), MIN_SOLVE_SAMPLES);
  }

  // ---- The flux is identified ----

  /** The mean voltages of a rotation at `omega`, resistance taken out, give the flux linkage. */
  lemma FluxOfRotation(voltage: Mean, current: Mean, omega: real, lambda: ClarkPark, dInductance: real, qInductance: real)
    requires omega != 0.0 && voltage.X() == -Mul(omega, lambda.q) && voltage.Y() == Mul(omega, lambda.d)
    ensures FluxSolverOf(voltage, current, omega, dInductance, qInductance).lambda == lambda
  {
    MulComm(omega, lambda.d);
    MulComm(omega, lambda.q);
    QuotientOf(lambda.d, omega);
    QuotientOf(lambda.q, omega);
    hide Mul, Mean.X, Mean.Y;
  }

  /** A motor: its inductances, the flux of its magnets, and the cosine and sine of their angle in the turning frame. */
  datatype Magnets = Magnets(dInductance: real, qInductance: real, flux: real, c: real, s: real)
  {
    function LAvg(): real {
      0.5 * (dInductance + qInductance)
    }

    function LDiff(): real {
      0.5 * (dInductance - qInductance)
    }

    function LinkageOf(i: ClarkPark): ClarkPark {
      Linkage(flux, LAvg(), LDiff(), c, s, i)
    }

    function SumOf(n: real, i: ClarkPark): ClarkPark {
      LinkageSum(flux, LAvg(), LDiff(), c, s, n, i)
    }

    predicate Valid() {
      flux > 0.0 && Square(c) + Square(s) == 1.0
    }
  }

  /** A sample of the motor turning at `omega`: the voltage, resistance taken out, is the rotated flux linkage. */
  predicate Turns(data: FocResult, resistance: real, omega: real, motor: Magnets) {
    var i, lambda := data.measuredIDq, motor.LinkageOf(data.measuredIDq);
    data.uDq.d - Mul(resistance, i.d) == -Mul(omega, lambda.q) && data.uDq.q - Mul(resistance, i.q) == Mul(omega, lambda.d)
  }

  /** The sums are those of samples of the motor turning at `omega`. */
  predicate SumsTurn(voltage: Mean, current: Mean, omega: real, motor: Magnets) {
    var total := motor.SumOf(current.numData as real, ClarkPark(current.xSum, current.ySum));
    && voltage.numData == current.numData
    && voltage.xSum == -Mul(omega, total.q) && voltage.ySum == Mul(omega, total.d)
  }

  lemma EmptySumsTurn(omega: real, motor: Magnets)
    ensures SumsTurn(NO_SAMPLES, NO_SAMPLES, omega, motor)
  {
    var cos2, sin2 := Square(motor.c) - Square(motor.s), 2.0 * Mul(motor.s, motor.c);
    hide Square, Mul;
    MulZero(motor.LAvg());
    MulZero(motor.LDiff());
    MulZero(cos2);
    MulZero(sin2);
    MulZero(Mul(motor.flux, motor.c));
    MulZero(Mul(motor.flux, motor.s));
    MulZero(omega);
  }

  lemma SampleSumsTurn(voltage: Mean, current: Mean, data: FocResult, resistance: real, omega: real, motor: Magnets)
    requires SumsTurn(voltage, current, omega, motor) && Turns(data, resistance, omega, motor)
    ensures var i := data.measuredIDq;
            SumsTurn(voltage.Accumulate(data.uDq.d - Mul(resistance, i.d), data.uDq.q - Mul(resistance, i.q)),
                     current.Accumulate(i.d, i.q), omega, motor)
  {
    hide Mul, Linkage, LinkageSum;
    var n, sum, i := current.numData as real, ClarkPark(current.xSum, current.ySum), data.measuredIDq;
    var total, one := motor.SumOf(n, sum), motor.LinkageOf(i);
    LinkageSumAdds(motor.flux, motor.LAvg(), motor.LDiff(), motor.c, motor.s, n, sum, i);
    MulLinear(omega, total.d, one.d);
    MulLinear(omega, total.q, one.q);
  }

  /** The solver made from such sums measures the motor. */
  lemma SumsMeasure(voltage: Mean, current: Mean, omega: real, motor: Magnets)
    requires SumsTurn(voltage, current, omega, motor) && omega != 0.0 && voltage.numData > 0
    ensures FluxSolverOf(voltage, current, omega, motor.dInductance, motor.qInductance).Measures(motor.flux, motor.c, motor.s)
  {
    hide Mul, Linkage, LinkageSum;
    var n, sum := current.numData as real, ClarkPark(current.xSum, current.ySum);
    var mean := motor.LinkageOf(ClarkPark(current.X(), current.Y()));
    LinkageSumIsMean(motor.flux, motor.LAvg(), motor.LDiff(), motor.c, motor.s, n, sum);
    MeanOfTurn(omega, n, mean.d);
    MeanOfTurn(omega, n, mean.q);
    MeanOfTurn(-omega, n, mean.q);
    MulComm(omega, mean.q);
    MulComm(-omega, mean.q);
    MulLinear(mean.q, omega, omega);
    MulComm(omega, Mul(n, mean.q));
    MulComm(-omega, Mul(n, mean.q));
    MulLinear(Mul(n, mean.q), omega, omega);
    FluxOfRotation(voltage, current, omega, mean, motor.dInductance, motor.qInductance);
  }

  lemma MeanOfTurn(omega: real, n: real, x: real)
    requires n != 0.0
    ensures Quotient(Mul(omega, Mul(n, x)), n) == Mul(omega, x)
  {
    MulSwap(omega, n, x);
    MulComm(n, Mul(omega, x));
    QuotientOf(Mul(omega, x), n);
    hide Mul;
  }

  /** What a run over samples of the motor can reach from the acknowledgement of the tuning. */
  predicate Spins(e: Estimator, config: OfflineEstimatorConfig, motor: Magnets) {
    && e.params.numPolePairs.Some?
    && match e.state
       case EstF(ran, _, omega, _, d, q, voltage, current) =>
         && d == motor.dInductance && q == motor.qInductance && SumsTurn(voltage, current, omega, motor)
         && (ran < config.maxSpinTimeS ==> voltage == current == NO_SAMPLES)
       case RampDown(Some(solver), None, _, _, _, _) =>
         solver.lDiff == motor.LDiff() && solver.Measures(motor.flux, motor.c, motor.s)
       case RampDown(_, fault, _, _, _, _) => fault.Some?
       case Done => motor.dInductance == motor.qInductance ==> e.params.pmFluxLinkage == Some(motor.flux)
       case Failure(_) => true
       case _ => false
  }

  /** Once the rotation has reached its speed, the sample is one of the motor at that speed. */
  predicate SampleTurns(e: Estimator, data: FocResult, config: OfflineEstimatorConfig, motor: Magnets) {
    e.state.EstF? && e.state.fRanS >= config.maxSpinTimeS ==> Turns(data, e.state.fResistance, e.state.omega, motor)
  }

  lemma RotationSpins(e: Estimator, data: FocResult, config: OfflineEstimatorConfig, math: FocMath, motor: Magnets)
    requires e.state.EstF? && Spins(e, config, motor) && SampleTurns(e, data, config, motor) && config.dtS > 0.0
    ensures Spins(e.AfterFocIteration(data, config, math), config, motor)
  {
    var s, i := e.state, data.measuredIDq;
    hide Mul, Quotient, WrapTo2Pi, SumsTurn, Turns, Mean.Accumulate, FluxSolverOf, PmFluxSolver.Measures;
    var spinningUp := s.fRanS < config.maxSpinTimeS;
    var omega := if spinningUp then Quotient(Mul(config.spinOmega, s.fRanS), config.maxSpinTimeS) else s.omega;
    var voltage, current := s.voltage, s.current;
    if spinningUp {
      EmptySumsTurn(omega, motor);
    } else {
      voltage := s.voltage.Accumulate(data.uDq.d - Mul(s.fResistance, i.d), data.uDq.q - Mul(s.fResistance, i.q));
      current := s.current.Accumulate(i.d, i.q);
      SampleSumsTurn(s.voltage, s.current, data, s.fResistance, omega, motor);
    }
    if voltage.numData >= MIN_SOLVE_SAMPLES && omega != 0.0 {
      SumsMeasure(voltage, current, omega, motor);
      SolverDiff(voltage, current, omega, motor);
    }
  }

  lemma SolverDiff(voltage: Mean, current: Mean, omega: real, motor: Magnets)
    ensures FluxSolverOf(voltage, current, omega, motor.dInductance, motor.qInductance).lDiff == motor.LDiff()
  {
  }

  lemma RampSpins(e: Estimator, data: FocResult, config: OfflineEstimatorConfig, math: FocMath, motor: Magnets)
    requires !e.state.EstF? && Spins(e, config, motor) && math.Exact() && motor.Valid()
    ensures Spins(e.AfterFocIteration(data, config, math), config, motor)
  {
    hide Mul, Square, CurrentFlux, Linkage, WrapTo2Pi, FocMath.Exact;
    if e.state.RampDown? && e.state.solver.Some? && e.state.pendingFault.None? {
      var solver := e.state.solver.value;
      if motor.dInductance == motor.qInductance {
        EqualInductancesSolveAtOnce(solver, motor.flux, motor.c, motor.s, math);
      }
      IterateKeepsMeasurement(solver, math);
      hide PmFluxSolver.Iterate;
    }
  }

  lemma IterateKeepsMeasurement(solver: PmFluxSolver, math: FocMath)
    ensures var next := solver.Iterate(math);
            next.lambda == solver.lambda && next.i == solver.i && next.lAvg == solver.lAvg && next.lDiff == solver.lDiff
  {
    hide CurrentFlux, ClarkPark.Norm2;
  }

  lemma {:induction false} RunSpins(
    e: Estimator, samples: seq<FocResult>, config: OfflineEstimatorConfig, math: FocMath, motor: Magnets)
    requires math.Exact() && motor.Valid() && config.dtS > 0.0 && Spins(e, config, motor)
    requires forall k :: 0 <= k < |samples| ==> SampleTurns(e.Run(samples[..k], config, math), samples[k], config, motor)
    ensures Spins(e.Run(samples, config, math), config, motor)
  {
    hide Spins, SampleTurns, Estimator.AfterFocIteration, FocMath.Exact;
    if samples != [] {
      var n := |samples| - 1;
      var before, data := samples[..n], samples[n];
      forall k | 0 <= k < |before|
        ensures SampleTurns(e.Run(before[..k], config, math), before[k], config, motor)
      {
        assert before[..k] == samples[..k];
      }
      RunSpins(e, before, config, math, motor);
      var now := e.Run(before, config, math);
      if now.state.EstF? {
        RotationSpins(now, data, config, math, motor);
      } else {
        RampSpins(now, data, config, math, motor);
      }
    }
  }

  /** From the acknowledgement of the tuning, samples of a motor with the inductances found before, whatever its
      saliency: the solver handed to the ramp-down measures its flux, and with equal inductances the estimator is
      done only with exactly that flux. */
  lemma FluxIsRecovered(
    e: Estimator, samples: seq<FocResult>, config: OfflineEstimatorConfig, math: FocMath, motor: Magnets)
    requires math.Exact() && motor.Valid() && config.dtS > 0.0
    requires e.state.TuningRequired? && e.params.numPolePairs.Some?
    requires e.params.dInductance == Some(motor.dInductance) && e.params.qInductance == Some(motor.qInductance)
    requires forall k :: 0 <= k < |samples| ==>
               SampleTurns(e.AcknowledgeTuning().Run(samples[..k], config, math), samples[k], config, motor)
    ensures var last := e.AcknowledgeTuning().Run(samples, config, math);
            && (last.state.RampDown? && last.state.pendingFault.None? ==>
                  last.state.solver.Some? && last.state.solver.value.Measures(motor.flux, motor.c, motor.s))
            && (last.state.Done? && motor.dInductance == motor.qInductance ==>
                  last.params.pmFluxLinkage == Some(motor.flux))
  {
    EmptySumsTurn(0.0, motor);
    hide Estimator.Run, SumsTurn, FocMath.Exact, SampleTurns;
    RunSpins(e.AcknowledgeTuning(), samples, config, math, motor);
  }

  // ---- The object ----

  class OfflineMotorEstimator {
    var state: State
    var params: MotorParamsEstimate
    var shouldUnwindController: bool
    const config: OfflineEstimatorConfig
    const math: FocMath

    function Value(): Estimator
      reads this
    {
      Estimator(state, params, shouldUnwindController)
    }

    constructor (config: OfflineEstimatorConfig, numPolePairs: u8, math: FocMath)
      ensures Value() == Estimator(Off, MotorParamsEstimate(Some(numPolePairs), None, None, None, None, None), false)
      ensures Value().Consistent() && this.config == config && this.math == math
    {
      state, shouldUnwindController := Off, false;
      params := MotorParamsEstimate(Some(numPolePairs), None, None, None, None, None);
      this.config, this.math := config, math;
    }

    method Start(numPolePairs: u8)
      modifies this
      ensures Value() == old(Value()).Start(numPolePairs) && Value().Consistent()
    {
      params := params.(numPolePairs := Some(numPolePairs));
      state := RotorLockWait(0.0, None);
      shouldUnwindController := false;
    }

    method AcknowledgeHallCalibration()
      modifies this
      ensures Value() == old(Value()).AcknowledgeHallCalibration()
    {
      if state.HallCalibrationRequired? {
        state := RotorLockWait(0.0, Some(state.resistance));
      }
    }

    method AcknowledgeUnwindRequest()
      modifies this
      ensures Value() == old(Value()).(shouldUnwindController := false)
    {
      shouldUnwindController := false;
    }

    method AcknowledgeTuningRequest()
      modifies this
      ensures Value() == old(Value()).AcknowledgeTuning()
    {
      if state.TuningRequired? {
        if params.dInductance.Some? && params.qInductance.Some? {
          state := EstF(0.0, 0.0, 0.0, state.resistance, params.dInductance.value, params.qInductance.value,
                        NO_SAMPLES, NO_SAMPLES);
        } else {
          state := Failure(EstimationStepFault.MissingParameter);
        }
      }
    }

    method StepRotorLock(data: FocResult) returns (r: StepResult)
      requires state.RotorLockWait?
      modifies this`state
      ensures r == StepLockWait(old(state), data, config)
    {
      state := state.(waitedS := state.waitedS + config.dtS);
      if state.waitedS >= config.settleTimeS {
        if state.known.None? {
          r := Transition(EstR(0, 0.0, false, NO_SAMPLES, NO_SAMPLES));
        } else {
          r := Transition(StartEstL(D, state.known.value, data));
        }
      } else {
        r := Stay(state);
      }
    }

    method StepResistance(data: FocResult) returns (r: StepResult)
      requires state.EstR?
      modifies this`state
      ensures r == StepEstR(old(state), data, config)
    {
      hide Quotient, Abs, SolveR, Mean.Accumulate, ReachesTarget, EstRTarget;
      var i := data.measuredIDq.d;
      var target := EstRTarget(state.block, config);
      state := state.(blockRanS := state.blockRanS + config.dtS);
      if !state.targetReached {
        state := state.(targetReached := ReachesTarget(i, target));
        if state.targetReached {
          state := state.(blockRanS := 0.0);
        } else if state.blockRanS >= config.testTimeS {
          return StepFailed(TargetCurrentUnreachable);
        }
        return Stay(state);
      }
      var x, y := Quotient(i, data.dcBusVoltageV), Quotient(data.uDq.d, data.dcBusVoltageV);
      if state.block % 2 == 0 {
        state := state.(high := state.high.Accumulate(x, y));
      } else {
        state := state.(low := state.low.Accumulate(x, y));
      }
      if state.blockRanS < config.testTimeS / EST_R_BLOCKS as real {
        return Stay(state);
      }
      state := state.(block := state.block + 1, blockRanS := 0.0, targetReached := false);
      if state.block >= EST_R_BLOCKS {
        r := SolveR(state.high, state.low);
      } else {
        r := Stay(state);
      }
    }

    method StepInductance(data: FocResult) returns (r: StepResult)
      requires state.EstL?
      modifies this`state
      ensures r == StepEstL(old(state), data, config)
    {
      hide Quotient, Abs, Mul, Lse.Accumulate, Lse.Solve;
      if config.calibrationVoltageV < EST_L_VOLTAGE_MARGIN * Mul(state.lResistance, config.calibrationCurrentA) {
        return StepFailed(TargetCurrentUnreachable);
      }
      var i := state.axis.Of(data.measuredIDq);
      var didt := Quotient(i - state.prevI, config.dtS);
      state := state.(prevI := i);
      if state.signFlips > 0 && state.early.Some? && state.late.Some? {
        if state.early == state.late {
          state := state.(lse := state.lse.Accumulate(Abs(state.axis.Of(data.uDq)), Mul(state.late.value, didt)));
        }
      }
      state := state.(early := state.late, late := Some(state.sign));
      state := state.(lRanS := state.lRanS + config.dtS);
      if state.lRanS >= 2.0 * config.testTimeS {
        return StepFailed(InsufficientSamples);
      }
      if Mul(state.sign, i + 1.5 * Mul(didt, config.dtS)) < config.calibrationCurrentA {
        return Stay(state);
      }
      state := state.(sign := -state.sign, signFlips := state.signFlips + 1);
      var accumulatedHalves := state.signFlips - 1;
      var wholePeriods := accumulatedHalves >= 2 && accumulatedHalves % 2 == 0;
      if state.lRanS >= config.testTimeS && wholePeriods {
        r := SolveInductance(data);
      } else {
        r := Stay(state);
      }
    }

    method SolveInductance(data: FocResult) returns (r: StepResult)
      requires state.EstL?
      ensures r == match state.lse.Solve(MIN_SOLVE_SAMPLES)
                   case Err(fault) => StepFailed(fault)
                   case Ok(reciprocal) =>
                     var inductance := Quotient(1.0, reciprocal);
                     if !(inductance > 0.0) then StepFailed(ParameterOutOfBounds)
                     else EstimateL(state.axis, inductance,
                                    if state.axis.D? then StartEstL(Q, state.lResistance, data)
                                    else TuningRequired(state.lResistance))
    {
      var solution := state.lse.Solve(MIN_SOLVE_SAMPLES);
      if solution.Err? {
        return StepFailed(solution.error);
      }
      var inductance := Quotient(1.0, solution.value);
      if !(inductance > 0.0) {
        return StepFailed(ParameterOutOfBounds);
      }
      if state.axis.D? {
        r := EstimateL(D, inductance, StartEstL(Q, state.lResistance, data));
      } else {
        r := EstimateL(Q, inductance, TuningRequired(state.lResistance));
      }
    }

    method StepFlux(data: FocResult) returns (r: StepResult)
      requires state.EstF?
      modifies this`state
      ensures r == StepEstF(old(state), data, config)
    {
      hide Quotient, Mul, Mean.Accumulate, WrapTo2Pi, FluxSolverOf;
      if state.fRanS < config.maxSpinTimeS {
        state := state.(omega := Quotient(Mul(config.spinOmega, state.fRanS), config.maxSpinTimeS));
      } else {
        var i := data.measuredIDq;
        state := state.(voltage := state.voltage.Accumulate(data.uDq.d - Mul(state.fResistance, i.d),
                                                            data.uDq.q - Mul(state.fResistance, i.q)));
        state := state.(current := state.current.Accumulate(i.d, i.q));
      }
      state := state.(theta := WrapTo2Pi(state.theta + Mul(state.omega, config.dtS)));
      state := state.(fRanS := state.fRanS + config.dtS);
      if state.fRanS >= config.maxSpinTimeS + config.testTimeS {
        var solver, pendingFault := None, None;
        if state.voltage.numData < MIN_SOLVE_SAMPLES {
          pendingFault := Some(InsufficientSamples);
        } else if state.omega == 0.0 {
          pendingFault := Some(DegenSolution);
        } else {
          solver := Some(FluxSolverOf(state.voltage, state.current, state.omega, state.dInductance, state.qInductance));
        }
        r := EstimateF(RampDown(solver, pendingFault, 0.0, state.theta, state.omega, config.testTimeS));
      } else {
        r := Stay(state);
      }
    }

    method StepRamp() returns (r: StepResult)
      requires state.RampDown?
      modifies this`state
      ensures r == StepRampDown(old(state), config, math)
    {
      hide Mul, WrapTo2Pi, PmFluxSolver.Iterate;
      state := state.(rampTheta := WrapTo2Pi(state.rampTheta + Mul(state.rampOmega, config.dtS)));
      if state.solver.Some? {
        state := state.(solver := Some(state.solver.value.Iterate(math)));
      }
      state := state.(rampRanS := state.rampRanS + config.dtS);
      if state.rampRanS >= state.rampDurationS {
        if state.pendingFault.Some? {
          return StepFailed(state.pendingFault.value);
        }
        if state.solver.None? || !(state.solver.value.pmFlux > 0.0) {
          return StepFailed(ParameterOutOfBounds);
        }
        r := EstimationDone(state.solver.value.pmFlux);
      } else {
        r := Stay(state);
      }
    }

    method Step(data: FocResult) returns (r: StepResult)
      modifies this`state
      ensures r == StepState(old(state), data, config, math)
    {
      hide StepLockWait, StepEstR, StepEstL, StepEstF, StepRampDown;
      match state {
        case RotorLockWait(_, _) => r := StepRotorLock(data);
        case EstR(_, _, _, _, _) => r := StepResistance(data);
        case EstL(_, _, _, _, _, _, _, _, _) => r := StepInductance(data);
        case EstF(_, _, _, _, _, _, _, _) => r := StepFlux(data);
        case RampDown(_, _, _, _, _, _) => r := StepRamp();
        case _ => r := Stay(state);
      }
    }

    method AfterFocIteration(data: FocResult)
      modifies this
      ensures Value() == old(Value()).AfterFocIteration(data, config, math)
    {
      if params.numPolePairs.None? {
        state := Failure(EstimationStepFault.MissingParameter);
      }
      var result := Step(data);
      match result {
        case StepFailed(fault) =>
          state := Failure(fault);
          shouldUnwindController := true;
        case Transition(next) =>
          state := next;
        case EstimateR(resistance, deadtimeRatio, next) =>
          params := params.(statorResistance := Some(resistance), deadtimeRatio := Some(deadtimeRatio));
          state := next;
          shouldUnwindController := true;
        case EstimateL(axis, inductance, next) =>
          if axis.D? {
            params := params.(dInductance := Some(inductance));
          } else {
            params := params.(qInductance := Some(inductance));
          }
          state := next;
        case EstimateF(next) =>
          state := next;
        case EstimationDone(pmFluxLinkage) =>
          params := params.(pmFluxLinkage := Some(pmFluxLinkage));
          state := Done;
          shouldUnwindController := true;
        case Stay(s) =>
          state := s;
      }
    }
  }
}
