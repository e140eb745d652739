/** The calibration sequence: firmware-core/src/app/calibration.rs.

    The Hall calibrator is a parameter: what it reads as at each step. */
module CalibrationRuns {
  import opened FocTypes
  import opened Identification
  import opened Modulation
  import opened MotorEstimation
  import opened MotorParameters
  import opened Reals
  import opened Transforms
  import opened Wrappers

  datatype HallCalibrationFault = EdgeDisagreement

  datatype HallReading = HallReading(done: bool, table: seq<real>, step: Result<real, HallCalibrationFault>)

  datatype CalibrationInputs = CalibrationInputs(angleType: AngleType, theta: real)

  datatype CalibrationOutput = CalibrationOutput(angleType: AngleType, theta: real, focCommand: FocCommand)

  datatype CalibrationFailureCause =
    | MotorParameterEstimation(fault: EstimationStepFault)
    | HallCalibrationFailed(hallFault: HallCalibrationFault)
    | Timeout

  datatype StageResult =
    | HallCalibrated(angleTable: seq<real>)
    | UnwindRequest
    | TuningRequest(paramsEstimate: MotorParamsEstimate)
    | MotorParametersFound(motorParams: MotorParamsEstimate)
    | StageFailure(cause: CalibrationFailureCause)
  {
    predicate ClearsWindup() {
      !TuningRequest?
    }
  }

  datatype CalibrationPhase =
    | ClearingExistingParameters
    | SweepingHall(timePassedS: real)
    | EstimatingMotor
    | WaitingHallCompletion
    | WaitingTuning
    | Finished
  {
    /** The phases the current loop does not step. */
    predicate Waiting() {
      ClearingExistingParameters? || WaitingHallCompletion? || WaitingTuning?
    }
  }

  datatype CalibrationConfig = CalibrationConfig(dtS: real, hallTimeoutS: real, estimator: OfflineEstimatorConfig)

  const NO_CURRENT := ClarkPark(0.0, 0.0)

  /** The command and the angle of an estimator state. */
  function EstimatorCommand(s: State, config: OfflineEstimatorConfig): (FocCommand, real) {
    var current := config.calibrationCurrentA;
    match s
    case RotorLockWait(_, _) => (CalibrationCurrents(ClarkPark(current, 0.0)), 0.0)
    case EstR(block, _, _, _, _) => (CalibrationCurrents(ClarkPark(EstRTarget(block, config), 0.0)), 0.0)
    case EstL(axis, _, _, sign, _, _, _, _, _) =>
      (CalibrationVoltage(axis.Vector(sign * config.calibrationVoltageV)), 0.0)
    case EstF(ran, theta, _, _, _, _, _, _) =>
      (TargetCurrents(ClarkPark(if ran < config.maxSpinTimeS then current else 0.5 * current, 0.0)), theta)
    case RampDown(_, _, ran, theta, _, duration) =>
      var ramp := if duration + 0.00001 == 0.0 then 0.0 else Clamp(1.0 - ran / (duration + 0.00001), 0.0, 1.0);
      (TargetCurrents(ClarkPark(ramp * (0.5 * current), 0.0)), theta)
    case _ => (CalibrationCurrents(NO_CURRENT), 0.0)
  }

  function IdleOutput(inputs: CalibrationInputs): CalibrationOutput {
    CalibrationOutput(inputs.angleType, inputs.theta, CalibrationVoltage(NO_CURRENT))
  }

  datatype Runner = Runner(phase: CalibrationPhase, estimator: Estimator)
  {
    /** The phase and the estimator agree on what is waited for. */
    predicate InStep() {
      && estimator.Consistent()
      && (phase.WaitingTuning? ==> estimator.state.TuningRequired?)
      && (phase.SweepingHall? || phase.WaitingHallCompletion? ==> estimator.state.HallCalibrationRequired?)
      && (!phase.ClearingExistingParameters? ==> !estimator.state.Off?)
    }

    function StepHall(inputs: CalibrationInputs, hall: HallReading, config: CalibrationConfig)
      : (Runner, CalibrationOutput, Option<StageResult>)
      requires phase.SweepingHall?
    {
      var passed := phase.timePassedS + config.dtS;
      var here := this.(phase := SweepingHall(passed));
      if passed > config.hallTimeoutS then (here, IdleOutput(inputs), Some(StageFailure(Timeout)))
      else if hall.done then
        (this.(phase := WaitingHallCompletion), IdleOutput(inputs), Some(HallCalibrated(hall.table)))
      else
        match hall.step
        case Ok(theta) =>
          var command := CalibrationCurrents(ClarkPark(config.estimator.calibrationCurrentA, 0.0));
          (here, CalibrationOutput(Electrical, theta, command), None)
        case Err(fault) => (here, IdleOutput(inputs), Some(StageFailure(HallCalibrationFailed(fault))))
    }

    function StepEstimation(inputs: CalibrationInputs, config: CalibrationConfig, hasHall: bool)
      : (Runner, CalibrationOutput, Option<StageResult>)
      requires phase.EstimatingMotor?
    {
      var idle, s := IdleOutput(inputs), estimator.state;
      if s.Failure? then (this.(phase := Finished), idle, Some(StageFailure(MotorParameterEstimation(s.fault))))
      else if s.Done? then (this.(phase := Finished), idle, Some(MotorParametersFound(estimator.params)))
      else if estimator.shouldUnwindController then
        (this.(estimator := estimator.(shouldUnwindController := false)), idle, Some(UnwindRequest))
      else if s.TuningRequired? then (this.(phase := WaitingTuning), idle, Some(TuningRequest(estimator.params)))
      else if s.HallCalibrationRequired? then
        (if hasHall then this.(phase := SweepingHall(0.0))
         else this.(estimator := estimator.AcknowledgeHallCalibration()), idle, None)
      else
        var command := EstimatorCommand(s, config.estimator);
        (this, CalibrationOutput(inputs.angleType, command.1, command.0), None)
    }

    function Step(inputs: CalibrationInputs, hall: HallReading, config: CalibrationConfig, hasHall: bool)
      : (Runner, CalibrationOutput, Option<StageResult>)
    {
      match phase
      case SweepingHall(_) => StepHall(inputs, hall, config)
      case EstimatingMotor => StepEstimation(inputs, config, hasHall)
      case _ => (this, IdleOutput(inputs), None)
    }

    function Resume(numPolePairs: u8): Runner {
      match phase
      case ClearingExistingParameters => Runner(EstimatingMotor, estimator.Start(numPolePairs))
      case WaitingHallCompletion => Runner(EstimatingMotor, estimator.AcknowledgeHallCalibration())
      case WaitingTuning => Runner(EstimatingMotor, estimator.AcknowledgeTuning())
      case _ => this
    }
  }

  // ---- The object ----

  class CalibrationRunner {
    const numPolePairs: u8
    const motorEstimator: OfflineMotorEstimator
    const config: CalibrationConfig
    const hasHall: bool
    var phase: CalibrationPhase

    ghost predicate Valid()
      reads this, motorEstimator
    {
      config.estimator == motorEstimator.config
    }

    function Value(): Runner
      reads this, motorEstimator
    {
      Runner(phase, motorEstimator.Value())
    }

    constructor (numPolePairs: u8, config: CalibrationConfig, hasHall: bool, math: FocMath)
      ensures Valid() && fresh(motorEstimator) && phase == ClearingExistingParameters && Value().InStep()
      ensures this.numPolePairs == numPolePairs && this.config == config && this.hasHall == hasHall
    {
      this.numPolePairs, this.config, this.hasHall := numPolePairs, config, hasHall;
      motorEstimator := new OfflineMotorEstimator(config.estimator, numPolePairs, math);
      phase := ClearingExistingParameters;
    }

    method Step(inputs: CalibrationInputs, hall: HallReading) returns (output: CalibrationOutput, stage: Option<StageResult>)
      requires Valid()
      modifies this, motorEstimator
      ensures Valid() && (Value(), output, stage) == old(Value()).Step(inputs, hall, config, hasHall)
    {
      hide EstimatorCommand;
      output, stage := IdleOutput(inputs), None;
      match phase {
        case SweepingHall(timePassedS) =>
          var passed := timePassedS + config.dtS;
          phase := SweepingHall(passed);
          if passed > config.hallTimeoutS {
            stage := Some(StageFailure(Timeout));
          } else if hall.done {
            stage := Some(HallCalibrated(hall.table));
            phase := WaitingHallCompletion;
          } else if hall.step.Ok? {
            var command := CalibrationCurrents(ClarkPark(config.estimator.calibrationCurrentA, 0.0));
            output := CalibrationOutput(Electrical, hall.step.value, command);
          } else {
            stage := Some(StageFailure(HallCalibrationFailed(hall.step.error)));
          }
        case EstimatingMotor =>
          output, stage := StepEstimation(inputs);
        case _ =>
      }
    }

    method StepEstimation(inputs: CalibrationInputs) returns (output: CalibrationOutput, stage: Option<StageResult>)
      requires Valid() && phase.EstimatingMotor?
      modifies this, motorEstimator
      ensures Valid() && (Value(), output, stage) == old(Value()).StepEstimation(inputs, config, hasHall)
    {
      hide EstimatorCommand;
      output, stage := IdleOutput(inputs), None;
      var s := motorEstimator.state;
      if s.Failure? {
        phase := Finished;
        stage := Some(StageFailure(MotorParameterEstimation(s.fault)));
      } else if s.Done? {
        phase := Finished;
        stage := Some(MotorParametersFound(motorEstimator.params));
      } else if motorEstimator.shouldUnwindController {
        motorEstimator.AcknowledgeUnwindRequest();
        stage := Some(UnwindRequest);
      } else if s.TuningRequired? {
        phase := WaitingTuning;
        stage := Some(TuningRequest(motorEstimator.params));
      } else if s.HallCalibrationRequired? {
        if hasHall {
          phase := SweepingHall(0.0);
        } else {
          motorEstimator.AcknowledgeHallCalibration();
        }
      } else {
        var command := EstimatorCommand(s, config.estimator);
        output := CalibrationOutput(inputs.angleType, command.1, command.0);
      }
    }

    method Resume()
      requires Valid()
      modifies this, motorEstimator
      ensures Valid() && Value() == old(Value()).Resume(numPolePairs)
    {
      match phase {
        case ClearingExistingParameters =>
          motorEstimator.Start(numPolePairs);
          phase := EstimatingMotor;
        case WaitingHallCompletion =>
          motorEstimator.AcknowledgeHallCalibration();
          phase := EstimatingMotor;
        case WaitingTuning =>
          motorEstimator.AcknowledgeTuningRequest();
          phase := EstimatingMotor;
        case _ =>
      }
    }
  }

  // ---- Runs ----

  /** What happens to a calibration: a tick of the current loop, with the result of its modulation if it modulated, or
      a resume command, wanted or not. */
  datatype Event = OnTick(inputs: CalibrationInputs, hall: HallReading, sample: Option<FocResult>) | OnResume

  datatype Setup = Setup(config: CalibrationConfig, hasHall: bool, numPolePairs: u8, math: FocMath)

  /** The result of the stage of a tick; the waiting phases are not stepped. */
  function StageOf(r: Runner, e: Event, setup: Setup): Option<StageResult> {
    if e.OnResume? || r.phase.Waiting() then None else r.Step(e.inputs, e.hall, setup.config, setup.hasHall).2
  }

  /** A sample is fed to the estimator only when the tick modulated and its stage had no result
      (firmware-core/src/app/control.rs). */
  function Next(r: Runner, e: Event, setup: Setup): Runner {
    match e
    case OnResume => r.Resume(setup.numPolePairs)
    case OnTick(inputs, hall, sample) =>
      if r.phase.Waiting() then r
      else
        var stepped := r.Step(inputs, hall, setup.config, setup.hasHall);
        if stepped.2.None? && sample.Some?
        then stepped.0.(estimator := stepped.0.estimator.AfterFocIteration(sample.value, setup.config.estimator, setup.math))
        else stepped.0
  }

  function Run(r: Runner, events: seq<Event>, setup: Setup): Runner {
    if events == [] then r else Next(Run(r, events[..|events| - 1], setup), events[|events| - 1], setup)
  }

  function NewRunner(numPolePairs: u8): Runner {
    Runner(ClearingExistingParameters,
           Estimator(Off, MotorParamsEstimate(Some(numPolePairs), None, None, None, None, None), false))
  }

  lemma StepStaysInStep(r: Runner, inputs: CalibrationInputs, hall: HallReading, setup: Setup)
    requires r.InStep()
    ensures r.Step(inputs, hall, setup.config, setup.hasHall).0.InStep()
  {
    hide EstimatorCommand;
  }

  /** A sample does not disturb a phase that waits for the estimator's request. */
  lemma SampleStaysInStep(r: Runner, data: FocResult, setup: Setup)
    requires r.InStep()
    ensures r.(estimator := r.estimator.AfterFocIteration(data, setup.config.estimator, setup.math)).InStep()
  {
    SampleKeepsConsistent(r.estimator, data, setup.config.estimator, setup.math);
    NeverOffAgain(r.estimator, data, setup);
    hide Estimator.Consistent, StepLockWait, StepEstR, StepEstL, StepEstF, StepRampDown;
    PolePairsKnown(r.estimator);
  }

  lemma NeverOffAgain(e: Estimator, data: FocResult, setup: Setup)
    ensures e.AfterFocIteration(data, setup.config.estimator, setup.math).state.Off? ==> e.state.Off?
  {
    hide ReachesTarget, AccumulatedL, Lse.Solve, FluxSolverOf, PmFluxSolver.Iterate;
  }

  lemma PolePairsKnown(e: Estimator)
    requires e.Consistent()
    ensures e.params.numPolePairs.Some?
  {
  }

  lemma ResumeStaysInStep(r: Runner, setup: Setup)
    requires r.InStep()
    ensures r.Resume(setup.numPolePairs).InStep()
  {
    TuningNeverMissesParameter(r.estimator);
  }

  lemma NextStaysInStep(r: Runner, e: Event, setup: Setup)
    requires r.InStep()
    ensures Next(r, e, setup).InStep()
  {
    hide Runner.InStep, Runner.Step, Runner.Resume, Estimator.AfterFocIteration;
    match e {
      case OnResume => ResumeStaysInStep(r, setup);
      case OnTick(inputs, hall, sample) =>
        StepStaysInStep(r, inputs, hall, setup);
        if sample.Some? {
          SampleStaysInStep(r.Step(inputs, hall, setup.config, setup.hasHall).0, sample.value, setup);
        }
    }
  }

  /** Over every run, with resumes at any time, the phase and the estimator stay in step. */
  lemma {:induction false} RunsStayInStep(numPolePairs: u8, events: seq<Event>, setup: Setup)
    ensures Run(NewRunner(numPolePairs), events, setup).InStep()
  {
    if events != [] {
      RunsStayInStep(numPolePairs, events[..|events| - 1], setup);
      hide Runner.InStep;
      NextStaysInStep(Run(NewRunner(numPolePairs), events[..|events| - 1], setup), events[|events| - 1], setup);
    }
  }

  /** In every run, the parameters a calibration delivers are all present, and the resistance, the inductances and the
      flux are positive. */
  lemma DeliveredParametersAreComplete(numPolePairs: u8, events: seq<Event>, e: Event, setup: Setup)
    ensures var r := Run(NewRunner(numPolePairs), events, setup);
            var stage := StageOf(r, e, setup);
            stage.Some? && stage.value.MotorParametersFound? ==>
              && stage.value.motorParams == r.estimator.params && r.estimator.Complete()
  {
    RunsStayInStep(numPolePairs, events, setup);
    hide Run, EstimatorCommand;
  }

  /** A resume outside the three waits changes nothing. In a wait it answers the request that is pending, and the
      missing-parameter branch of the answer is not taken. */
  lemma ResumeAnswersRequest(numPolePairs: u8, events: seq<Event>, setup: Setup)
    ensures var r := Run(NewRunner(numPolePairs), events, setup);
            var next := Next(r, OnResume, setup);
            && (!r.phase.Waiting() ==> next == r)
            && (r.phase.Waiting() ==> next.phase == EstimatingMotor && !next.estimator.state.Settled())
            && (r.phase.WaitingHallCompletion? ==>
                  next.estimator.state == RotorLockWait(0.0, r.estimator.params.statorResistance))
            && (r.phase.WaitingTuning? ==> next.estimator.state.EstF?)
  {
    RunsStayInStep(numPolePairs, events, setup);
    TuningNeverMissesParameter(Run(NewRunner(numPolePairs), events, setup).estimator);
    hide Run;
  }

  // ---- What is commanded ----

  /** The command of an estimation and the test that reads its answer. While a level of the resistance test is measured,
      the locked rotor carries the current whose samples count for that level, the full one or half of it. The square wave
      of the inductance test lies along the tested axis, with the sign the next samples are given. The rotation turns the
      angle of its state, and the ramp-down takes its current to nothing, linearly. */
  lemma CommandsOfTests(s: State, config: OfflineEstimatorConfig)
    ensures var (command, theta) := EstimatorCommand(s, config);
            var full := config.calibrationCurrentA;
            && (s.RotorLockWait? ==> command == CalibrationCurrents(ClarkPark(full, 0.0)) && theta == 0.0)
            && (s.EstR? ==>
                  theta == 0.0 && command.CalibrationCurrents? && command.i.q == 0.0
                  && command.i.d == (if s.block in {0, 2} then full else if s.block in {1, 3} then 0.5 * full else command.i.d))
            && (s.EstL? ==>
                  theta == 0.0 && command.CalibrationVoltage? && s.axis.Of(command.u) == s.sign * config.calibrationVoltageV
                  && (if s.axis.D? then command.u.q else command.u.d) == 0.0)
            && (s.EstF? ==>
                  theta == s.theta
                  && command == TargetCurrents(ClarkPark(if s.fRanS < config.maxSpinTimeS then full else 0.5 * full, 0.0)))
            && (s.RampDown? ==> theta == s.rampTheta && command.TargetCurrents? && command.i.q == 0.0)
            && (s.RampDown? && s.rampRanS <= 0.0 < s.rampDurationS ==> command.i.d == 0.5 * full)
            && (s.RampDown? && s.rampRanS > s.rampDurationS + 0.00001 > 0.0 ==> command.i.d == 0.0)
            && (s.Settled() ==> command == CalibrationCurrents(ClarkPark(0.0, 0.0)))
  {
    if s.RampDown? && s.rampDurationS + 0.00001 > 0.0 {
      RampEnds(s.rampRanS, s.rampDurationS + 0.00001);
    }
    hide Mul;
  }

  lemma RampEnds(ran: real, duration: real)
    requires duration > 0.0
    ensures ran <= 0.0 ==> 1.0 - ran / duration >= 1.0
    ensures ran > duration ==> 1.0 - ran / duration < 0.0
  {
    DivMul(ran, duration);
    MulSign(duration, ran / duration);
    MulSign(duration, ran / duration - 1.0);
    MulLinear(duration, ran / duration, 1.0);
    MulOne(duration);
    hide Mul;
  }

  /** What a step of the sequence answers. A finished or failed estimation ends it, with the parameters or the cause; a
      pending unwind is asked for first, then the tuning; a Hall calibration is swept for or, without sensors, skipped;
      and a running test modulates its command. The sweep hands over its table, and fails after its time. Everything but
      the request for a tuning asks for cleared controllers. */
  lemma StagesAnswer(r: Runner, inputs: CalibrationInputs, hall: HallReading, config: CalibrationConfig, hasHall: bool)
    ensures var (next, output, stage) := r.Step(inputs, hall, config, hasHall);
            var s := r.estimator.state;
            && (r.phase.EstimatingMotor? && s.Failure? ==>
                  next.phase.Finished? && stage == Some(StageFailure(MotorParameterEstimation(s.fault))))
            && (r.phase.EstimatingMotor? && s.Done? ==>
                  next.phase.Finished? && stage == Some(MotorParametersFound(r.estimator.params)))
            && (r.phase.EstimatingMotor? && !s.Failure? && !s.Done? && r.estimator.shouldUnwindController ==>
                  stage == Some(UnwindRequest) && next == r.(estimator := r.estimator.(shouldUnwindController := false)))
            && (r.phase.EstimatingMotor? && s.TuningRequired? && !r.estimator.shouldUnwindController ==>
                  stage == Some(TuningRequest(r.estimator.params)) && next == r.(phase := WaitingTuning))
            && (r.phase.EstimatingMotor? && s.HallCalibrationRequired? && !r.estimator.shouldUnwindController ==>
                  stage == None && if hasHall then next == r.(phase := SweepingHall(0.0))
                                   else next.estimator.state == RotorLockWait(0.0, Some(s.resistance)))
            && (r.phase.EstimatingMotor? && !s.Settled() && !r.estimator.shouldUnwindController ==>
                  next == r && stage == None && (output.focCommand, output.theta) == EstimatorCommand(s, config.estimator))
            && (r.phase.SweepingHall? ==>
                  var late := r.phase.timePassedS + config.dtS > config.hallTimeoutS;
                  && (late ==> stage == Some(StageFailure(Timeout)))
                  && (!late && hall.done ==> stage == Some(HallCalibrated(hall.table)) && next.phase.WaitingHallCompletion?)
                  && (!late && !hall.done && hall.step.Ok? ==>
                        stage == None && next == r.(phase := SweepingHall(r.phase.timePassedS + config.dtS))
                        && output == CalibrationOutput(Electrical, hall.step.value,
                                                       CalibrationCurrents(ClarkPark(config.estimator.calibrationCurrentA, 0.0))))
                  && (!late && !hall.done && hall.step.Err? ==> stage == Some(StageFailure(HallCalibrationFailed(hall.step.error)))))
            && (r.phase.Finished? || r.phase.Waiting() ==> next == r && stage == None)
            && (stage.Some? ==> stage.value.ClearsWindup() == !stage.value.TuningRequest?)
            && (!r.phase.SweepingHall? && (r.phase != EstimatingMotor || (s.Settled() && !s.Off?) || r.estimator.shouldUnwindController) ==>
                  output == CalibrationOutput(inputs.angleType, inputs.theta, CalibrationVoltage(ClarkPark(0.0, 0.0))))
  {
    hide EstimatorCommand;
  }

  // ---- The estimation ends ----

  /** Before the Hall request is answered. */
  predicate BeforeHall(s: State) {
    (s.RotorLockWait? && s.known.None?) || s.EstR? || s.HallCalibrationRequired?
  }

  /** A bound on the ticks until the estimation hands over. */
  function EstimationTicks(r: Runner, setup: Setup): nat
    requires setup.config.estimator.dtS > 0.0
  {
    var s, config := r.estimator.state, setup.config.estimator;
    2 * TicksLeft(s, config)
    + (if r.estimator.shouldUnwindController then 1 else 0)
    + if BeforeHall(s) then 2 * TicksLeft(RotorLockWait(0.0, Some(0.0)), config) + 1 else 0
  }

  /** A sample never leads back before the Hall request. */
  lemma SampleStaysPastHall(e: Estimator, data: FocResult, config: OfflineEstimatorConfig, math: FocMath)
    requires !BeforeHall(e.state)
    ensures !BeforeHall(e.AfterFocIteration(data, config, math).state)
  {
    hide ReachesTarget, AccumulatedL, Lse.Solve, FluxSolverOf, PmFluxSolver.Iterate;
  }

  lemma SampleShortensEstimation(r: Runner, data: FocResult, setup: Setup)
    requires setup.config.estimator.dtS > 0.0 && r.estimator.params.numPolePairs.Some?
    requires !r.estimator.state.Settled() && !r.estimator.shouldUnwindController
    ensures EstimationTicks(r.(estimator := r.estimator.AfterFocIteration(data, setup.config.estimator, setup.math)), setup)
          < EstimationTicks(r, setup)
  {
    SampleRunsDown(r.estimator, data, setup.config.estimator, setup.math);
    hide TicksLeft, Estimator.AfterFocIteration, BeforeHall;
    if !BeforeHall(r.estimator.state) {
      SampleStaysPastHall(r.estimator, data, setup.config.estimator, setup.math);
    }
  }

  lemma AnsweredAtOnce(r: Runner, data: FocResult, setup: Setup)
    requires setup.config.estimator.dtS > 0.0 && r.estimator.params.numPolePairs.Some?
    requires r.estimator.state.HallCalibrationRequired? && !r.estimator.shouldUnwindController
    ensures var answered := r.(estimator := r.estimator.AcknowledgeHallCalibration());
            var next := r.(estimator := answered.estimator.AfterFocIteration(data, setup.config.estimator, setup.math));
            EstimationTicks(answered, setup) < EstimationTicks(r, setup)
            && EstimationTicks(next, setup) < EstimationTicks(r, setup)
  {
    var answered := r.(estimator := r.estimator.AcknowledgeHallCalibration());
    assert TicksLeft(answered.estimator.state, setup.config.estimator)
        == TicksLeft(RotorLockWait(0.0, Some(0.0)), setup.config.estimator);
    hide TicksLeft, Estimator.AfterFocIteration;
    SampleShortensEstimation(answered, data, setup);
  }

  /** Each tick that modulates ends the estimation phase or shortens what is left of it. */
  lemma TickShortensEstimation(r: Runner, e: Event, setup: Setup)
    requires setup.config.estimator.dtS > 0.0 && r.InStep() && r.phase.EstimatingMotor?
    requires e.OnTick? && e.sample.Some?
    ensures var next := Next(r, e, setup);
            next.phase.EstimatingMotor? ==> EstimationTicks(next, setup) < EstimationTicks(r, setup)
  {
    PolePairsKnown(r.estimator);
    hide EstimatorCommand, Estimator.AfterFocIteration, TicksLeft, Estimator.Consistent;
    var s := r.estimator.state;
    if s.Failure? || s.Done? || r.estimator.shouldUnwindController {
    } else if s.HallCalibrationRequired? {
      AnsweredAtOnce(r, e.sample.value, setup);
    } else if !s.Settled() {
      SampleShortensEstimation(r, e.sample.value, setup);
    } else {
      hide EstimationTicks;
    }
  }

  lemma TickStaysOut(r: Runner, e: Event, setup: Setup)
    requires e.OnTick? && !r.phase.EstimatingMotor?
    ensures !Next(r, e, setup).phase.EstimatingMotor?
  {
    hide Estimator.AfterFocIteration;
  }

  /** While the drive modulates, the estimation phase ends within a number of ticks that follows from the configured
      times, whatever the samples: it hands over to the Hall sweep or the tuning, or it is finished. */
  lemma {:induction false} EstimationEnds(r: Runner, events: seq<Event>, setup: Setup)
    requires setup.config.estimator.dtS > 0.0 && r.InStep()
    requires forall i :: 0 <= i < |events| ==> events[i].OnTick? && events[i].sample.Some?
    ensures Run(r, events, setup).InStep()
    ensures Run(r, events, setup).phase.EstimatingMotor? ==>
      EstimationTicks(Run(r, events, setup), setup) + |events| <= EstimationTicks(r, setup)
  {
    if events != [] {
      var before, e := events[..|events| - 1], events[|events| - 1];
      EstimationEnds(r, before, setup);
      hide Next, EstimationTicks, Runner.InStep;
      NextStaysInStep(Run(r, before, setup), e, setup);
      if Run(r, before, setup).phase.EstimatingMotor? {
        TickShortensEstimation(Run(r, before, setup), e, setup);
      } else {
        TickStaysOut(Run(r, before, setup), e, setup);
      }
    }
  }
}
