/** The operating modes: firmware-core/src/app/modes.rs.

    The calibrator is a parameter: a type `C` and the operations on it the mode uses. */
module Modes {
  import opened Faults
  import opened MotorParameters
  import opened SafeStrategy
  import opened Wrappers

  const TRACE_LENGTH: nat := 8

  datatype CalibrationTargets = CalibrationTargets(spinOmega: real, sweepOmega: real, voltageV: real, currentA: real)

  datatype CalibrationRequest = CalibrationRequest(
    numPolePairs: u8, targets: CalibrationTargets, hasHall: bool, dtS: real)

  datatype Calibrators<!C> = Calibrators(make: CalibrationRequest -> C, resume: C -> C, waiting: C -> bool)

  datatype Command =
    | ToIdle(safeStrategy: Strategy)
    | StartCalibration(request: CalibrationRequest)
    | ResumeCalibration
    | FinishCalibration
    | CancelCalibration
    | RequestTorqueControl
    | EnableTorqueControl
    | AssertFault(cause: FaultCause)
    | ClearFault
    | NoOp

  datatype OperatingMode<+C> =
    | Idle(safeStrategy: Strategy)
    | Calibration(calibrator: C)
    | SaliencyPolarityTest
    | TorqueControl
    | Fault(safeStrategy: Strategy, writeIndex: nat, trace: seq<FaultCause>)
  {
    predicate Valid() {
      Fault? ==> writeIndex <= TRACE_LENGTH && |trace| == TRACE_LENGTH
    }
  }

  const EMPTY_TRACE: seq<FaultCause> := [NoFault, NoFault, NoFault, NoFault, NoFault, NoFault, NoFault, NoFault]

  /** What one command makes of a mode, and whether it took effect. */
  function Commanded<C>(mode: OperatingMode<C>, command: Command, ops: Calibrators<C>): (r: (OperatingMode<C>, bool))
    requires mode.Valid()
    ensures r.0.Valid()
  {
    match (mode, command)
    case (Fault(strategy, _, _), ClearFault) =>
      if strategy.RampDown? then (mode, false)
      else (Idle(if strategy.StoFinal? then FRESH_STO else strategy), true)
    case (Fault(strategy, writeIndex, trace), AssertFault(cause)) =>
      var evolved := strategy.FaultEvolve(Reaction(cause));
      if writeIndex < TRACE_LENGTH && cause !in trace[..writeIndex]
      then (Fault(evolved, writeIndex + 1, trace[writeIndex := cause]), true)
      else (Fault(evolved, writeIndex, trace), true)
    case (_, AssertFault(cause)) => (Fault(Reaction(cause), 1, EMPTY_TRACE[0 := cause]), true)
    case (Idle(strategy), StartCalibration(request)) =>
      if strategy.RampDown? then (mode, false) else (Calibration(ops.make(request)), true)
    case (Idle(_), RequestTorqueControl) => (SaliencyPolarityTest, true)
    case (Calibration(c), ResumeCalibration) => (Calibration(ops.resume(c)), true)
    case (Calibration(_), FinishCalibration) => (Idle(FRESH_STO), true)
    case (Calibration(_), CancelCalibration) => (Idle(FRESH_STO), true)
    case (SaliencyPolarityTest, ToIdle(strategy)) => (Idle(strategy), true)
    case (SaliencyPolarityTest, EnableTorqueControl) => (TorqueControl, true)
    case (TorqueControl, ToIdle(strategy)) => (Idle(strategy), true)
    case _ => (mode, false)
  }

  datatype FocGate = FocGate(active: bool, useSafetyCommand: bool, feedbackOptional: bool)

  function Gate<C>(mode: OperatingMode<C>, ops: Calibrators<C>): FocGate {
    match mode
    case Idle(strategy) => FocGate(strategy.RampDown?, true, true)
    case Calibration(c) => FocGate(!ops.waiting(c), false, true)
    case SaliencyPolarityTest => FocGate(true, false, false)
    case TorqueControl => FocGate(true, false, false)
    case Fault(_, _, _) => FocGate(false, true, true)
  }

  /** The operating mode as the drive holds it. */
  class ModeHolder<C> {
    var mode: OperatingMode<C>

    constructor (mode: OperatingMode<C>)
      ensures this.mode == mode
    {
      this.mode := mode;
    }

    method OnCommand(command: Command, ops: Calibrators<C>) returns (tookEffect: bool)
      requires mode.Valid()
      modifies this
      ensures mode.Valid() && (mode, tookEffect) == Commanded(old(mode), command, ops)
    {
      match (mode, command) {
        case (Fault(strategy, _, _), ClearFault) =>
          if strategy.RampDown? {
            return false;
          }
          var next := strategy;
          if strategy.StoFinal? {
            next := FRESH_STO;
          }
          mode := Idle(next);
        case (Fault(strategy, writeIndex, trace), AssertFault(cause)) =>
          var index, entries := writeIndex, trace;
          if index < TRACE_LENGTH && cause !in entries[..index] {
            entries := entries[index := cause];
            index := index + 1;
          }
          mode := Fault(strategy.FaultEvolve(Reaction(cause)), index, entries);
          return true;
        case (_, AssertFault(cause)) =>
          mode := Fault(Reaction(cause), 1, EMPTY_TRACE[0 := cause]);
        case (Idle(strategy), StartCalibration(request)) =>
          if strategy.RampDown? {
            return false;
          }
          mode := Calibration(ops.make(request));
        case (Idle(_), RequestTorqueControl) =>
          mode := SaliencyPolarityTest;
        case (Calibration(c), ResumeCalibration) =>
          mode := Calibration(ops.resume(c));
          return true;
        case (Calibration(_), FinishCalibration) =>
          mode := Idle(FRESH_STO);
        case (Calibration(_), CancelCalibration) =>
          mode := Idle(FRESH_STO);
        case (SaliencyPolarityTest, ToIdle(strategy)) =>
          mode := Idle(strategy);
        case (SaliencyPolarityTest, EnableTorqueControl) =>
          mode := TorqueControl;
        case (TorqueControl, ToIdle(strategy)) =>
          mode := Idle(strategy);
        case _ =>
          return false;
      }
      tookEffect := true;
    }

    method FaultTrace() returns (trace: Option<seq<FaultCause>>)
      ensures trace == if mode.Fault? then Some(mode.trace) else None
    {
      trace := if mode.Fault? then Some(mode.trace) else None;
    }
  }

  // ---- Runs ----

  /** Commands, and the ticks of the current loop, which evolve the strategy of an idle or faulted drive. */
  datatype Step = OnCommand(command: Command) | OnFocTick(input: SafeInput)

  function StepMode<C>(mode: OperatingMode<C>, step: Step, ops: Calibrators<C>, root3: real): (r: OperatingMode<C>)
    requires mode.Valid()
    ensures r.Valid()
  {
    match step
    case OnCommand(command) => Commanded(mode, command, ops).0
    case OnFocTick(input) =>
      match mode
      case Idle(strategy) => Idle(strategy.Tick(input, root3))
      case Fault(strategy, index, trace) => Fault(strategy.Tick(input, root3), index, trace)
      case _ => mode
  }

  function RunMode<C>(mode: OperatingMode<C>, steps: seq<Step>, ops: Calibrators<C>, root3: real): (r: OperatingMode<C>)
    requires mode.Valid()
    ensures r.Valid()
  {
    if steps == [] then mode
    else StepMode(RunMode(mode, steps[..|steps| - 1], ops, root3), steps[|steps| - 1], ops, root3)
  }

  /** When each command takes effect, and what it leads to. One that does not take effect changes nothing. A calibration
      that ends, finished or cancelled, leaves an open bridge, and a cleared fault leaves the bridge as the fault had it. */
  lemma CommandsTakeEffect<C>(mode: OperatingMode<C>, command: Command, ops: Calibrators<C>)
    requires mode.Valid()
    ensures var (next, took) := Commanded(mode, command, ops);
            && (!took ==> next == mode)
            && (command.ToIdle? ==> (took <==> mode.SaliencyPolarityTest? || mode.TorqueControl?)
                                    && (took ==> next == Idle(command.safeStrategy)))
            && (command.StartCalibration? ==> (took <==> mode.Idle? && !mode.safeStrategy.RampDown?)
                                              && (took ==> next == Calibration(ops.make(command.request))))
            && (command.ResumeCalibration? ==> (took <==> mode.Calibration?)
                                               && (took ==> next == Calibration(ops.resume(mode.calibrator))))
            && (command.FinishCalibration? || command.CancelCalibration? ==>
                  (took <==> mode.Calibration?) && (took ==> next.Idle? && next.safeStrategy == FRESH_STO))
            && (command.RequestTorqueControl? ==> (took <==> mode.Idle?) && (took ==> next.SaliencyPolarityTest?))
            && (command.EnableTorqueControl? ==> (took <==> mode.SaliencyPolarityTest?) && (took ==> next.TorqueControl?))
            && (command.AssertFault? ==>
                  took && next.Fault?
                  && next.safeStrategy == (if mode.Fault? then mode.safeStrategy.FaultEvolve(Reaction(command.cause))
                                           else Reaction(command.cause)))
            && (command.ClearFault? ==>
                  (took <==> mode.Fault? && !mode.safeStrategy.RampDown?)
                  && (took ==> next.Idle? && !next.safeStrategy.StoFinal?
                               && next.safeStrategy.Output() == mode.safeStrategy.Output()))
            && (command.NoOp? ==> !took)
  {
    hide Strategy.FaultEvolve, Reaction;
  }

  /** A fault latches: a run leaves the fault mode only by a clear command outside the ramp-down. */
  lemma {:induction false} FaultLatches<C>(mode: OperatingMode<C>, steps: seq<Step>, ops: Calibrators<C>, root3: real)
    returns (k: nat)
    requires mode.Valid() && mode.Fault? && !RunMode(mode, steps, ops, root3).Fault?
    ensures k < |steps| && steps[k] == OnCommand(ClearFault)
    ensures var before := RunMode(mode, steps[..k], ops, root3);
            before.Fault? && !before.safeStrategy.RampDown?
    ensures RunMode(mode, steps[..k + 1], ops, root3).Idle?
  {
    var last := |steps| - 1;
    assert steps[..|steps|] == steps;
    if RunMode(mode, steps[..last], ops, root3).Fault? {
      k := last;
    } else {
      k := FaultLatches(mode, steps[..last], ops, root3);
      assert steps[..last][..k] == steps[..k] && steps[..last][..k + 1] == steps[..k + 1];
    }
  }

  /** A step enters torque control only by its enable from the polarity test, and the polarity test only by request
      from idle. */
  lemma OneWayIn<C>(mode: OperatingMode<C>, step: Step, ops: Calibrators<C>, root3: real)
    requires mode.Valid()
    ensures var next := StepMode(mode, step, ops, root3);
            && (next.TorqueControl? && !mode.TorqueControl? ==>
                  mode.SaliencyPolarityTest? && step == OnCommand(EnableTorqueControl))
            && (next.SaliencyPolarityTest? && !mode.SaliencyPolarityTest? ==>
                  mode.Idle? && step == OnCommand(RequestTorqueControl))
  {
    hide Strategy.FaultEvolve, Reaction, Strategy.Tick;
  }

  /** A run that is in the polarity test entered it from idle, by request, and stayed in it since. */
  lemma {:induction false} PolarityTestEntry<C>(
    mode: OperatingMode<C>, steps: seq<Step>, ops: Calibrators<C>, root3: real) returns (i: nat)
    requires mode.Valid() && !mode.SaliencyPolarityTest? && RunMode(mode, steps, ops, root3).SaliencyPolarityTest?
    ensures i < |steps| && steps[i] == OnCommand(RequestTorqueControl) && RunMode(mode, steps[..i], ops, root3).Idle?
    ensures forall k :: i < k <= |steps| ==> RunMode(mode, steps[..k], ops, root3).SaliencyPolarityTest?
  {
    var last := |steps| - 1;
    assert steps[..|steps|] == steps;
    hide StepMode;
    OneWayIn(RunMode(mode, steps[..last], ops, root3), steps[last], ops, root3);
    if RunMode(mode, steps[..last], ops, root3).SaliencyPolarityTest? {
      i := PolarityTestEntry(mode, steps[..last], ops, root3);
      assert forall k :: 0 <= k <= last ==> steps[..last][..k] == steps[..k];
    } else {
      i := last;
    }
  }

  /** A run that is in torque control entered it from the polarity test, by its enable, and stayed in it since. */
  lemma {:induction false} TorqueControlEntry<C>(
    mode: OperatingMode<C>, steps: seq<Step>, ops: Calibrators<C>, root3: real) returns (j: nat)
    requires mode.Valid() && !mode.TorqueControl? && RunMode(mode, steps, ops, root3).TorqueControl?
    ensures j < |steps| && steps[j] == OnCommand(EnableTorqueControl)
    ensures RunMode(mode, steps[..j], ops, root3).SaliencyPolarityTest?
    ensures forall k :: j < k <= |steps| ==> RunMode(mode, steps[..k], ops, root3).TorqueControl?
  {
    var last := |steps| - 1;
    assert steps[..|steps|] == steps;
    hide StepMode;
    OneWayIn(RunMode(mode, steps[..last], ops, root3), steps[last], ops, root3);
    if RunMode(mode, steps[..last], ops, root3).TorqueControl? {
      j := TorqueControlEntry(mode, steps[..last], ops, root3);
      assert forall k :: 0 <= k <= last ==> steps[..last][..k] == steps[..k];
    } else {
      j := last;
    }
  }

  // ---- The trace ----

  /** The causes without repetitions, in the order of their first assertion. */
  function FirstDistinct(causes: seq<FaultCause>): seq<FaultCause> {
    if causes == [] then []
    else
      var before, cause := FirstDistinct(causes[..|causes| - 1]), causes[|causes| - 1];
      if cause in before then before else before + [cause]
  }

  function FirstAt(causes: seq<FaultCause>, cause: FaultCause): (i: nat)
    requires cause in causes
    ensures i < |causes| && causes[i] == cause && cause !in causes[..i]
  {
    if causes[0] == cause then 0
    else
      assert causes[1..][0..] == causes[1..];
      var k := FirstAt(causes[1..], cause);
      assert causes[..k + 1] == [causes[0]] + causes[1..][..k];
      k + 1
  }

  lemma FirstAtKept(causes: seq<FaultCause>, more: seq<FaultCause>, cause: FaultCause)
    requires cause in causes
    ensures cause in causes + more && FirstAt(causes + more, cause) == FirstAt(causes, cause)
  {
    var i, k := FirstAt(causes, cause), FirstAt(causes + more, cause);
    assert (causes + more)[i] == cause && (causes + more)[..i] == causes[..i];
  }

  /** It lists every cause once, by first assertion. */
  lemma {:induction false} FirstDistinctMeans(causes: seq<FaultCause>)
    ensures var d := FirstDistinct(causes);
            && (forall c :: c in d <==> c in causes)
            && (forall i, j :: 0 <= i < j < |d| ==> FirstAt(causes, d[i]) < FirstAt(causes, d[j]))
  {
    if causes != [] {
      var n := |causes| - 1;
      var rest, cause, d := causes[..n], causes[n], FirstDistinct(causes);
      FirstDistinctMeans(rest);
      assert causes == rest + [cause];
      forall c | c in rest
        ensures c in causes && FirstAt(causes, c) == FirstAt(rest, c)
      {
        FirstAtKept(rest, [cause], c);
      }
      if cause !in rest {
        assert FirstAt(causes, cause) == n;
      }
    }
  }

  /** The causes of the current fault after one more step, which led to `mode`. */
  function NextCauses<C>(mode: OperatingMode<C>, causes: seq<FaultCause>, step: Step): seq<FaultCause> {
    if !mode.Fault? then []
    else if step.OnCommand? && step.command.AssertFault? then causes + [step.command.cause]
    else causes
  }

  /** The causes asserted since the drive last was not faulted. */
  function CausesSince<C>(mode: OperatingMode<C>, steps: seq<Step>, ops: Calibrators<C>, root3: real): seq<FaultCause>
    requires mode.Valid()
  {
    if steps == [] then []
    else
      var before, step := steps[..|steps| - 1], steps[|steps| - 1];
      NextCauses(RunMode(mode, steps, ops, root3), CausesSince(mode, before, ops, root3), step)
  }

  function Min(a: nat, b: nat): nat {
    if a < b then a else b
  }

  ghost predicate Traces<C>(mode: OperatingMode<C>, causes: seq<FaultCause>)
    requires mode.Valid()
  {
    mode.Fault? ==>
      var d := FirstDistinct(causes);
      mode.writeIndex == Min(|d|, TRACE_LENGTH) && mode.trace[..mode.writeIndex] == d[..mode.writeIndex]
  }

  lemma TraceGrows(trace: seq<FaultCause>, n: nat, d: seq<FaultCause>, cause: FaultCause)
    requires |trace| == TRACE_LENGTH && n == Min(|d|, TRACE_LENGTH) && trace[..n] == d[..n]
    ensures var d' := if cause in d then d else d + [cause];
            if n < TRACE_LENGTH && cause !in trace[..n]
            then n + 1 == Min(|d'|, TRACE_LENGTH) && trace[n := cause][..n + 1] == d'[..n + 1]
            else n == Min(|d'|, TRACE_LENGTH) && trace[..n] == d'[..n]
  {
    if n < TRACE_LENGTH {
      assert d[..n] == d;
      if cause !in d {
        assert trace[n := cause][..n + 1] == trace[..n] + [cause];
      }
    }
  }

  lemma FirstDistinctOfNext(causes: seq<FaultCause>, cause: FaultCause)
    ensures var d := FirstDistinct(causes);
            FirstDistinct(causes + [cause]) == if cause in d then d else d + [cause]
  {
    assert (causes + [cause])[..|causes|] == causes;
  }

  lemma AssertTraces<C>(mode: OperatingMode<C>, causes: seq<FaultCause>, cause: FaultCause, ops: Calibrators<C>)
    requires mode.Valid() && mode.Fault? && Traces(mode, causes)
    ensures Traces(Commanded(mode, AssertFault(cause), ops).0, causes + [cause])
  {
    FirstDistinctOfNext(causes, cause);
    TraceGrows(mode.trace, mode.writeIndex, FirstDistinct(causes), cause);
    hide Strategy.FaultEvolve, Reaction, FirstDistinct;
  }

  lemma FirstFaultTraces<C>(mode: OperatingMode<C>, cause: FaultCause, ops: Calibrators<C>)
    requires mode.Valid() && !mode.Fault?
    ensures Traces(Commanded(mode, AssertFault(cause), ops).0, [cause])
  {
    assert FirstDistinct([cause]) == [cause];
    hide Strategy.FaultEvolve, Reaction;
  }

  lemma StepTraces<C>(mode: OperatingMode<C>, causes: seq<FaultCause>, step: Step, ops: Calibrators<C>, root3: real)
    requires mode.Valid() && Traces(mode, causes) && (!mode.Fault? ==> causes == [])
    ensures var next := StepMode(mode, step, ops, root3);
            Traces(next, NextCauses(next, causes, step))
  {
    if step.OnCommand? && step.command.AssertFault? {
      if mode.Fault? {
        AssertTraces(mode, causes, step.command.cause, ops);
      } else {
        FirstFaultTraces(mode, step.command.cause, ops);
        assert causes + [step.command.cause] == [step.command.cause];
      }
    }
    hide Strategy.FaultEvolve, Reaction, Strategy.Tick, FirstDistinct;
  }

  /** In every run the filled part of the trace is the first eight distinct causes since the fault came up, in the
      order of their first assertion. */
  lemma {:induction false} TraceIsFirstEight<C>(
    mode: OperatingMode<C>, steps: seq<Step>, ops: Calibrators<C>, root3: real)
    requires mode.Valid() && !mode.Fault?
    ensures Traces(RunMode(mode, steps, ops, root3), CausesSince(mode, steps, ops, root3))
    ensures !RunMode(mode, steps, ops, root3).Fault? ==> CausesSince(mode, steps, ops, root3) == []
  {
    if steps != [] {
      var before, step := steps[..|steps| - 1], steps[|steps| - 1];
      TraceIsFirstEight(mode, before, ops, root3);
      hide Traces, StepMode;
      StepTraces(RunMode(mode, before, ops, root3), CausesSince(mode, before, ops, root3), step, ops, root3);
    }
  }
}
