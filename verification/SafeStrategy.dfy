/** How the drive is held safe when it is idle or faulted: firmware-core/src/app/safe_strategy.rs. */
module SafeStrategy {
  import opened Debounce
  import opened Faults
  import opened FocTypes
  import opened Reals
  import opened Wrappers

  const STO_ASC_DEBOUNCE_TICKS: nat := 10
  const STO_DC_BUS_RATIO := 0.99
  const ASC_DC_BUS_RATIO := 1.01
  const RAMPDOWN_DURATION_MS := 10.0

  datatype SafeCommand = Floating | ActiveShort | Foc(command: FocCommand)

  datatype SafeInput = SafeInput(
    omega: real,
    rotorFeedbackValid: bool,
    backEmfConstant: Option<real>,
    dcBusV: real,
    dcBusMaxV: real,
    tickDtMs: real)

  /** The amplitude of the line-to-line back-EMF. */
  function BackEmf(k: real, omega: real, root3: real): real {
    Mul(Mul(root3, k), Abs(omega))
  }

  /** The active short is needed: the bus is too high, or it may be charged through the body diodes. */
  predicate AscNeeded(input: SafeInput, root3: real) {
    || input.dcBusV > ASC_DC_BUS_RATIO * input.dcBusMaxV
    || input.backEmfConstant.None?
    || !input.rotorFeedbackValid
    || BackEmf(input.backEmfConstant.value, input.omega, root3) > ASC_DC_BUS_RATIO * input.dcBusV
  }

  /** The bus and the back-EMF are both low enough to open the bridge. */
  predicate StoAllowed(input: SafeInput, root3: real) {
    && input.dcBusV < STO_DC_BUS_RATIO * input.dcBusMaxV
    && input.backEmfConstant.Some?
    && input.rotorFeedbackValid
    && BackEmf(input.backEmfConstant.value, input.omega, root3) < STO_DC_BUS_RATIO * input.dcBusV
  }

  datatype Strategy =
    | RampDown(waitedMs: real)
    /** Bridge open for good. */
    | StoFinal
    | Sto(shouldSwitch: Debounced)
    | Asc(shouldSwitch: Debounced)
  {
    predicate Conducting() {
      Sto? || Asc?
    }

    /** What every reachable strategy satisfies: a pending switch has not been decided. */
    predicate Undecided() {
      Conducting() ==> !shouldSwitch.state && shouldSwitch.count < STO_ASC_DEBOUNCE_TICKS
    }

    function Tick(input: SafeInput, root3: real): Strategy {
      match this
      case RampDown(waitedMs) =>
        if waitedMs + input.tickDtMs >= RAMPDOWN_DURATION_MS
        then if AscNeeded(input, root3) then FRESH_ASC else FRESH_STO
        else RampDown(waitedMs + input.tickDtMs)
      case StoFinal => this
      case Sto(d) =>
        var next := d.Update(AscNeeded(input, root3), STO_ASC_DEBOUNCE_TICKS);
        if next.state then FRESH_ASC else Sto(next)
      case Asc(d) =>
        var next := d.Update(StoAllowed(input, root3), STO_ASC_DEBOUNCE_TICKS);
        if next.state then FRESH_STO else Asc(next)
    }

    function Output(): SafeCommand {
      match this
      case RampDown(_) => Foc(TargetTorque(0.0))
      case Sto(_) => Floating
      case StoFinal => Floating
      case Asc(_) => ActiveShort
    }

    /** The strategy when a fault with the reaction `reaction` comes up. */
    function FaultEvolve(reaction: Strategy): Strategy {
      match (this, reaction)
      case (_, StoFinal) => StoFinal
      case (Sto(_), Asc(_)) => FRESH_ASC
      case (Asc(d), Sto(_)) => if d.state then FRESH_STO else this
      case (Asc(_), Asc(_)) => FRESH_ASC
      case (RampDown(_), RampDown(_)) => this
      case (RampDown(_), _) => reaction
      case _ => this
    }
  }

  const FRESH_STO := Sto(Fresh(false))
  const FRESH_ASC := Asc(Fresh(false))

  /** The reaction to a fault. */
  function Reaction(cause: FaultCause): Strategy {
    match cause
    case Break2 => StoFinal
    case DcOverVoltage => FRESH_ASC
    case SetpointTimeout => RampDown(0.0)
    case CANMessageIntegrity => RampDown(0.0)
    case CalibrationTimeout => RampDown(0.0)
    case Overtemperature => RampDown(0.0)
    case Overspeed => RampDown(0.0)
    case _ => FRESH_STO
  }

  /** The strategy object of an idle or faulted drive. */
  class SafeControlStrategy {
    var strategy: Strategy
    const root3: real

    constructor (strategy: Strategy, root3: real)
      ensures this.strategy == strategy && this.root3 == root3
    {
      this.strategy, this.root3 := strategy, root3;
    }

    method FocTick(input: SafeInput) returns (command: SafeCommand)
      modifies this`strategy
      ensures strategy == old(strategy).Tick(input, root3) && command == strategy.Output()
    {
      hide Mul;
      match strategy {
        case RampDown(waitedMs) =>
          var waited := waitedMs + input.tickDtMs;
          strategy := RampDown(waited);
          if waited >= RAMPDOWN_DURATION_MS {
            strategy := if AscNeeded(input, root3) then FRESH_ASC else FRESH_STO;
          }
        case Sto(shouldSwitch) =>
          var next := shouldSwitch.Update(AscNeeded(input, root3), STO_ASC_DEBOUNCE_TICKS);
          strategy := Sto(next);
          if next.state {
            strategy := FRESH_ASC;
          }
        case Asc(shouldSwitch) =>
          var next := shouldSwitch.Update(StoAllowed(input, root3), STO_ASC_DEBOUNCE_TICKS);
          strategy := Asc(next);
          if next.state {
            strategy := FRESH_STO;
          }
        case StoFinal =>
      }
      command := strategy.Output();
    }
  }

  // ---- Runs ----

  datatype Event = OnTick(input: SafeInput) | OnFault(cause: FaultCause)

  function Evolve(s: Strategy, e: Event, root3: real): Strategy {
    match e
    case OnTick(input) => s.Tick(input, root3)
    case OnFault(cause) => s.FaultEvolve(Reaction(cause))
  }

  function Run(s: Strategy, events: seq<Event>, root3: real): Strategy {
    if events == [] then s else Evolve(Run(s, events[..|events| - 1], root3), events[|events| - 1], root3)
  }

  /** No run decides a pending switch without making it. */
  lemma {:induction false} RunsStayUndecided(s: Strategy, events: seq<Event>, root3: real)
    requires s.Undecided()
    ensures Run(s, events, root3).Undecided()
  {
    if events != [] {
      RunsStayUndecided(s, events[..|events| - 1], root3);
      hide Run, AscNeeded, StoAllowed;
    }
  }

  /** In every run, no fault turns an active short into an open bridge, other than the final one. */
  lemma FaultNeverReleasesShort(s: Strategy, events: seq<Event>, cause: FaultCause, root3: real)
    requires s.Undecided() && Run(s, events, root3).Asc?
    ensures var next := Run(s, events + [OnFault(cause)], root3);
            if cause == Break2 then next.StoFinal? else next.Asc?
  {
    RunsStayUndecided(s, events, root3);
    assert (events + [OnFault(cause)])[..|events|] == events;
    hide AscNeeded, StoAllowed;
  }

  /** The final open bridge stays. */
  lemma {:induction false} FinalIsFinal(events: seq<Event>, root3: real)
    ensures Run(StoFinal, events, root3) == StoFinal
  {
    if events != [] {
      FinalIsFinal(events[..|events| - 1], root3);
    }
  }

  function Ticks(events: seq<Event>): nat {
    if events == [] then 0 else Ticks(events[..|events| - 1]) + if events[|events| - 1].OnTick? then 1 else 0
  }

  /** A tick opened a shorted bridge or shorted an open one. */
  predicate Switches(s: Strategy, e: Event, root3: real) {
    e.OnTick? && ((s.Sto? && Evolve(s, e, root3).Asc?) || (s.Asc? && Evolve(s, e, root3).Sto?))
  }

  function Count(s: Strategy): nat {
    if s.Conducting() then s.shouldSwitch.count else 0
  }

  lemma {:induction false} CountBelowTicks(s: Strategy, events: seq<Event>, root3: real)
    requires s.Undecided()
    ensures Count(Run(s, events, root3)) <= Count(s) + Ticks(events)
  {
    if events != [] {
      CountBelowTicks(s, events[..|events| - 1], root3);
      hide AscNeeded, StoAllowed;
    }
  }

  lemma {:induction false} RunsJoin(s: Strategy, a: seq<Event>, b: seq<Event>, root3: real)
    ensures Run(s, a + b, root3) == Run(Run(s, a, root3), b, root3)
  {
    if b == [] {
      assert a + b == a;
    } else {
      RunsJoin(s, a, b[..|b| - 1], root3);
      assert (a + b)[..|a + b| - 1] == a + b[..|b| - 1];
      hide Evolve;
    }
  }

  /** Whatever ticks and faults lie between them, two switches are at least ten ticks apart. */
  lemma SwitchesApart(s: Strategy, events: seq<Event>, i: nat, j: nat, root3: real)
    requires s.Undecided() && i < j < |events|
    requires Switches(Run(s, events[..i], root3), events[i], root3)
    requires Switches(Run(s, events[..j], root3), events[j], root3)
    ensures Ticks(events[i + 1..j + 1]) >= STO_ASC_DEBOUNCE_TICKS
  {
    var between := events[i + 1..j];
    var after := Run(s, events[..i + 1], root3);
    RunOneMore(s, events, i, root3);
    Splits(events, i, j);
    hide AscNeeded, StoAllowed, Evolve, Run;
    RunsStayUndecided(s, events[..i], root3);
    RunsStayUndecided(s, events[..i + 1], root3);
    RunsStayUndecided(s, events[..j], root3);
    RunsJoin(s, events[..i + 1], between, root3);
    SwitchRestartsCount(Run(s, events[..i], root3), events[i], root3);
    CountBelowTicks(after, between, root3);
    SwitchNeedsCount(Run(s, events[..j], root3), events[j], root3);
  }

  lemma RunOneMore(s: Strategy, events: seq<Event>, i: nat, root3: real)
    requires i < |events|
    ensures Run(s, events[..i + 1], root3) == Evolve(Run(s, events[..i], root3), events[i], root3)
  {
    assert events[..i + 1][..i] == events[..i];
    hide Evolve;
  }

  lemma Splits(events: seq<Event>, i: nat, j: nat)
    requires i < j < |events|
    ensures events[..j] == events[..i + 1] + events[i + 1..j]
    ensures Ticks(events[i + 1..j + 1]) == Ticks(events[i + 1..j]) + if events[j].OnTick? then 1 else 0
  {
    assert events[i + 1..j + 1][..j - i - 1] == events[i + 1..j];
  }

  lemma SwitchRestartsCount(s: Strategy, e: Event, root3: real)
    requires s.Undecided() && Switches(s, e, root3)
    ensures Count(Evolve(s, e, root3)) == 0
  {
    hide AscNeeded, StoAllowed;
  }

  lemma SwitchNeedsCount(s: Strategy, e: Event, root3: real)
    requires s.Undecided() && Switches(s, e, root3)
    ensures e.OnTick? && Count(s) + 1 >= STO_ASC_DEBOUNCE_TICKS
  {
    hide AscNeeded, StoAllowed;
  }

  // ---- When the bridge opens and when it is shorted ----

  /** An open bridge may charge the bus: it is more than 1% above its limit, the rectified line-to-line back-EMF is more
      than 1% above the bus, or the back-EMF is not known. */
  predicate Charges(input: SafeInput, root3: real) {
    var speed := if input.omega < 0.0 then -input.omega else input.omega;
    || input.dcBusV > 1.01 * input.dcBusMaxV || !input.rotorFeedbackValid || input.backEmfConstant.None?
    || root3 * input.backEmfConstant.value * speed > 1.01 * input.dcBusV
  }

  /** Opening the bridge is harmless: the bus is more than 1% below its limit, and the back-EMF known and more than 1%
      below the bus. */
  predicate Calm(input: SafeInput, root3: real) {
    var speed := if input.omega < 0.0 then -input.omega else input.omega;
    && input.dcBusV < 0.99 * input.dcBusMaxV && input.rotorFeedbackValid && input.backEmfConstant.Some?
    && root3 * input.backEmfConstant.value * speed < 0.99 * input.dcBusV
  }

  /** A tick switches exactly when it is the tenth in a row that asks for it. A single tick that does not ask starts the
      count over. A ramp-down ends after 10 ms, and then shorts the bridge exactly when an open one might charge the bus. */
  lemma TickSwitchesIff(s: Strategy, input: SafeInput, root3: real)
    requires s.Undecided()
    ensures var next := s.Tick(input, root3);
            && (s.Sto? ==> next == if !Charges(input, root3) then FRESH_STO
                                   else if s.shouldSwitch.count == 9 then FRESH_ASC
                                   else Sto(Debounced(false, s.shouldSwitch.count + 1)))
            && (s.Asc? ==> next == if !Calm(input, root3) then FRESH_ASC
                                   else if s.shouldSwitch.count == 9 then FRESH_STO
                                   else Asc(Debounced(false, s.shouldSwitch.count + 1)))
            && (s.RampDown? ==> next == if s.waitedMs + input.tickDtMs < 10.0 then RampDown(s.waitedMs + input.tickDtMs)
                                        else if Charges(input, root3) then FRESH_ASC else FRESH_STO)
            && (s.StoFinal? ==> next == s)
  {
  }

  function OnTicks(inputs: seq<SafeInput>): (events: seq<Event>)
    ensures |events| == |inputs|
  {
    seq(|inputs|, i requires 0 <= i < |inputs| => OnTick(inputs[i]))
  }

  lemma {:induction false} TicksCountUp(s: Strategy, inputs: seq<SafeInput>, root3: real)
    requires s.Undecided() && s.Conducting() && s.shouldSwitch.count + |inputs| < 10
    requires forall i :: 0 <= i < |inputs| ==> if s.Sto? then Charges(inputs[i], root3) else Calm(inputs[i], root3)
    ensures var count := s.shouldSwitch.count + |inputs|;
            Run(s, OnTicks(inputs), root3) == if s.Sto? then Sto(Debounced(false, count)) else Asc(Debounced(false, count))
  {
    if inputs != [] {
      var before := inputs[..|inputs| - 1];
      TicksCountUp(s, before, root3);
      assert OnTicks(inputs)[..|inputs| - 1] == OnTicks(before);
      TickSwitchesIff(Run(s, OnTicks(before), root3), inputs[|inputs| - 1], root3);
      hide Charges, Calm, Strategy.Tick;
    }
  }

  /** Ten ticks in a row on which an open bridge may charge the bus, less those already counted, short it. Ten calm ones
      open a shorted one. */
  lemma TenTicksSwitch(s: Strategy, inputs: seq<SafeInput>, root3: real)
    requires s.Undecided() && s.Conducting() && s.shouldSwitch.count + |inputs| == 10
    requires forall i :: 0 <= i < |inputs| ==> if s.Sto? then Charges(inputs[i], root3) else Calm(inputs[i], root3)
    ensures var after := Run(s, OnTicks(inputs), root3);
            after.Output() == (if s.Sto? then ActiveShort else Floating) && after == if s.Sto? then FRESH_ASC else FRESH_STO
  {
    var before := inputs[..|inputs| - 1];
    TicksCountUp(s, before, root3);
    assert OnTicks(inputs)[..|inputs| - 1] == OnTicks(before);
    TickSwitchesIff(Run(s, OnTicks(before), root3), inputs[|inputs| - 1], root3);
    hide Charges, Calm, Strategy.Tick;
  }

  /** What a fault does to the bridge. The second brake opens it for good. An overvoltage shorts it at once, and nothing
      else shorts an open one. A loss of commands, overheating or overspeed let a running drive down with zero torque, and
      every other fault opens its bridge at once. A ramp-down is cut short by any fault that does not ask for one. */
  lemma FaultsReact(s: Strategy, cause: FaultCause)
    requires s.Undecided()
    ensures var ramp := cause in {SetpointTimeout, CANMessageIntegrity, CalibrationTimeout, Overtemperature, Overspeed};
            var next := s.FaultEvolve(Reaction(cause));
            && Reaction(cause).Output()
               == (if cause == DcOverVoltage then ActiveShort else if ramp then Foc(TargetTorque(0.0)) else Floating)
            && (Reaction(cause).RampDown? ==> Reaction(cause).waitedMs == 0.0)
            && (Reaction(cause).StoFinal? <==> cause == Break2)
            && (cause == Break2 ==> next == StoFinal)
            && (cause == DcOverVoltage && !s.StoFinal? ==> next == FRESH_ASC)
            && (cause != Break2 && cause != DcOverVoltage && s.Conducting() ==> next == s)
            && (s.RampDown? ==> next == if ramp then s else Reaction(cause))
            && (s.StoFinal? ==> next == s)
  {
  }

  // ---- Hysteresis ----

  /** The two gates exclude each other: with non-negative voltages no input asks for both switches. */
  lemma GatesExclude(input: SafeInput, root3: real)
    requires input.dcBusV >= 0.0 && input.dcBusMaxV >= 0.0
    ensures !(AscNeeded(input, root3) && StoAllowed(input, root3))
  {
    hide BackEmf;
  }

  function Repeat(input: SafeInput, n: nat): seq<Event> {
    seq(n, i => OnTick(input))
  }

  /** Under a constant input the strategy never leaves what it switched to. */
  lemma {:induction false} HeldAfterSwitch(s: Strategy, input: SafeInput, n: nat, root3: real)
    requires s.Undecided() && input.dcBusV >= 0.0 && input.dcBusMaxV >= 0.0
    requires (s.Sto? && !AscNeeded(input, root3)) || (s.Asc? && !StoAllowed(input, root3))
    ensures var t := Run(s, Repeat(input, n), root3);
            t.Undecided() && (s.Sto? ==> t.Sto?) && (s.Asc? ==> t.Asc?)
  {
    if n > 0 {
      HeldAfterSwitch(s, input, n - 1, root3);
      assert Repeat(input, n)[..n - 1] == Repeat(input, n - 1);
      hide AscNeeded, StoAllowed, Repeat;
    }
  }

  /** Under a constant input at most one tick switches: after a switch none does. */
  lemma ConstantInputSwitchesOnce(s: Strategy, input: SafeInput, i: nat, j: nat, root3: real)
    requires s.Undecided() && input.dcBusV >= 0.0 && input.dcBusMaxV >= 0.0 && i < j
    requires Switches(Run(s, Repeat(input, i), root3), OnTick(input), root3)
    ensures !Switches(Run(s, Repeat(input, j), root3), OnTick(input), root3)
  {
    var before, after := Run(s, Repeat(input, i), root3), Run(s, Repeat(input, i + 1), root3);
    var n := j - i - 1;
    assert Repeat(input, i + 1)[..i] == Repeat(input, i);
    assert Repeat(input, j) == Repeat(input, i + 1) + Repeat(input, n);
    RunsStayUndecided(s, Repeat(input, i), root3);
    RunsStayUndecided(s, Repeat(input, i + 1), root3);
    RunsJoin(s, Repeat(input, i + 1), Repeat(input, n), root3);
    GatesExclude(input, root3);
    SwitchIsAsked(before, input, root3);
    hide Repeat, AscNeeded, StoAllowed;
    HeldAfterSwitch(after, input, n, root3);
    HeldSwitchesNot(Run(s, Repeat(input, j), root3), input, root3);
  }

  /** A switch happens only on a tick that asks for it. */
  lemma SwitchIsAsked(s: Strategy, input: SafeInput, root3: real)
    requires s.Undecided() && Switches(s, OnTick(input), root3)
    ensures if s.Sto? then AscNeeded(input, root3) else StoAllowed(input, root3)
    ensures Evolve(s, OnTick(input), root3) == if s.Sto? then FRESH_ASC else FRESH_STO
  {
    hide AscNeeded, StoAllowed;
  }

  lemma HeldSwitchesNot(s: Strategy, input: SafeInput, root3: real)
    requires s.Undecided()
    requires (s.Sto? && !AscNeeded(input, root3)) || (s.Asc? && !StoAllowed(input, root3))
    ensures !Switches(s, OnTick(input), root3)
  {
    hide AscNeeded, StoAllowed;
  }
}
