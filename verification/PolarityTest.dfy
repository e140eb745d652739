/** The magnet polarity test: field-oriented/src/estimation/utils.rs.

    The low-pass filter of the innovation is not modelled: a sample carries what it lets through. */
module PolarityTests {
  import opened Angles
  import opened Reals
  import opened Transforms
  import opened Wrappers

  const U32_MAX: nat := 0xFFFF_FFFF

  datatype PolarityTestFault = ConvergenceTimeout | TestTimeout | Inconclusive | MissingParameter

  datatype State =
    | Init
    | Settling(lockedTicks: nat)
    | Testing(ticks: nat, saturationSum: real)
    | Done
    | Faulted(kind: PolarityTestFault)

  datatype Config = Config(toleranceRad: real, timeoutTicks: nat, testTicks: nat, lockDwellTicks: nat)
  {
    /** The tick counts the constructor computes have 32 bits and are at least one, the timeout excepted. */
    predicate Valid() {
      timeoutTicks <= U32_MAX && 1 <= testTicks && 1 <= lockDwellTicks
    }
  }

  /** The filtered innovation if the rotor was observed, the direct current, and the phase of the injection. */
  datatype Sample = Sample(innovation: Option<real>, iD: real, phasor: SinCos)
  {
    predicate InTolerance(config: Config) {
      innovation.Some? && Abs(innovation.value) <= config.toleranceRad
    }

    /** What the sample adds to the saturation sum. */
    function Saturation(): real {
      Mul(iD, Square(phasor.cos) - Square(phasor.sin))
    }
  }

  datatype Test = Test(state: State, elapsedTicks: nat)
  {
    predicate Active() {
      Verdict().None?
    }

    function Verdict(): Option<Result<(), PolarityTestFault>> {
      match state
      case Done => Some(Ok(()))
      case Faulted(kind) => Some(Err(kind))
      case _ => None
    }

    function NextElapsed(): nat {
      if elapsedTicks >= U32_MAX then U32_MAX else elapsedTicks + 1
    }

    function NextState(sample: Sample, config: Config): State {
      var timedOut := NextElapsed() > config.timeoutTicks;
      match state
      case Init =>
        if sample.innovation.Some? then Settling(0)
        else if timedOut then Faulted(ConvergenceTimeout)
        else Init
      case Settling(locked) =>
        var next := if sample.InTolerance(config) then locked + 1 else 0;
        if next >= config.lockDwellTicks then Testing(0, 0.0)
        else if timedOut then Faulted(ConvergenceTimeout)
        else Settling(next)
      case Testing(ticks, sum) =>
        var observed := sample.innovation.Some?;
        var nextTicks, nextSum := if observed then ticks + 1 else 0, if observed then sum + sample.Saturation() else 0.0;
        if nextTicks >= config.testTicks then (if nextSum == 0.0 then Faulted(Inconclusive) else Done)
        else if timedOut then Faulted(TestTimeout)
        else Testing(nextTicks, nextSum)
      case _ => state
    }

    function Step(sample: Sample, config: Config): Test {
      Test(NextState(sample, config), NextElapsed())
    }

    /** The correction of the angle a step returns. */
    function Correction(sample: Sample, config: Config): real {
      if state.Testing? && NextState(sample, config).Done? && state.saturationSum + sample.Saturation() < 0.0
      then PI else 0.0
    }
  }

  const AT_RESET := Test(Init, 0)

  class PolarityTest {
    const config: Config
    var state: State
    var elapsedTicks: nat

    function Value(): Test
      reads this
    {
      Test(state, elapsedTicks)
    }

    constructor (config: Config)
      ensures Value() == AT_RESET && this.config == config
    {
      this.config, state, elapsedTicks := config, Init, 0;
    }

    method Reset(polarityKnown: bool)
      modifies this
      ensures Value() == if polarityKnown then Test(Done, 0) else AT_RESET
    {
      state := if polarityKnown then Done else Init;
      elapsedTicks := 0;
    }

    method Abort(kind: PolarityTestFault)
      modifies this
      ensures Value() == if old(Value()).Active() then Test(Faulted(kind), old(elapsedTicks)) else old(Value())
    {
      if Value().Verdict().None? {
        state := Faulted(kind);
      }
    }

    /** The correction to apply to the tracked angle. */
    method Step(sample: Sample) returns (correctionRad: real)
      modifies this
      ensures Value() == old(Value()).Step(sample, config)
      ensures correctionRad == old(Value()).Correction(sample, config)
    {
      hide Sample.Saturation;
      elapsedTicks := if elapsedTicks >= U32_MAX then U32_MAX else elapsedTicks + 1;
      var timedOut := elapsedTicks > config.timeoutTicks;
      correctionRad := 0.0;
      match state {
        case Init =>
          if sample.innovation.Some? {
            state := Settling(0);
          } else if timedOut {
            state := Faulted(ConvergenceTimeout);
          }
        case Settling(lockedTicks) =>
          var locked := if sample.InTolerance(config) then lockedTicks + 1 else 0;
          if locked >= config.lockDwellTicks {
            state := Testing(0, 0.0);
          } else if timedOut {
            state := Faulted(ConvergenceTimeout);
          } else {
            state := Settling(locked);
          }
        case Testing(oldTicks, oldSum) =>
          var ticks, saturationSum := 0, 0.0;
          if sample.innovation.Some? {
            ticks, saturationSum := oldTicks + 1, oldSum + sample.Saturation();
          }
          if ticks >= config.testTicks {
            if saturationSum == 0.0 {
              state := Faulted(Inconclusive);
            } else {
              if saturationSum < 0.0 {
                correctionRad := PI;
              }
              state := Done;
            }
          } else if timedOut {
            state := Faulted(TestTimeout);
          } else {
            state := Testing(ticks, saturationSum);
          }
        case _ =>
      }
    }
  }

  // ---- Runs ----

  function Run(t: Test, samples: seq<Sample>, config: Config): Test {
    if samples == [] then t else Run(t, samples[..|samples| - 1], config).Step(samples[|samples| - 1], config)
  }

  lemma {:induction false} ElapsedCounts(samples: seq<Sample>, config: Config)
    ensures Run(AT_RESET, samples, config).elapsedTicks == if |samples| < U32_MAX then |samples| else U32_MAX
  {
    if samples != [] {
      ElapsedCounts(samples[..|samples| - 1], config);
      hide Test.NextState;
    }
  }

  /** How far an active state is from its verdict once the time is out. */
  function Stage(s: State): nat {
    match s
    case Init => 3
    case Settling(_) => 2
    case Testing(_, _) => 1
    case _ => 0
  }

  lemma TimeOutAdvances(t: Test, sample: Sample, config: Config)
    requires t.NextElapsed() > config.timeoutTicks
    ensures Stage(t.state) > 0 ==> Stage(t.Step(sample, config).state) < Stage(t.state)
    ensures Stage(t.state) == 0 ==> Stage(t.Step(sample, config).state) == 0
  {
    hide Sample.Saturation, Sample.InTolerance;
  }

  /** Whatever the samples, there is a verdict within three steps after the timeout. */
  lemma {:induction false} VerdictInTime(samples: seq<Sample>, config: Config)
    requires config.Valid() && config.timeoutTicks < U32_MAX
    ensures Stage(Run(AT_RESET, samples, config).state) <=
            if |samples| <= config.timeoutTicks then 3
            else if |samples| < config.timeoutTicks + 3 then config.timeoutTicks + 3 - |samples|
            else 0
  {
    if samples != [] {
      var before := samples[..|samples| - 1];
      VerdictInTime(before, config);
      ElapsedCounts(before, config);
      if |samples| > config.timeoutTicks {
        hide Test.Step;
        TimeOutAdvances(Run(AT_RESET, before, config), samples[|samples| - 1], config);
      }
    }
  }

  lemma StageIsVerdict(t: Test)
    ensures Stage(t.state) == 0 <==> t.Verdict().Some?
  {
  }

  function Unobserved(n: nat): seq<Sample> {
    seq(n, i => Sample(None, 0.0, SinCos(0.0, 1.0)))
  }

  /** With the largest timeout the saturating counter never exceeds it: an unobserved rotor gets no verdict, ever. */
  lemma {:induction false} LargestTimeoutNeverExpires(config: Config, n: nat)
    requires config.timeoutTicks == U32_MAX
    ensures Run(AT_RESET, Unobserved(n), config).state == Init
  {
    if n > 0 {
      assert Unobserved(n)[..n - 1] == Unobserved(n - 1);
      LargestTimeoutNeverExpires(config, n - 1);
    }
  }

  /** A verdict within three steps after the timeout is certain exactly when the timeout is not the largest. */
  lemma VerdictIsCertainIff(config: Config)
    requires config.Valid()
    ensures config.timeoutTicks < U32_MAX <==>
            forall samples: seq<Sample> :: |samples| == config.timeoutTicks + 3 ==>
              Run(AT_RESET, samples, config).Verdict().Some?
  {
    if config.timeoutTicks < U32_MAX {
      forall samples: seq<Sample> | |samples| == config.timeoutTicks + 3
        ensures Run(AT_RESET, samples, config).Verdict().Some?
      {
        VerdictInTime(samples, config);
        StageIsVerdict(Run(AT_RESET, samples, config));
      }
    } else {
      var n := config.timeoutTicks + 3;
      LargestTimeoutNeverExpires(config, n);
      assert |Unobserved(n)| == n && Run(AT_RESET, Unobserved(n), config).Verdict().None?;
    }
  }

  // ---- What a verdict rests on ----

  /** The rotor was observed, and its filtered innovation no further from zero than the tolerance. */
  predicate Locked(sample: Sample, config: Config) {
    sample.innovation.Some? && -config.toleranceRad <= sample.innovation.value <= config.toleranceRad
  }

  lemma LockedIs(sample: Sample, config: Config)
    ensures sample.InTolerance(config) <==> Locked(sample, config)
  {
  }

  /** The last `n` samples before `end` are all locked. */
  predicate LockedAt(samples: seq<Sample>, end: nat, n: nat, config: Config) {
    n <= end <= |samples| && forall i :: end - n <= i < end ==> Locked(samples[i], config)
  }

  predicate ObservedAtEnd(samples: seq<Sample>, n: nat) {
    n <= |samples| && forall i :: |samples| - n <= i < |samples| ==> samples[i].innovation.Some?
  }

  /** The second harmonic of the injection. */
  function SecondHarmonic(phasor: SinCos): real {
    phasor.cos * phasor.cos - phasor.sin * phasor.sin
  }

  /** The direct currents of the last `n` samples, demodulated with the second harmonic of the injection. */
  function SumAtEnd(samples: seq<Sample>, n: nat): real
    requires n <= |samples|
  {
    if n == 0 then 0.0
    else
      var last := samples[|samples| - 1];
      SumAtEnd(samples[..|samples| - 1], n - 1) + Mul(last.iD, SecondHarmonic(last.phasor))
  }

  lemma SaturationIs(sample: Sample)
    ensures sample.Saturation() == Mul(sample.iD, SecondHarmonic(sample.phasor))
  {
  }

  /** Somewhere before the last `n` samples the lock was held for the dwell time. */
  ghost predicate LockedBefore(samples: seq<Sample>, n: nat, config: Config) {
    exists end: nat :: LockedAt(samples, end, config.lockDwellTicks, config) && end + n <= |samples|
  }

  /** What each active state says about the samples so far. */
  ghost predicate Explains(s: State, samples: seq<Sample>, config: Config) {
    match s
    case Settling(locked) => LockedAt(samples, |samples|, locked, config) && locked < config.lockDwellTicks
    case Testing(ticks, sum) =>
      && ticks < config.testTicks && ObservedAtEnd(samples, ticks) && sum == SumAtEnd(samples, ticks)
      && LockedBefore(samples, ticks, config)
    case _ => true
  }

  lemma LockLater(samples: seq<Sample>, sample: Sample, n: nat, config: Config)
    requires LockedBefore(samples, n, config)
    ensures LockedBefore(samples + [sample], n, config) && LockedBefore(samples + [sample], n + 1, config)
  {
    var end: nat :| LockedAt(samples, end, config.lockDwellTicks, config) && end + n <= |samples|;
    assert LockedAt(samples + [sample], end, config.lockDwellTicks, config);
  }

  lemma LockNow(samples: seq<Sample>, config: Config)
    requires LockedAt(samples, |samples|, config.lockDwellTicks, config)
    ensures LockedBefore(samples, 0, config)
  {
  }

  lemma LockFromStart(samples: seq<Sample>, n: nat, config: Config)
    requires LockedBefore(samples, n, config)
    ensures LockedBefore(samples, 0, config)
  {
  }

  lemma StepExplains(t: Test, samples: seq<Sample>, sample: Sample, config: Config)
    requires config.Valid() && Explains(t.state, samples, config)
    ensures Explains(t.NextState(sample, config), samples + [sample], config)
  {
    var all := samples + [sample];
    assert all[..|all| - 1] == samples;
    match t.state {
      case Settling(locked) =>
        LockedIs(sample, config);
        if sample.InTolerance(config) {
          assert LockedAt(all, |all|, locked + 1, config);
          if locked + 1 == config.lockDwellTicks {
            LockNow(all, config);
          }
        }
        hide Sample.InTolerance, Locked, LockedBefore, Sample.Saturation;
      case Testing(ticks, sum) =>
        SaturationIs(sample);
        LockLater(samples, sample, ticks, config);
        LockFromStart(all, ticks, config);
        hide Sample.InTolerance, Locked, LockedBefore, Sample.Saturation;
      case _ =>
    }
  }

  lemma {:induction false} RunExplains(samples: seq<Sample>, config: Config)
    requires config.Valid()
    ensures Explains(Run(AT_RESET, samples, config).state, samples, config)
  {
    if samples != [] {
      var before, last := samples[..|samples| - 1], samples[|samples| - 1];
      RunExplains(before, config);
      hide Explains, Test.NextState;
      StepExplains(Run(AT_RESET, before, config), before, last, config);
      assert before + [last] == samples;
    }
  }

  /** The step of a run that ends the test with success: its last `testTicks` samples were all observed, their sum is
      not zero and decides the correction, and before them the lock was held for the dwell time. */
  lemma SuccessIsEarned(samples: seq<Sample>, sample: Sample, config: Config)
    requires config.Valid()
    requires var before := Run(AT_RESET, samples, config);
             !before.state.Done? && before.Step(sample, config).state.Done?
    ensures var all, n := samples + [sample], config.testTicks;
            && ObservedAtEnd(all, n) && SumAtEnd(all, n) != 0.0 && LockedBefore(all, n, config)
            && Run(AT_RESET, samples, config).Correction(sample, config) == if SumAtEnd(all, n) < 0.0 then PI else 0.0
  {
    var t, all := Run(AT_RESET, samples, config), samples + [sample];
    RunExplains(samples, config);
    LockLater(samples, sample, t.state.ticks, config);
    assert all[..|all| - 1] == samples;
    SaturationIs(sample);
    hide Sample.Saturation, Sample.InTolerance, LockedBefore, Run, SecondHarmonic;
  }

  /** The last `n` direct currents are `h` times the second harmonic, and a remainder. */
  predicate Harmonic(samples: seq<Sample>, n: nat, h: real, rest: seq<real>) {
    && n <= |samples| && |rest| == |samples|
    && forall i :: |samples| - n <= i < |samples| ==>
         samples[i].iD == Mul(h, SecondHarmonic(samples[i].phasor)) + rest[i]
  }

  /** The correlation of the remainder with the second harmonic, and the energy of the latter. */
  function Correlation(samples: seq<Sample>, n: nat, rest: seq<real>): real
    requires n <= |samples| == |rest|
  {
    if n == 0 then 0.0
    else
      var k := |samples| - 1;
      Correlation(samples[..k], n - 1, rest[..k]) + Mul(rest[k], SecondHarmonic(samples[k].phasor))
  }

  function Energy(samples: seq<Sample>, n: nat): real
    requires n <= |samples|
  {
    if n == 0 then 0.0 else Energy(samples[..|samples| - 1], n - 1) + Square(SecondHarmonic(samples[|samples| - 1].phasor))
  }

  lemma {:induction false} SumOfHarmonic(samples: seq<Sample>, n: nat, h: real, rest: seq<real>)
    requires Harmonic(samples, n, h, rest)
    ensures SumAtEnd(samples, n) == Mul(h, Energy(samples, n)) + Correlation(samples, n, rest)
  {
    if n == 0 {
      MulZero(h);
    } else {
      var k := |samples| - 1;
      SumOfHarmonic(samples[..k], n - 1, h, rest[..k]);
      OneHarmonic(samples[k].iD, h, rest[k], SecondHarmonic(samples[k].phasor));
      MulLinear(h, Energy(samples[..k], n - 1), Square(SecondHarmonic(samples[k].phasor)));
      hide Mul, Square, SecondHarmonic;
    }
  }

  lemma OneHarmonic(iD: real, h: real, rest: real, s: real)
    requires iD == Mul(h, s) + rest
    ensures Mul(iD, s) == Mul(h, Square(s)) + Mul(rest, s)
  {
    MulSum(Mul(h, s), rest, s);
    MulAssoc(h, s, s);
    assert Mul(s, s) == Square(s);
    hide Mul, Square;
  }

  /** Saturation adds a second harmonic to the direct current, along the magnets: positive where the tracked axis is
      theirs, negative where it is turned round. When the currents of the test hold such a harmonic of amplitude `h`, and
      nothing else in step with it, a success turns the angle by half a turn if and only if `h` is negative. */
  lemma CorrectionFollowsSaturation(samples: seq<Sample>, sample: Sample, config: Config, h: real, rest: seq<real>)
    requires config.Valid()
    requires var before := Run(AT_RESET, samples, config);
             !before.state.Done? && before.Step(sample, config).state.Done?
    requires Harmonic(samples + [sample], config.testTicks, h, rest)
    requires config.testTicks <= |samples| + 1 && Correlation(samples + [sample], config.testTicks, rest) == 0.0
    ensures Run(AT_RESET, samples, config).Correction(sample, config) == if h < 0.0 then PI else 0.0
  {
    var all, n := samples + [sample], config.testTicks;
    SuccessIsEarned(samples, sample, config);
    SumOfHarmonic(all, n, h, rest);
    EnergyNotNegative(all, n);
    MulSign(h, Energy(all, n));
    MulZero(h);
    MulSign(-h, Energy(all, n));
    MulComm(h, Energy(all, n));
    MulComm(-h, Energy(all, n));
    MulLinear(Energy(all, n), h, 0.0);
    hide Mul, Square, Run, Harmonic, Correlation, Energy, SumAtEnd, Test.Correction, Test.Step;
  }

  lemma {:induction false} EnergyNotNegative(samples: seq<Sample>, n: nat)
    requires n <= |samples|
    ensures Energy(samples, n) >= 0.0
  {
    if n > 0 {
      EnergyNotNegative(samples[..|samples| - 1], n - 1);
      SquareSign(SecondHarmonic(samples[|samples| - 1].phasor));
      hide Square, SecondHarmonic;
    }
  }

  /** What a failed test says: the rotor was not locked in time, or locked but not tested in time, or the sum is zero. */
  lemma FaultsMean(t: Test, sample: Sample, config: Config)
    requires config.Valid() && t.Active() && t.NextState(sample, config).Faulted?
    ensures var kind := t.NextState(sample, config).kind;
            && (kind == ConvergenceTimeout <==> !t.state.Testing?)
            && (kind != Inconclusive ==> t.elapsedTicks + 1 > config.timeoutTicks || t.elapsedTicks >= U32_MAX)
            && (kind == Inconclusive ==>
                  sample.innovation.Some? && t.state.ticks + 1 >= config.testTicks
                  && t.state.saturationSum + Mul(sample.iD, SecondHarmonic(sample.phasor)) == 0.0)
            && (kind == Inconclusive || kind == ConvergenceTimeout || kind == TestTimeout)
  {
    SaturationIs(sample);
    hide Sample.Saturation, Sample.InTolerance, SecondHarmonic;
  }

  lemma {:induction false} LocksIn(samples: seq<Sample>, config: Config)
    requires config.Valid() && 1 <= |samples| <= config.lockDwellTicks && |samples| <= config.timeoutTicks < U32_MAX
    requires forall i :: 0 <= i < |samples| ==> Locked(samples[i], config)
    ensures Run(AT_RESET, samples, config) == Test(Settling(|samples| - 1), |samples|)
  {
    var n := |samples| - 1;
    if n > 0 {
      LocksIn(samples[..n], config);
    }
    LockedIs(samples[n], config);
    hide Sample.Saturation, Sample.InTolerance;
  }

  lemma LocksThenTests(samples: seq<Sample>, config: Config)
    requires config.Valid() && |samples| == config.lockDwellTicks + 1 && config.lockDwellTicks < config.timeoutTicks < U32_MAX
    requires forall i :: 0 <= i < |samples| ==> Locked(samples[i], config)
    ensures Run(AT_RESET, samples, config) == Test(Testing(0, 0.0), |samples|)
  {
    LocksIn(samples[..|samples| - 1], config);
    LockedIs(samples[|samples| - 1], config);
    hide Sample.Saturation, Sample.InTolerance;
  }

  lemma {:induction false} TestsOn(t: Test, samples: seq<Sample>, config: Config)
    requires t.state == Testing(0, 0.0) && t.elapsedTicks + |samples| <= config.timeoutTicks < U32_MAX
    requires |samples| < config.testTicks && forall i :: 0 <= i < |samples| ==> samples[i].innovation.Some?
    ensures Run(t, samples, config) == Test(Testing(|samples|, SumAtEnd(samples, |samples|)), t.elapsedTicks + |samples|)
  {
    if samples != [] {
      TestsOn(t, samples[..|samples| - 1], config);
      SaturationIs(samples[|samples| - 1]);
      hide Sample.Saturation, SecondHarmonic;
    }
  }

  /** A rotor that is locked from the first sample gets its verdict: the dwell time and one sample in tolerance, then the
      test time observed, all before the timeout, end the test with success unless the sum of the test is zero, and the
      last sample turns the angle by half a turn exactly when the sum is negative. */
  lemma LockedRotorSucceeds(lock: seq<Sample>, test: seq<Sample>, last: Sample, config: Config)
    requires config.Valid() && |lock| == config.lockDwellTicks + 1 && |test| + 1 == config.testTicks
    requires |lock| + |test| + 1 <= config.timeoutTicks < U32_MAX
    requires forall i :: 0 <= i < |lock| ==> Locked(lock[i], config)
    requires last.innovation.Some? && forall i :: 0 <= i < |test| ==> test[i].innovation.Some?
    ensures var before := Run(AT_RESET, lock + test, config);
            var sum := SumAtEnd(test, |test|) + Mul(last.iD, SecondHarmonic(last.phasor));
            && before.Step(last, config).state == (if sum == 0.0 then Faulted(Inconclusive) else Done)
            && before.Correction(last, config) == if sum < 0.0 then PI else 0.0
  {
    LocksThenTests(lock, config);
    RunsJoin(AT_RESET, lock, test, config);
    TestsOn(Run(AT_RESET, lock, config), test, config);
    SaturationIs(last);
    hide Run, Sample.Saturation, Sample.InTolerance, SecondHarmonic;
  }

  lemma {:induction false} DoneStays(t: Test, samples: seq<Sample>, config: Config)
    requires t.state.Done?
    ensures Run(t, samples, config).state.Done?
  {
    if samples != [] {
      DoneStays(t, samples[..|samples| - 1], config);
    }
  }

  lemma {:induction false} RunsJoin(t: Test, a: seq<Sample>, b: seq<Sample>, config: Config)
    ensures Run(t, a + b, config) == Run(Run(t, a, config), b, config)
  {
    if b == [] {
      assert a + b == a;
    } else {
      RunsJoin(t, a, b[..|b| - 1], config);
      assert (a + b)[..|a + b| - 1] == a + b[..|b| - 1];
      hide Test.Step;
    }
  }

  /** The angle is corrected at most once in a run, on the step that ends the test. */
  lemma CorrectedOnce(samples: seq<Sample>, i: nat, j: nat, config: Config)
    requires i < j < |samples|
    requires Run(AT_RESET, samples[..i], config).Correction(samples[i], config) != 0.0
    ensures Run(AT_RESET, samples[..i + 1], config).state.Done?
    ensures Run(AT_RESET, samples[..j], config).Correction(samples[j], config) == 0.0
  {
    var after := Run(AT_RESET, samples[..i + 1], config);
    assert samples[..i + 1][..i] == samples[..i];
    assert samples[..j] == samples[..i + 1] + samples[i + 1..j];
    RunsJoin(AT_RESET, samples[..i + 1], samples[i + 1..j], config);
    DoneStays(after, samples[i + 1..j], config);
    hide Sample.Saturation, Sample.InTolerance;
  }
}
