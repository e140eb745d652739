/** The estimator reaches its results: field-oriented/src/commission/motor_estimation.rs. */
module MotorRecoveries {
  import Angles
  import opened FocTypes
  import opened Identification
  import opened Modulation
  import opened MotorEstimation
  import opened MotorParameters
  import opened Multiples
  import opened Reals
  import opened Transforms
  import opened Wrappers

  // ---- The resistance is found ----

  /** A locked motor on a steady bus, and times long enough for the test: each block measures at least 500 samples, and the
      two levels differ by more than the least difference of the solution. */
  datatype Bench = Bench(resistance: real, deadtime: real, busV: real)
  {
    predicate Suits(config: OfflineEstimatorConfig) {
      && resistance > 0.0 && busV > 0.0 && config.dtS > 0.0 && config.calibrationCurrentA > 0.0
      && config.testTimeS / 4.0 >= 500.0 * config.dtS
      && Level(0, config) - Level(1, config) > 0.00001
    }

    /** The normalised current of a block: the full calibration current in the first and the third, half of it in the
        others. */
    function Level(block: nat, config: OfflineEstimatorConfig): real {
      Quotient(if block % 2 == 0 then config.calibrationCurrentA else 0.5 * config.calibrationCurrentA, busV)
    }
  }

  /** The sample obeys the motor, and while the resistance is tested carries the current of the block. */
  predicate OnTarget(e: Estimator, data: FocResult, config: OfflineEstimatorConfig, bench: Bench) {
    && Obeys(data, bench.resistance, bench.deadtime) && data.dcBusVoltageV == bench.busV
    && (e.state.EstR? ==>
          data.measuredIDq.d == if e.state.block % 2 == 0 then config.calibrationCurrentA else 0.5 * config.calibrationCurrentA)
  }

  /** The samples of one level: all the same, and as many as its finished blocks and the current one measured. */
  predicate Measured(m: Mean, level: real, blocks: nat, ran: real, config: OfflineEstimatorConfig) {
    && m.xSum == Mul(level, m.numData as real)
    && Mul(config.dtS, m.numData as real) >= blocks as real * (config.testTimeS / 4.0) + ran
  }

  /** What the run keeps: nothing has failed, and both levels are measured. */
  predicate Finds(e: Estimator, config: OfflineEstimatorConfig, bench: Bench) {
    && Identifies(e, bench.resistance, bench.deadtime) && !e.state.Failure?
    && (e.state.EstR? ==>
          var s := e.state;
          var ran := if s.targetReached then s.blockRanS else 0.0;
          && s.block < EST_R_BLOCKS && ran >= 0.0
          && Measured(s.high, bench.Level(0, config), (s.block + 1) / 2, if s.block % 2 == 0 then ran else 0.0, config)
          && Measured(s.low, bench.Level(1, config), s.block / 2, if s.block % 2 == 0 then 0.0 else ran, config))
  }

  lemma OneMoreMeasured(m: Mean, x: real, y: real, level: real, blocks: nat, ran: real, config: OfflineEstimatorConfig)
    requires Measured(m, level, blocks, ran, config) && x == level
    ensures Measured(m.Accumulate(x, y), level, blocks, ran + config.dtS, config)
  {
    MulLinear(level, m.numData as real, 1.0);
    MulOne(level);
    MulLinear(config.dtS, m.numData as real, 1.0);
    MulOne(config.dtS);
    hide Mul;
  }

  lemma BlockEnds(m: Mean, level: real, blocks: nat, ran: real, config: OfflineEstimatorConfig)
    requires Measured(m, level, blocks, ran, config) && ran >= config.testTimeS / 4.0
    ensures Measured(m, level, blocks + 1, 0.0, config)
  {
    MulSum(blocks as real, 1.0, config.testTimeS / 4.0);
    MulOne(config.testTimeS / 4.0);
    assert Mul(blocks as real, config.testTimeS / 4.0) == blocks as real * (config.testTimeS / 4.0);
    assert Mul((blocks + 1) as real, config.testTimeS / 4.0) == (blocks + 1) as real * (config.testTimeS / 4.0);
    hide Mul;
  }

  lemma TargetIsReached(target: real)
    requires target > 0.0
    ensures ReachesTarget(target, target)
  {
    assert target - target == 0.0;
  }

  lemma MeasuredMean(m: Mean, level: real, ran: real, config: OfflineEstimatorConfig)
    requires Measured(m, level, 2, ran, config) && ran >= 0.0 && config.dtS > 0.0 && config.testTimeS / 4.0 >= 500.0 * config.dtS
    ensures m.numData >= MIN_SOLVE_SAMPLES && m.X() == level
  {
    MulLinear(config.dtS, m.numData as real, 1000.0);
    MulComm(config.dtS, 1000.0);
    MulSign(config.dtS, 1000.0 - m.numData as real);
    MulLinear(config.dtS, 1000.0, m.numData as real);
    assert Mul(1000.0, config.dtS) == 1000.0 * config.dtS;
    hide Mul;
    QuotientOf(level, m.numData as real);
  }

  lemma SolveRFinds(high: Mean, low: Mean, config: OfflineEstimatorConfig, bench: Bench)
    requires bench.Suits(config)
    requires high.OnLine(bench.resistance, 4.0 / 3.0 * bench.deadtime) && low.OnLine(bench.resistance, 4.0 / 3.0 * bench.deadtime)
    requires Measured(high, bench.Level(0, config), 2, 0.0, config) && Measured(low, bench.Level(1, config), 2, 0.0, config)
    ensures SolveR(high, low) == EstimateR(bench.resistance, bench.deadtime, HallCalibrationRequired(bench.resistance))
  {
    MeasuredMean(high, bench.Level(0, config), 0.0, config);
    MeasuredMean(low, bench.Level(1, config), 0.0, config);
    MeanOnLine(high, bench.resistance, 4.0 / 3.0 * bench.deadtime);
    MeanOnLine(low, bench.resistance, 4.0 / 3.0 * bench.deadtime);
    MulLinear(bench.resistance, high.X(), low.X());
    QuotientOf(bench.resistance, high.X() - low.X());
    SolveRRecovers(high, low, bench.resistance, bench.deadtime);
    hide Mul, Quotient, Mean.X, Mean.Y, Mean.OnLine, Measured, Bench.Level;
  }

  /** A measuring sample of the resistance test, and what it leaves of the levels. */
  lemma MeasuringSample(s: State, data: FocResult, config: OfflineEstimatorConfig, bench: Bench)
    returns (high: Mean, low: Mean, ran: real)
    requires s.EstR? && s.targetReached && s.block < EST_R_BLOCKS && bench.Suits(config)
    requires Measured(s.high, bench.Level(0, config), (s.block + 1) / 2, if s.block % 2 == 0 then s.blockRanS else 0.0, config)
    requires Measured(s.low, bench.Level(1, config), s.block / 2, if s.block % 2 == 0 then 0.0 else s.blockRanS, config)
    requires data.dcBusVoltageV == bench.busV
    requires data.measuredIDq.d == if s.block % 2 == 0 then config.calibrationCurrentA else 0.5 * config.calibrationCurrentA
    ensures ran == s.blockRanS + config.dtS
    ensures var x, y := Quotient(data.measuredIDq.d, data.dcBusVoltageV), Quotient(data.uDq.d, data.dcBusVoltageV);
            && high == (if s.block % 2 == 0 then s.high.Accumulate(x, y) else s.high)
            && low == (if s.block % 2 == 0 then s.low else s.low.Accumulate(x, y))
    ensures Measured(high, bench.Level(0, config), (s.block + 1) / 2, if s.block % 2 == 0 then ran else 0.0, config)
    ensures Measured(low, bench.Level(1, config), s.block / 2, if s.block % 2 == 0 then 0.0 else ran, config)
  {
    var x, y := Quotient(data.measuredIDq.d, data.dcBusVoltageV), Quotient(data.uDq.d, data.dcBusVoltageV);
    hide Measured, Quotient;
    ran := s.blockRanS + config.dtS;
    high, low := s.high, s.low;
    if s.block % 2 == 0 {
      OneMoreMeasured(s.high, x, y, bench.Level(0, config), (s.block + 1) / 2, s.blockRanS, config);
      high := s.high.Accumulate(x, y);
    } else {
      OneMoreMeasured(s.low, x, y, bench.Level(1, config), s.block / 2, s.blockRanS, config);
      low := s.low.Accumulate(x, y);
    }
  }

  lemma ResistanceSample(e: Estimator, data: FocResult, config: OfflineEstimatorConfig, math: FocMath, bench: Bench)
    requires e.state.EstR? && Finds(e, config, bench) && bench.Suits(config) && OnTarget(e, data, config, bench)
    ensures Finds(e.AfterFocIteration(data, config, math), config, bench)
  {
    var s := e.state;
    SampleIdentifies(e, data, config, math, bench.resistance, bench.deadtime);
    StepKeepsLine(s, data, config, bench.resistance, bench.deadtime);
    if !s.targetReached {
      TargetIsReached(data.measuredIDq.d);
      hide Measured, ReachesTarget, Quotient, Mul, Identifies, Mean.Accumulate, SolveR, Obeys, LevelsOnLine;
    } else {
      var high, low, ran := MeasuringSample(s, data, config, bench);
      if ran >= config.testTimeS / 4.0 {
        if s.block % 2 == 0 {
          BlockEnds(high, bench.Level(0, config), (s.block + 1) / 2, ran, config);
        } else {
          BlockEnds(low, bench.Level(1, config), s.block / 2, ran, config);
        }
        if s.block == 3 {
          LastBlock(s, data, config, bench, high, low);
        }
      }
      hide Measured, ReachesTarget, Quotient, Mul, Identifies, Mean.Accumulate, SolveR, Obeys, LevelsOnLine, Bench.Level;
    }
  }

  lemma LastBlock(
    s: State, data: FocResult, config: OfflineEstimatorConfig, bench: Bench, high: Mean, low: Mean)
    requires s.EstR? && bench.Suits(config) && LevelsOnLine(s, bench.resistance, bench.deadtime)
    requires Obeys(data, bench.resistance, bench.deadtime) && s.block == 3
    requires high == s.high && low == s.low.Accumulate(Quotient(data.measuredIDq.d, data.dcBusVoltageV), Quotient(data.uDq.d, data.dcBusVoltageV))
    requires Measured(high, bench.Level(0, config), 2, 0.0, config) && Measured(low, bench.Level(1, config), 2, 0.0, config)
    ensures SolveR(high, low) == EstimateR(bench.resistance, bench.deadtime, HallCalibrationRequired(bench.resistance))
  {
    NormalisedSample(data, bench.resistance, bench.deadtime);
    AccumulateOnLine(s.low, Quotient(data.measuredIDq.d, data.dcBusVoltageV), Quotient(data.uDq.d, data.dcBusVoltageV),
                     bench.resistance, 4.0 / 3.0 * bench.deadtime);
    hide Mean.OnLine, Measured, Quotient, Mul, SolveR, Mean.Accumulate, Bench.Level;
    SolveRFinds(high, low, config, bench);
  }

  lemma StartMeasured(level: real, config: OfflineEstimatorConfig)
    ensures Measured(NO_SAMPLES, level, 0, 0.0, config)
  {
    MulZero(level);
    MulZero(config.dtS);
    hide Mul;
  }

  lemma OtherSample(e: Estimator, data: FocResult, config: OfflineEstimatorConfig, math: FocMath, bench: Bench)
    requires !e.state.EstR? && Finds(e, config, bench) && OnTarget(e, data, config, bench)
    ensures Finds(e.AfterFocIteration(data, config, math), config, bench)
  {
    SampleIdentifies(e, data, config, math, bench.resistance, bench.deadtime);
    StartMeasured(bench.Level(0, config), config);
    StartMeasured(bench.Level(1, config), config);
    hide Measured, Bench.Level, Obeys, Mean.OnLine;
  }

  lemma {:induction false} RunFinds(
    e: Estimator, samples: seq<FocResult>, config: OfflineEstimatorConfig, math: FocMath, bench: Bench)
    requires Finds(e, config, bench) && bench.Suits(config)
    requires forall k :: 0 <= k < |samples| ==> OnTarget(e.Run(samples[..k], config, math), samples[k], config, bench)
    ensures Finds(e.Run(samples, config, math), config, bench)
  {
    hide Finds, OnTarget, Estimator.AfterFocIteration, Bench.Suits;
    if samples != [] {
      var n := |samples| - 1;
      forall k | 0 <= k < n
        ensures OnTarget(e.Run(samples[..n][..k], config, math), samples[..n][k], config, bench)
      {
        assert samples[..n][..k] == samples[..k];
      }
      RunFinds(e, samples[..n], config, math, bench);
      var now := e.Run(samples[..n], config, math);
      if now.state.EstR? {
        ResistanceSample(now, samples[n], config, math, bench);
      } else {
        OtherSample(now, samples[n], config, math, bench);
      }
    }
  }

  /** From the start, a locked motor on a steady bus, its current at the commanded levels, gets its resistance and its
      dead-time ratio measured exactly within the configured times. */
  lemma ResistanceIsFound(
    e: Estimator, numPolePairs: u8, samples: seq<FocResult>, config: OfflineEstimatorConfig, math: FocMath, bench: Bench)
    requires bench.Suits(config)
    requires |samples| >= TicksLeft(e.Start(numPolePairs).state, config)
    requires forall k :: 0 <= k < |samples| ==>
               OnTarget(e.Start(numPolePairs).Run(samples[..k], config, math), samples[k], config, bench)
    ensures var last := e.Start(numPolePairs).Run(samples, config, math);
            && last.state == HallCalibrationRequired(bench.resistance)
            && last.params.statorResistance == Some(bench.resistance) && last.params.deadtimeRatio == Some(bench.deadtime)
  {
    RunFinds(e.Start(numPolePairs), samples, config, math, bench);
    WaitIsBounded(e.Start(numPolePairs), samples, config, math);
    hide Estimator.Run, OnTarget, TicksLeft, Measured, Mean.OnLine;
  }

  // ---- The flux is found ----

  /** The rotation reaches a speed other than zero and measures at least a thousand samples. */
  predicate Rotates(config: OfflineEstimatorConfig) {
    && config.dtS > 0.0 && config.maxSpinTimeS > config.dtS && config.spinOmega != 0.0
    && config.testTimeS >= 1001.0 * config.dtS
  }

  predicate Turned(e: Estimator, config: OfflineEstimatorConfig, motor: Magnets) {
    && Spins(e, config, motor) && !e.state.Failure?
    && (e.state.EstF? ==>
          var s := e.state;
          && s.fRanS >= 0.0
          && (s.fRanS >= config.maxSpinTimeS ==>
                s.omega != 0.0
                && Mul(config.dtS, s.voltage.numData as real) >= s.fRanS - config.maxSpinTimeS - config.dtS))
    && (e.state.RampDown? ==> e.state.pendingFault.None?)
  }

  lemma RotationSample(e: Estimator, data: FocResult, config: OfflineEstimatorConfig, math: FocMath, motor: Magnets)
    requires e.state.EstF? && Turned(e, config, motor) && SampleTurns(e, data, config, motor) && Rotates(config)
    ensures Turned(e.AfterFocIteration(data, config, math), config, motor)
  {
    var s := e.state;
    RotationSpins(e, data, config, math, motor);
    if s.fRanS < config.maxSpinTimeS {
      if s.fRanS + config.dtS >= config.maxSpinTimeS {
        SpeedNotZero(config.spinOmega, s.fRanS, config.maxSpinTimeS);
      }
      MulZero(config.dtS);
    } else {
      MulLinear(config.dtS, s.voltage.numData as real, 1.0);
      MulOne(config.dtS);
      EnoughSamples(config.dtS, s.voltage.numData + 1);
    }
    hide Mul, Quotient, SumsTurn, Turns, FluxSolverOf, PmFluxSolver.Measures, Spins;
  }

  lemma SpeedNotZero(spinOmega: real, ran: real, spinTime: real)
    requires spinOmega != 0.0 && ran > 0.0 && spinTime > 0.0
    ensures Quotient(Mul(spinOmega, ran), spinTime) != 0.0
  {
    MulSign(spinOmega, ran);
    MulSign(-spinOmega, ran);
    MulLinear(ran, spinOmega, 0.0);
    MulComm(ran, spinOmega);
    MulComm(ran, -spinOmega);
    DivMul(Mul(spinOmega, ran), spinTime);
    MulZero(spinTime);
    hide Mul;
  }

  lemma EnoughSamples(dtS: real, n: nat)
    requires dtS > 0.0
    ensures Mul(dtS, n as real) >= 1000.0 * dtS ==> n >= 1000
  {
    MulLinear(dtS, 1000.0, n as real);
    MulSign(dtS, 1000.0 - n as real);
    assert Mul(dtS, 1000.0) == 1000.0 * dtS;
    hide Mul;
  }

  lemma RampSample(e: Estimator, data: FocResult, config: OfflineEstimatorConfig, math: FocMath, motor: Magnets)
    requires !e.state.EstF? && Turned(e, config, motor) && math.Exact() && motor.Valid() && motor.dInductance == motor.qInductance
    ensures Turned(e.AfterFocIteration(data, config, math), config, motor)
  {
    RampSpins(e, data, config, math, motor);
    if e.state.RampDown? {
      EqualInductancesSolveAtOnce(e.state.solver.value, motor.flux, motor.c, motor.s, math);
    }
    hide Mul, Square, CurrentFlux, Linkage, FocMath.Exact, PmFluxSolver.Iterate, Spins;
  }

  lemma {:induction false} RunTurned(
    e: Estimator, samples: seq<FocResult>, config: OfflineEstimatorConfig, math: FocMath, motor: Magnets)
    requires math.Exact() && motor.Valid() && motor.dInductance == motor.qInductance && Rotates(config) && Turned(e, config, motor)
    requires forall k :: 0 <= k < |samples| ==> SampleTurns(e.Run(samples[..k], config, math), samples[k], config, motor)
    ensures Turned(e.Run(samples, config, math), config, motor)
  {
    hide Turned, SampleTurns, Estimator.AfterFocIteration, FocMath.Exact, Rotates;
    if samples != [] {
      var n := |samples| - 1;
      forall k | 0 <= k < n
        ensures SampleTurns(e.Run(samples[..n][..k], config, math), samples[..n][k], config, motor)
      {
        assert samples[..n][..k] == samples[..k];
      }
      RunTurned(e, samples[..n], config, math, motor);
      var now := e.Run(samples[..n], config, math);
      if now.state.EstF? {
        RotationSample(now, samples[n], config, math, motor);
      } else {
        RampSample(now, samples[n], config, math, motor);
      }
    }
  }

  /** From the acknowledgement of the tuning, a motor with equal inductances that turns as commanded gets its flux measured
      exactly within the configured times, and the estimation is done. */
  lemma FluxIsFound(
    e: Estimator, samples: seq<FocResult>, config: OfflineEstimatorConfig, math: FocMath, motor: Magnets)
    requires math.Exact() && motor.Valid() && motor.dInductance == motor.qInductance && Rotates(config)
    requires e.state.TuningRequired? && e.params.numPolePairs.Some?
    requires e.params.dInductance == Some(motor.dInductance) && e.params.qInductance == Some(motor.qInductance)
    requires |samples| >= TicksLeft(e.AcknowledgeTuning().state, config)
    requires forall k :: 0 <= k < |samples| ==>
               SampleTurns(e.AcknowledgeTuning().Run(samples[..k], config, math), samples[k], config, motor)
    ensures var last := e.AcknowledgeTuning().Run(samples, config, math);
            last.state.Done? && last.params.pmFluxLinkage == Some(motor.flux)
  {
    EmptySumsTurn(0.0, motor);
    hide Estimator.Run, SumsTurn, FocMath.Exact, SampleTurns, TicksLeft;
    RunTurned(e.AcknowledgeTuning(), samples, config, math, motor);
    WaitIsBounded(e.AcknowledgeTuning(), samples, config, math);
  }

  // ---- The rotation and the square wave ----

  /** The rotation speeds up in proportion to the time, from standstill to the configured speed, then keeps its speed. The
      angle advances by the speed times the period. */
  lemma RotationSpeedsUp(s: State, data: FocResult, config: OfflineEstimatorConfig)
    requires s.EstF? && StepEstF(s, data, config).Stay? && config.maxSpinTimeS > 0.0
    ensures var next := StepEstF(s, data, config).state;
            && next.EstF? && next.fRanS == s.fRanS + config.dtS
            && (s.fRanS < config.maxSpinTimeS ==>
                  Mul(config.maxSpinTimeS, next.omega) == Mul(config.spinOmega, s.fRanS)
                  && next.voltage == s.voltage && next.current == s.current)
            && (s.fRanS >= config.maxSpinTimeS ==> next.omega == s.omega && next.voltage.numData == s.voltage.numData + 1)
            && next.theta == Angles.WrapTo2Pi(s.theta + Mul(next.omega, config.dtS))
  {
    DivMul(Mul(config.spinOmega, s.fRanS), config.maxSpinTimeS);
    hide Mul;
  }

  /** The ramp-down keeps turning at the speed of the rotation, until its time is out. */
  lemma RampTurnsOn(s: State, config: OfflineEstimatorConfig, math: FocMath)
    requires s.RampDown?
    ensures var result := StepRampDown(s, config, math);
            && (result.Stay? <==> s.rampRanS + config.dtS < s.rampDurationS)
            && (result.Stay? ==> result.state.RampDown? && result.state.rampOmega == s.rampOmega
                                 && result.state.rampTheta == Angles.WrapTo2Pi(s.rampTheta + Mul(s.rampOmega, config.dtS)))
            && (!result.Stay? && s.pendingFault.Some? ==> result == StepFailed(s.pendingFault.value))
  {
    hide Mul, PmFluxSolver.Iterate;
  }

  /** A level of the resistance test is measured once the current is within 5% of its target, and the test fails when that
      takes the whole test time. */
  lemma LevelIsReached(s: State, data: FocResult, config: OfflineEstimatorConfig)
    requires s.EstR? && !s.targetReached && config.calibrationCurrentA > 0.0
    ensures var i, result := data.measuredIDq.d, StepEstR(s, data, config);
            var target := if s.block % 2 == 0 then config.calibrationCurrentA else 0.5 * config.calibrationCurrentA;
            var near := 0.95 * target <= i <= 1.05 * target;
            && (near ==> result == Stay(s.(blockRanS := 0.0, targetReached := true)))
            && (!near && s.blockRanS + config.dtS >= config.testTimeS ==> result == StepFailed(TargetCurrentUnreachable))
            && (!near && s.blockRanS + config.dtS < config.testTimeS ==> result == Stay(s.(blockRanS := s.blockRanS + config.dtS)))
  {
    var target := if s.block % 2 == 0 then config.calibrationCurrentA else 0.5 * config.calibrationCurrentA;
    var error := Abs(data.measuredIDq.d - target);
    DivMul(error, target);
    MulLinear(target, error / target, 0.05);
    MulSign(target, error / target - 0.05);
    assert Mul(target, 0.05) == 0.05 * target;
    hide Mul;
  }

  /** When the square wave turns round, and when it ends with an inductance. It turns when the current, one and a half of
      the last steps ahead, reaches the calibration current, and ends the test there, after the test time and whole
      periods, with enough data of a positive slope. */
  lemma SquareWaveTurns(s: State, data: FocResult, config: OfflineEstimatorConfig)
    requires s.EstL? && config.dtS != 0.0
    ensures var result, i := StepEstL(s, data, config), s.axis.Of(data.measuredIDq);
            var ahead, ran := Mul(s.sign, i + 1.5 * (i - s.prevI)), s.lRanS + config.dtS;
            var lse := AccumulatedL(s, data, Quotient(i - s.prevI, config.dtS));
            var drivable, late := config.calibrationVoltageV >= 1.5 * Mul(s.lResistance, config.calibrationCurrentA),
                                  ran >= 2.0 * config.testTimeS;
            var turns := ahead >= config.calibrationCurrentA;
            var periods := ran >= config.testTimeS && s.signFlips >= 2 && s.signFlips % 2 == 0;
            && (result == StepFailed(TargetCurrentUnreachable) <==> !drivable)
            && (drivable && late ==> result == StepFailed(InsufficientSamples))
            && (drivable && !late && !(turns && periods) ==>
                  result.Stay? && result.state.EstL? && result.state.lse == lse
                  && result.state.sign == (if turns then -s.sign else s.sign)
                  && result.state.signFlips == (if turns then s.signFlips + 1 else s.signFlips)
                  && result.state.prevI == i && result.state.early == s.late && result.state.late == Some(s.sign))
            && (result.EstimateL? <==> drivable && !late && turns && periods && lse.numData >= 1000
                                       && lse.xxSum > 0.000000000001 && lse.xySum > 0.0)
            && (result.EstimateL? ==> result.axis == s.axis && Mul(result.inductance, lse.xySum) == lse.xxSum)
  {
    var i := s.axis.Of(data.measuredIDq);
    DivMul(i - s.prevI, config.dtS);
    MulComm(Quotient(i - s.prevI, config.dtS), config.dtS);
    var lse := AccumulatedL(s, data, Quotient(i - s.prevI, config.dtS));
    if lse.xxSum > 0.0 {
      ReciprocalSign(lse.xySum, lse.xxSum);
    }
    hide Mul, Quotient, AccumulatedL, Abs, StartEstL;
  }

  lemma ReciprocalSign(n: real, d: real)
    requires d > 0.0
    ensures Quotient(1.0, n / d) > 0.0 <==> n > 0.0
    ensures n > 0.0 ==> Mul(Quotient(1.0, n / d), n) == d
  {
    if n > 0.0 {
      QuotientSign(n, d);
      QuotientSign(1.0, n / d);
      DivMul(1.0, n / d);
      DivMul(n, d);
      MulComm(n / d, Quotient(1.0, n / d));
      MulAssoc(Quotient(1.0, n / d), n / d, d);
      MulComm(d, n / d);
      MulOne(d);
      hide Mul;
    } else if n < 0.0 {
      QuotientSign(-n, d);
      assert n / d == -(-n / d);
      QuotientSign(1.0, -(n / d));
      assert 1.0 / (n / d) == -(1.0 / -(n / d));
    }
  }
}
