/** The injected high-frequency voltage: field-oriented/src/control/hfi.rs. */
module HfiSources {
  import opened FocTypes
  import opened Modulation
  import opened Multiples
  import opened Reals
  import opened Transforms

  const ZERO_PHASE := SinCos(0.0, 1.0)
  const U32_MAX := 0xFFFF_FFFF

  /** The period of the injection in control ticks: rounded, saturated to 32 bits, at least 1. */
  function PeriodTicks(samplingTimeS: real, frequencyHz: real): (n: nat)
    ensures 1 <= n <= U32_MAX
  {
    var period := frequencyHz * samplingTimeS;
    var ticks := if period > 0.0 then (1.0 / period + 0.5).Floor else 0;
    if ticks > U32_MAX then U32_MAX else if ticks < 1 then 1 else ticks
  }

  /** The period is the whole number of ticks nearest to that of the frequency, as far as 32 bits and one tick let it. */
  lemma PeriodIsNearest(samplingTimeS: real, frequencyHz: real)
    requires samplingTimeS > 0.0 && frequencyHz > 0.0
    ensures var n, ticks := PeriodTicks(samplingTimeS, frequencyHz), 1.0 / (frequencyHz * samplingTimeS);
            && (0.5 <= ticks < U32_MAX as real ==> ticks - 0.5 <= n as real <= ticks + 0.5)
            && (ticks < 0.5 ==> n == 1) && (ticks >= U32_MAX as real ==> n == U32_MAX)
  {
    assert frequencyHz * samplingTimeS > 0.0 by {
      MulSign(frequencyHz, samplingTimeS);
    }
    assert 1.0 / (frequencyHz * samplingTimeS) > 0.0;
  }

  function Rotate(p: SinCos, step: SinCos): SinCos {
    SinCos(Mul(p.sin, step.cos) + Mul(p.cos, step.sin), Mul(p.cos, step.cos) - Mul(p.sin, step.sin))
  }

  /** The zero phase turned `n` times. */
  function Turned(step: SinCos, n: nat): SinCos {
    if n == 0 then ZERO_PHASE else Rotate(Turned(step, n - 1), step)
  }

  lemma RotateScales(p: SinCos, step: SinCos)
    ensures Square(Rotate(p, step).cos) + Square(Rotate(p, step).sin)
         == Mul(Square(p.cos) + Square(p.sin), Square(step.cos) + Square(step.sin))
  {
    SquaresOfTurn(p.cos, p.sin, step.cos, step.sin);
    hide Square, Mul;
  }

  /** The phasor never leaves the unit circle. */
  lemma {:induction false} TurnedUnit(step: SinCos, n: nat)
    requires step.Unit()
    ensures Turned(step, n).Unit()
  {
    if n > 0 {
      TurnedUnit(step, n - 1);
      RotateScales(Turned(step, n - 1), step);
      MulOne(1.0);
      hide Square, Mul, Rotate;
    }
  }

  /** The counter after `t` ticks from a reset. */
  function CounterAt(t: nat, period: nat): nat {
    if t == 0 then 0
    else
      var c := CounterAt(t - 1, period) + 1;
      if c >= period then 0 else c
  }

  /** The injection has exactly the period. */
  lemma {:induction false} CounterIsModulo(t: nat, period: nat)
    requires period >= 1
    ensures CounterAt(t, period) == t % period
  {
    if t > 0 {
      CounterIsModulo(t - 1, period);
      NextModulo(t - 1, period);
    }
  }

  lemma NextModulo(t: nat, period: nat)
    requires period >= 1
    ensures (t + 1) % period == if t % period + 1 >= period then 0 else t % period + 1
  {
    var q, c := t / period, t % period;
    assert t == q * period + c;
    if c + 1 >= period {
      QuotientIs(t + 1, q + 1, 0, period);
    } else {
      QuotientIs(t + 1, q, c + 1, period);
    }
  }

  lemma UnitBounds(p: SinCos)
    requires p.Unit()
    ensures -1.0 <= p.sin <= 1.0
  {
    SquareSign(p.cos);
    SquareOrder(p.sin, 1.0);
    assert Square(1.0) == 1.0;
    hide Square;
  }

  /** The injected voltage is at most the amplitude, along the direct axis. */
  lemma InjectionBounds(step: SinCos, n: nat, amplitude: real)
    requires step.Unit() && amplitude >= 0.0
    ensures -amplitude <= Mul(amplitude, Turned(step, n).sin) <= amplitude
  {
    TurnedUnit(step, n);
    UnitBounds(Turned(step, n));
    ScaledWithin(amplitude, Turned(step, n).sin);
    hide Turned, Square, Mul;
  }

  lemma ScaledWithin(amplitude: real, s: real)
    requires amplitude >= 0.0 && -1.0 <= s <= 1.0
    ensures -amplitude <= Mul(amplitude, s) <= amplitude
  {
    MulLinear(amplitude, 1.0, s);
    MulNonNegative(amplitude, 1.0 - s);
    MulNonNegative(amplitude, 1.0 + s);
    MulOne(amplitude);
    hide Mul;
  }

  class SinusoidalPulsingHfi {
    const periodTicks: nat
    const step: SinCos
    var tickCounter: nat
    var phasor: SinCos
    const history: array<SinCos>
    /** Ticks since the last reset. */
    ghost var ticks: nat

    /** The phasor that was in use `back` ticks ago. */
    ghost function Past(back: nat): SinCos
      reads this
    {
      if ticks < back then ZERO_PHASE else Turned(step, CounterAt(ticks - back, periodTicks))
    }

    ghost predicate Valid()
      reads this, history
    {
      && periodTicks >= 1 && step.Unit() && history.Length == 2
      && tickCounter == CounterAt(ticks, periodTicks) < periodTicks
      && phasor == Past(0) && history[0] == Past(1) && history[1] == Past(2)
    }

    constructor (samplingTimeS: real, frequencyHz: real, math: FocMath, tau: real)
      requires math.Exact()
      ensures Valid() && fresh(history) && ticks == 0
      ensures periodTicks == PeriodTicks(samplingTimeS, frequencyHz)
      ensures step == math.sinCos(tau / periodTicks as real)
    {
      periodTicks := PeriodTicks(samplingTimeS, frequencyHz);
      step := math.sinCos(tau / PeriodTicks(samplingTimeS, frequencyHz) as real);
      tickCounter, phasor, ticks := 0, ZERO_PHASE, 0;
      history := new SinCos[2](i => ZERO_PHASE);
    }

    method Reset()
      requires Valid()
      modifies this, history
      ensures Valid() && ticks == 0
    {
      tickCounter, phasor, ticks := 0, ZERO_PHASE, 0;
      history[0], history[1] := ZERO_PHASE, ZERO_PHASE;
    }

    /** The sine of the phasor in use is one. */
    lemma PhaseWithin()
      requires Valid()
      ensures -1.0 <= Past(0).sin <= 1.0
    {
      TurnedUnit(step, CounterAt(ticks, periodTicks));
      UnitBounds(Turned(step, CounterAt(ticks, periodTicks)));
      hide Turned;
    }

    /** The voltage of this tick; the phasor turns by one step, and starts over with the period. */
    method Compute(params: HfiParams) returns (injected: ClarkPark)
      requires Valid()
      modifies this, history
      ensures Valid() && ticks == old(ticks) + 1
      ensures injected == ClarkPark(Mul(params.amplitudeV, old(Past(0)).sin), 0.0)
      ensures params.amplitudeV >= 0.0 ==> -params.amplitudeV <= injected.d <= params.amplitudeV
    {
      hide Rotate, Mul;
      injected := ClarkPark(Mul(params.amplitudeV, phasor.sin), 0.0);
      if params.amplitudeV >= 0.0 {
        InjectionBounds(step, tickCounter, params.amplitudeV);
      }
      history[1] := history[0];
      history[0] := phasor;
      tickCounter := tickCounter + 1;
      if tickCounter >= periodTicks {
        tickCounter := 0;
        phasor := ZERO_PHASE;
      } else {
        phasor := Rotate(phasor, step);
      }
      ticks := ticks + 1;
    }

    /** The phasor of the tick before the last one. */
    method PreviousPhasor() returns (p: SinCos)
      requires Valid()
      ensures p == Past(2)
    {
      p := history[1];
    }
  }
}
