/** Debounced conditions: firmware-core/src/checks/debounce.rs. */
module Debounce {
  datatype Debounced = Debounced(state: bool, count: nat)
  {
    /** One sample. The counter has 32 bits; it stays below the period. */
    function Update(raw: bool, periodTicks: nat): Debounced {
      if raw == state then Debounced(state, 0)
      else if count + 1 >= periodTicks then Debounced(raw, 0)
      else Debounced(state, count + 1)
    }

    function Run(raws: seq<bool>, periodTicks: nat): Debounced {
      if raws == [] then this else Run(raws[..|raws| - 1], periodTicks).Update(raws[|raws| - 1], periodTicks)
    }
  }

  function Fresh(initial: bool): Debounced {
    Debounced(initial, 0)
  }

  /** The last `n` samples all have the value `v`. */
  predicate Held(raws: seq<bool>, v: bool, n: nat) {
    n <= |raws| && forall i :: |raws| - n <= i < |raws| ==> raws[i] == v
  }

  /** The counter is the number of trailing samples that contradict the committed state. */
  lemma {:induction false} CounterCounts(initial: bool, raws: seq<bool>, periodTicks: nat)
    requires periodTicks >= 1
    ensures var d := Fresh(initial).Run(raws, periodTicks);
            d.count < periodTicks && Held(raws, !d.state, d.count)
  {
    if raws != [] {
      CounterCounts(initial, raws[..|raws| - 1], periodTicks);
    }
  }

  /** A sample changes the committed value only when it ends a full period of samples with the new value. */
  lemma CommitNeedsPeriod(initial: bool, raws: seq<bool>, raw: bool, periodTicks: nat)
    requires periodTicks >= 1
    requires Fresh(initial).Run(raws + [raw], periodTicks).state != Fresh(initial).Run(raws, periodTicks).state
    ensures Held(raws + [raw], raw, periodTicks) && Fresh(initial).Run(raws + [raw], periodTicks).state == raw
  {
    assert (raws + [raw])[..|raws|] == raws;
    CounterCounts(initial, raws, periodTicks);
  }

  lemma {:induction false} StillCounting(initial: bool, raws: seq<bool>, v: bool, n: nat, periodTicks: nat)
    requires periodTicks >= 1 && Held(raws, v, n)
    ensures var d := Fresh(initial).Run(raws, periodTicks);
            d.state == v || (n < periodTicks && d.count >= n)
  {
    if n > 0 {
      var before := raws[..|raws| - 1];
      CounterCounts(initial, raws, periodTicks);
      StillCounting(initial, before, v, n - 1, periodTicks);
    } else {
      CounterCounts(initial, raws, periodTicks);
    }
  }

  /** A value held for a full period is committed. */
  lemma PeriodCommits(initial: bool, raws: seq<bool>, v: bool, periodTicks: nat)
    requires periodTicks >= 1 && Held(raws, v, periodTicks)
    ensures Fresh(initial).Run(raws, periodTicks).state == v
  {
    StillCounting(initial, raws, v, periodTicks, periodTicks);
  }
}
