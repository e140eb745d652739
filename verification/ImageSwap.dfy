/** The page-by-page image exchange of firmware-core/src/boot.rs, on values.

    `N` firmware pages are exchanged with the first `N` of `N + 1` DFU pages. The spare page lets every
    image page be saved before it is overwritten, so a step can be repeated after a reset.

    Fault model: `power` is the number of flash operations (page erase, page write, 8-byte word write)
    that complete before a reset. A reset between a page's erase and the end of its write leaves an
    arbitrary page, `torn`. Page erases and word writes are atomic. */
module ImageSwap {
  import opened Bytes
  import opened Wrappers

  type Page = seq<byte>
  type Word = s: seq<byte> | |s| == 8 witness Erased(8)

  const STEP_MARK: Word := [0x55, 0x55, 0x55, 0x55, 0x55, 0x55, 0x55, 0x55]

  datatype SwapMode = Normal | Revert

  /** The flash regions the bootloader works on. `word0` and `word1` hold the status record, `log` the
      rest of the status page in 8-byte words. */
  datatype Device = Device(fw: seq<Page>, dfu: seq<Page>, word0: Word, word1: Word, log: seq<Word>)
  {
    predicate Valid() {
      |fw| >= 1 && |dfu| == |fw| + 1
    }

    function Pages(): nat {
      |fw|
    }
  }

  /** Either the board is still running with `power` operations left, or it has reset. */
  datatype Progress = Alive(dev: Device, power: nat) | Reset(dev: Device)

  // ---- Which page each step moves ----

  /** Index `x` of the DFU ring of `n` pages, for an `x` that goes round at most once. */
  function Ring(n: nat, x: nat): (r: nat)
    requires n > 0 && x < 2 * n
    ensures r < n
  {
    if x < n then x else x - n
  }

  /** The DFU page that receives firmware page `i`. */
  function ScratchSlot(n: nat, mode: SwapMode, i: nat): (slot: nat)
    requires i < n
    ensures slot <= n
  {
    match mode
    case Normal => Ring(n + 1, n + i)
    case Revert => Ring(n + 1, n - 1 + i)
  }

  /** The DFU page that firmware page `i` is loaded from. */
  function SourceSlot(n: nat, mode: SwapMode, i: nat): (slot: nat)
    requires i < n
    ensures slot <= n
  {
    match mode
    case Normal => i
    case Revert => Ring(n + 1, n + i)
  }

  /** The page step `k` copies: even steps save a firmware page, odd steps load a DFU page. */
  function StepSource(d: Device, mode: SwapMode, k: nat): Page
    requires d.Valid() && k < 2 * d.Pages()
  {
    if k % 2 == 0 then d.fw[k / 2] else d.dfu[SourceSlot(d.Pages(), mode, k / 2)]
  }

  /** `page` lands in the destination of step `k`. */
  function StepPut(d: Device, mode: SwapMode, k: nat, page: Page): (d': Device)
    requires d.Valid() && k < 2 * d.Pages()
    ensures d'.Valid() && d'.Pages() == d.Pages()
  {
    if k % 2 == 0 then d.(dfu := d.dfu[ScratchSlot(d.Pages(), mode, k / 2) := page])
    else d.(fw := d.fw[k / 2 := page])
  }

  /** A word past the end of the status page lands in another page, outside the device. */
  function MarkStep(d: Device, k: nat): Device {
    if k < |d.log| then d.(log := d.log[k := STEP_MARK]) else d
  }

  /** The copy of step `k`, as far as `power` operations take it. */
  function StepCopied(d: Device, mode: SwapMode, k: nat, power: nat, torn: Page): (d': Device)
    requires d.Valid() && k < 2 * d.Pages()
    ensures d'.Valid() && d'.Pages() == d.Pages()
  {
    if power == 0 then d
    else StepPut(d, mode, k, if power == 1 then torn else StepSource(d, mode, k))
  }

  /** One step: erase, write, log. */
  function RunStep(d: Device, mode: SwapMode, k: nat, power: nat, torn: Page): (p: Progress)
    requires d.Valid() && k < 2 * d.Pages()
    ensures p.dev.Valid() && p.dev.Pages() == d.Pages()
  {
    var copied := StepCopied(d, mode, k, power, torn);
    if power < 3 then Reset(copied) else Alive(MarkStep(copied, k), power - 3)
  }

  /** Steps `k`, `k + 1`, ... to the last one. */
  function RunSteps(d: Device, mode: SwapMode, k: nat, power: nat, torn: Page): (p: Progress)
    requires d.Valid()
    ensures p.dev.Valid() && p.dev.Pages() == d.Pages()
    decreases 2 * d.Pages() - k
  {
    if k >= 2 * d.Pages() then Alive(d, power)
    else
      match RunStep(d, mode, k, power, torn)
      case Reset(d') => Reset(d')
      case Alive(d', left) => RunSteps(d', mode, k + 1, left, torn)
  }

  /** The first erased log word at or after `from`, none when there is none. */
  function StartStepFrom(log: seq<Word>, from: nat): (r: Option<nat>)
    requires from <= |log|
    ensures r.Some? ==> from <= r.value < |log| && AllErased(log[r.value])
    ensures forall i :: from <= i < (if r.Some? then r.value else |log|) ==> !AllErased(log[i])
    decreases |log| - from
  {
    if from == |log| then None
    else if AllErased(log[from]) then Some(from)
    else StartStepFrom(log, from + 1)
  }

  function StartStep(log: seq<Word>): Option<nat> {
    StartStepFrom(log, 0)
  }

  function SwapImages(d: Device, mode: SwapMode, power: nat, torn: Page): (p: Progress)
    requires d.Valid()
    ensures p.dev.Valid() && p.dev.Pages() == d.Pages()
  {
    match StartStep(d.log)
    case None => Alive(d, power)
    case Some(k) => RunSteps(d, mode, k, power, torn)
  }

  // ---- The invariant of an exchange ----

  /** After `k` logged steps of an exchange of `outgoing` (at first in the firmware region) for `incoming`:
      every page that is still needed is where the next steps look for it. Nothing is said of the
      destination of step `k`, which a reset may have torn. */
  ghost predicate Exchange(d: Device, mode: SwapMode, k: nat, outgoing: seq<Page>, incoming: seq<Page>)
  {
    && d.Valid() && |outgoing| == |incoming| == d.Pages()
    && k <= 2 * d.Pages()
    && (forall i :: 0 <= i < k / 2 ==> d.fw[i] == incoming[i])
    && (forall i :: (k + 1) / 2 <= i < d.Pages() ==> d.fw[i] == outgoing[i])
    && (forall i :: k / 2 <= i < d.Pages() ==> d.dfu[SourceSlot(d.Pages(), mode, i)] == incoming[i])
    && (forall i :: 0 <= i < (k + 1) / 2 ==> d.dfu[ScratchSlot(d.Pages(), mode, i)] == outgoing[i])
  }

  /** The log records exactly `k` steps. */
  ghost predicate Logged(log: seq<Word>, k: nat) {
    && k <= |log|
    && (forall i :: 0 <= i < k ==> log[i] == STEP_MARK)
    && (forall i :: k <= i < |log| ==> AllErased(log[i]))
  }

  lemma LoggedStart(log: seq<Word>, k: nat)
    requires Logged(log, k)
    ensures StartStep(log) == if k < |log| then Some(k) else None
  {
    assert !AllErased(STEP_MARK) by {
      assert STEP_MARK[0] == 0x55;
    }
    if k < |log| {
      assert AllErased(log[k]);
    }
  }

  lemma LoggedOnce(log: seq<Word>, j: nat, k: nat)
    requires Logged(log, j) && Logged(log, k)
    ensures j == k
  {
    LoggedStart(log, j);
    LoggedStart(log, k);
  }

  /** The page saved by step `2 * i` goes to a DFU page that holds neither an incoming page still to be
      loaded nor an outgoing page already saved. */
  lemma ScratchIsFree(n: nat, mode: SwapMode, i: nat, j: nat)
    requires i < n && j < n
    ensures i <= j ==> SourceSlot(n, mode, j) != ScratchSlot(n, mode, i)
    ensures i != j ==> ScratchSlot(n, mode, j) != ScratchSlot(n, mode, i)
  {
  }

  /** Writing anything into the destination of step `k` loses nothing that is still needed. */
  lemma StepLosesNothing(d: Device, mode: SwapMode, k: nat, page: Page, outgoing: seq<Page>, incoming: seq<Page>)
    requires Exchange(d, mode, k, outgoing, incoming) && k < 2 * d.Pages()
    ensures Exchange(StepPut(d, mode, k, page), mode, k, outgoing, incoming)
  {
    var n := d.Pages();
    if k % 2 == 0 {
      forall i | 0 <= i < n
        ensures k / 2 <= i ==> SourceSlot(n, mode, i) != ScratchSlot(n, mode, k / 2)
        ensures i < k / 2 ==> ScratchSlot(n, mode, i) != ScratchSlot(n, mode, k / 2)
      {
        ScratchIsFree(n, mode, k / 2, i);
      }
    }
  }

  /** Writing the source page of step `k` there completes the step. */
  lemma StepCompletes(d: Device, mode: SwapMode, k: nat, outgoing: seq<Page>, incoming: seq<Page>)
    requires Exchange(d, mode, k, outgoing, incoming) && k < 2 * d.Pages()
    ensures Exchange(StepPut(d, mode, k, StepSource(d, mode, k)), mode, k + 1, outgoing, incoming)
  {
    var page := StepSource(d, mode, k);
    StepLosesNothing(d, mode, k, page, outgoing, incoming);
    assert page == if k % 2 == 0 then outgoing[k / 2] else incoming[k / 2];
  }

  /** A step with the power to finish moves the exchange and the log on by one. */
  lemma StepAdvances(d: Device, mode: SwapMode, k: nat, power: nat, torn: Page, outgoing: seq<Page>, incoming: seq<Page>)
    requires Exchange(d, mode, k, outgoing, incoming) && Logged(d.log, k)
    requires k < 2 * d.Pages() && k < |d.log| && power >= 3
    ensures var p := RunStep(d, mode, k, power, torn);
            && p.Alive? && p.power == power - 3
            && Exchange(p.dev, mode, k + 1, outgoing, incoming) && Logged(p.dev.log, k + 1)
            && p.dev.word0 == d.word0 && p.dev.word1 == d.word1 && |p.dev.log| == |d.log|
  {
    StepCompletes(d, mode, k, outgoing, incoming);
    var copied := StepPut(d, mode, k, StepSource(d, mode, k));
    assert MarkStep(copied, k).fw == copied.fw && MarkStep(copied, k).dfu == copied.dfu;
  }

  /** A step cut short keeps both. */
  lemma StepCutShort(d: Device, mode: SwapMode, k: nat, power: nat, torn: Page, outgoing: seq<Page>, incoming: seq<Page>)
    requires Exchange(d, mode, k, outgoing, incoming) && Logged(d.log, k)
    requires k < 2 * d.Pages() && power < 3
    ensures var p := RunStep(d, mode, k, power, torn);
            && p.Reset? && Exchange(p.dev, mode, k, outgoing, incoming) && Logged(p.dev.log, k)
            && p.dev.word0 == d.word0 && p.dev.word1 == d.word1 && |p.dev.log| == |d.log|
  {
    StepLosesNothing(d, mode, k, torn, outgoing, incoming);
    StepLosesNothing(d, mode, k, StepSource(d, mode, k), outgoing, incoming);
  }

  lemma RunStepsUnfold(d: Device, mode: SwapMode, k: nat, power: nat, torn: Page)
    requires d.Valid()
    ensures RunSteps(d, mode, k, power, torn) ==
            if k >= 2 * d.Pages() then Alive(d, power)
            else
              var p := RunStep(d, mode, k, power, torn);
              if p.Alive? then RunSteps(p.dev, mode, k + 1, p.power, torn) else p
  {
  }

  /** However many operations complete, and whatever the torn page holds: the log records a prefix of the
      steps, `done` of them, and the exchange invariant holds for exactly that prefix. */
  lemma {:induction false} StepsKeepExchange(
    d: Device, mode: SwapMode, k: nat, power: nat, torn: Page, outgoing: seq<Page>, incoming: seq<Page>)
    returns (p: Progress, done: nat)
    requires Exchange(d, mode, k, outgoing, incoming) && Logged(d.log, k) && 2 * d.Pages() <= |d.log|
    requires d.Valid() && k <= 2 * d.Pages()
    ensures p == RunSteps(d, mode, k, power, torn)
    ensures p.dev.word0 == d.word0 && p.dev.word1 == d.word1 && |p.dev.log| == |d.log| && p.dev.Pages() == d.Pages()
    ensures Logged(p.dev.log, done)
    ensures Exchange(p.dev, mode, done, outgoing, incoming)
    ensures k <= done && (p.Alive? ==> done == 2 * d.Pages())
    decreases 2 * d.Pages() - k
  {
    hide Exchange, Logged;
    if k >= 2 * d.Pages() {
      p, done := Alive(d, power), k;
    } else {
      RunStepsUnfold(d, mode, k, power, torn);
      p, done := RunStep(d, mode, k, power, torn), k;
      if power >= 3 {
        StepAdvances(d, mode, k, power, torn, outgoing, incoming);
        p, done := StepsKeepExchange(p.dev, mode, k + 1, p.power, torn, outgoing, incoming);
      } else {
        StepCutShort(d, mode, k, power, torn, outgoing, incoming);
      }
    }
  }

  /** Three operations a step are enough to finish. */
  lemma {:induction false} StepsFinish(d: Device, mode: SwapMode, k: nat, power: nat, torn: Page)
    requires d.Valid() && k <= 2 * d.Pages() && power >= 3 * (2 * d.Pages() - k)
    ensures var p := RunSteps(d, mode, k, power, torn);
            p.Alive? && p.power == power - 3 * (2 * d.Pages() - k)
    decreases 2 * d.Pages() - k
  {
    hide StepCopied, MarkStep;
    if k < 2 * d.Pages() {
      var p := RunStep(d, mode, k, power, torn);
      StepsFinish(p.dev, mode, k + 1, p.power, torn);
    }
  }

  /** Every log word is programmed at most once between erases: the word of each step still to run is erased. */
  lemma StepsProgramErasedWords(d: Device, k: nat, j: nat)
    requires Logged(d.log, k) && k <= j < |d.log|
    ensures AllErased(d.log[j]) && (j == k ==> Logged(MarkStep(d, j).log, k + 1))
  {
  }

  /** A swap in progress with `outgoing` leaving the firmware region. */
  ghost predicate InProgress(d: Device, mode: SwapMode, outgoing: seq<Page>, incoming: seq<Page>) {
    exists k :: Logged(d.log, k) && Exchange(d, mode, k, outgoing, incoming)
  }

  lemma SwapKeepsExchange(d: Device, mode: SwapMode, power: nat, torn: Page, outgoing: seq<Page>, incoming: seq<Page>)
    requires InProgress(d, mode, outgoing, incoming) && 2 * d.Pages() <= |d.log|
    ensures var p := SwapImages(d, mode, power, torn);
            && p.dev.word0 == d.word0 && p.dev.word1 == d.word1 && |p.dev.log| == |d.log|
            && InProgress(p.dev, mode, outgoing, incoming)
            && (p.Alive? ==> Exchange(p.dev, mode, 2 * d.Pages(), outgoing, incoming))
  {
    var k :| Logged(d.log, k) && Exchange(d, mode, k, outgoing, incoming);
    LoggedStart(d.log, k);
    var p, done := StepsKeepExchange(d, mode, k, power, torn, outgoing, incoming);
  }

  /** A finished exchange holds the incoming image, whole, in the firmware region. */
  lemma FinishedExchange(d: Device, mode: SwapMode, outgoing: seq<Page>, incoming: seq<Page>)
    requires Exchange(d, mode, 2 * d.Pages(), outgoing, incoming)
    ensures d.fw == incoming
  {
  }

  /** A finished normal swap, its log erased, is the start of a revert: the pages a normal swap saves into
      are the pages a revert loads from. */
  lemma NormalEndsWhereRevertStarts(d: Device, outgoing: seq<Page>, incoming: seq<Page>)
    requires Exchange(d, Normal, 2 * d.Pages(), outgoing, incoming)
    ensures Exchange(d, Revert, 0, incoming, outgoing)
  {
    forall i | 0 <= i < d.Pages()
      ensures d.dfu[SourceSlot(d.Pages(), Revert, i)] == outgoing[i]
    {
      assert SourceSlot(d.Pages(), Revert, i) == ScratchSlot(d.Pages(), Normal, i);
    }
  }
}
