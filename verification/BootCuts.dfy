/** What single resets cost: where the trial of an update, the watchdog flag and the length of the step log
    matter. */
module BootCuts {
  import opened Bytes
  import opened BootStatus
  import opened ImageSwap
  import opened BootRuns

  // ---- Where a reset leaves a swap ----

  /** The pages that no step has reached are as they were. */
  ghost predicate Untorn(d: Device, k: nat, outgoing: seq<Page>) {
    |outgoing| == |d.fw| && forall i :: k / 2 <= i < |d.fw| ==> d.fw[i] == outgoing[i]
  }

  /** `m` more steps, and `j` operations of the one after them. */
  lemma {:induction false} StepsCut(
    d: Device, mode: SwapMode, k: nat, m: nat, j: nat, torn: Page, outgoing: seq<Page>, incoming: seq<Page>)
    returns (d': Device)
    requires Exchange(d, mode, k, outgoing, incoming) && Logged(d.log, k) && Untorn(d, k, outgoing)
    requires d.Valid() && k + m < 2 * d.Pages() && k + m <= |d.log| && j < 3
    ensures Exchange(d', mode, k + m, outgoing, incoming) && Logged(d'.log, k + m) && Untorn(d', k + m, outgoing)
    ensures d'.word0 == d.word0 && d'.word1 == d.word1 && |d'.log| == |d.log| && d'.Valid() && d'.Pages() == d.Pages()
    ensures RunSteps(d, mode, k, 3 * m + j, torn) == Reset(StepCopied(d', mode, k + m, j, torn))
    decreases m
  {
    hide Exchange, Logged, StepPut, StepSource, StepCopied, MarkStep, RunSteps, Untorn;
    RunStepsUnfold(d, mode, k, 3 * m + j, torn);
    if m == 0 {
      d' := d;
    } else {
      StepAdvances(d, mode, k, 3 * m + j, torn, outgoing, incoming);
      StepKeepsUntorn(d, mode, k, 3 * m + j, torn, outgoing);
      var p := RunStep(d, mode, k, 3 * m + j, torn);
      d' := StepsCut(p.dev, mode, k + 1, m - 1, j, torn, outgoing, incoming);
    }
  }

  lemma StepKeepsUntorn(d: Device, mode: SwapMode, k: nat, power: nat, torn: Page, outgoing: seq<Page>)
    requires d.Valid() && k < 2 * d.Pages() && power >= 3 && Untorn(d, k, outgoing)
    ensures Untorn(RunStep(d, mode, k, power, torn).dev, k + 1, outgoing)
  {
  }

  /** A swap with a clean log starts at its first step. */
  lemma SwapStarts(d: Device, mode: SwapMode, power: nat, torn: Page)
    requires d.Valid() && Logged(d.log, 0) && |d.log| > 0
    ensures SwapImages(d, mode, power, torn) == RunSteps(d, mode, 0, power, torn)
  {
    LoggedStart(d.log, 0);
    hide RunSteps;
  }

  lemma NothingTornYet(d: Device, mode: SwapMode, outgoing: seq<Page>, incoming: seq<Page>)
    requires Exchange(d, mode, 0, outgoing, incoming)
    ensures Untorn(d, 0, outgoing)
  {
    hide SourceSlot, ScratchSlot;
  }

  /** A swap cut `j` operations into the step after `m`. */
  lemma SwapCut(d: Device, mode: SwapMode, m: nat, j: nat, torn: Page, outgoing: seq<Page>, incoming: seq<Page>) returns (d': Device)
    requires Exchange(d, mode, 0, outgoing, incoming) && Logged(d.log, 0) && d.Valid()
    requires m < 2 * d.Pages() && j < 3 && m <= |d.log| && |d.log| > 0
    ensures Exchange(d', mode, m, outgoing, incoming) && Logged(d'.log, m) && Untorn(d', m, outgoing)
    ensures d'.word0 == d.word0 && d'.word1 == d.word1 && |d'.log| == |d.log| && d'.Valid() && d'.Pages() == d.Pages()
    ensures SwapImages(d, mode, 3 * m + j, torn) == Reset(StepCopied(d', mode, m, j, torn))
  {
    hide Exchange, Logged, Untorn, RunSteps, StepCopied, SwapImages;
    NothingTornYet(d, mode, outgoing, incoming);
    SwapStarts(d, mode, 3 * m + j, torn);
    d' := StepsCut(d, mode, 0, m, j, torn, outgoing, incoming);
  }

  /** Two images that no page of `torn` belongs to, different at both ends. */
  predicate Distinct(outgoing: seq<Page>, incoming: seq<Page>, torn: Page) {
    && |outgoing| == |incoming| >= 1 && torn !in outgoing && torn !in incoming
    && outgoing[0] != incoming[0] && outgoing[|outgoing| - 1] != incoming[|incoming| - 1]
  }

  /** Which cuts leave the firmware region whole: those before the first firmware page is erased, and those after
      the last one is written. */
  lemma CutIsWhole(d: Device, mode: SwapMode, k: nat, j: nat, torn: Page, outgoing: seq<Page>, incoming: seq<Page>)
    requires Exchange(d, mode, k, outgoing, incoming) && Untorn(d, k, outgoing) && Distinct(outgoing, incoming, torn)
    requires k < 2 * d.Pages() && j < 3
    ensures Whole(StepCopied(d, mode, k, j, torn), outgoing, incoming) <==> 3 * k + j <= 3 || 3 * k + j >= 6 * d.Pages() - 1
  {
    hide SourceSlot, ScratchSlot;
    var n, i, fw := d.Pages(), k / 2, StepCopied(d, mode, k, j, torn).fw;
    if k % 2 == 1 && j == 1 {
      assert fw[i] == torn;
    } else if k % 2 == 1 && j == 2 {
      assert fw[0] == incoming[0];
      if i == n - 1 {
        assert fw == incoming;
      } else {
        assert fw[n - 1] == outgoing[n - 1];
      }
    } else if i == 0 {
      assert fw == outgoing;
    } else {
      assert fw[0] == incoming[0] && fw[n - 1] == outgoing[n - 1];
    }
  }

  // ---- The watchdog flag ----

  predicate OnTrial(d: Device, crc: Checksum) {
    ReadStatus(d, crc).Valid? && ReadStatus(d, crc).status.state.SwappedImageTrialBooted?
  }

  /** A swap with the operations to finish, and what it has left. */
  lemma SwapOutcome(d: Device, mode: SwapMode, k: nat, c: nat, torn: Page, outgoing: seq<Page>, incoming: seq<Page>)
    requires Exchange(d, mode, k, outgoing, incoming) && Logged(d.log, k) && 2 * d.Pages() <= |d.log|
    ensures var p, rest := SwapImages(d, mode, c, torn), 3 * (2 * d.Pages() - k);
            && p.dev.word0 == d.word0 && p.dev.word1 == d.word1 && |p.dev.log| == |d.log|
            && InProgress(p.dev, mode, outgoing, incoming)
            && (p.Alive? <==> c >= rest)
            && (p.Alive? ==> p.power == c - rest && Exchange(p.dev, mode, 2 * d.Pages(), outgoing, incoming))
  {
    LoggedStart(d.log, k);
    SwapKeepsExchange(d, mode, c, torn, outgoing, incoming);
    hide Exchange, Logged, InProgress;
    if c >= 3 * (2 * d.Pages() - k) {
      StepsFinish(d, mode, k, c, torn);
    } else {
      StepsRunOut(d, mode, k, c, torn);
    }
  }

  lemma {:induction false} StepsRunOut(d: Device, mode: SwapMode, k: nat, power: nat, torn: Page)
    requires d.Valid() && k <= 2 * d.Pages() && power < 3 * (2 * d.Pages() - k)
    ensures RunSteps(d, mode, k, power, torn).Reset?
    decreases 2 * d.Pages() - k
  {
    hide StepCopied, MarkStep;
    if power >= 3 {
      StepsRunOut(RunStep(d, mode, k, power, torn).dev, mode, k + 1, power - 3, torn);
    }
  }

  /** A status write that is cut short. */
  lemma StatusCut(d: Device, s: Status, crc: Checksum, left: nat)
    requires left < 3
    ensures var p := WriteStatus(d, s, crc, left);
            && p.Reset? && p.dev.fw == d.fw && p.dev.dfu == d.dfu && |p.dev.log| == |d.log|
            && (left == 0 ==> p.dev == d)
            && (left > 0 ==> Logged(p.dev.log, 0))
            && (left == 1 ==> ReadStatus(p.dev, crc).Empty?)
            && (left == 2 ==> var r := ReadStatus(p.dev, crc); r.Corrupt? || (r.Valid? && r.status.state == s.state))
  {
    if left == 1 {
      assert AllErased(Head(WriteStatus(d, s, crc, left).dev));
    } else if left == 2 {
      TornStatusDecodes(s, crc);
    }
  }

  /** Whether a boot may move pages. */
  predicate Swaps(d: Device, watchdogReset: bool, crc: Checksum) {
    var r := ReadStatus(d, crc);
    r.Valid? && (r.status.state.DfuFreshlyWritten? || (r.status.state.SwappedImageTrialBooted? && watchdogReset))
  }

  lemma BootWithoutSwap(d: Device, watchdogReset: bool, crc: Checksum, power: nat, torn: Page)
    requires d.Valid() && !Swaps(d, watchdogReset, crc)
    ensures var p := Boot(d, watchdogReset, crc, power, torn);
            && p.dev.fw == d.fw && p.dev.dfu == d.dfu && |p.dev.log| == |d.log| && (power >= 3 ==> p.Alive?)
            && (!ReadStatus(d, crc).Corrupt? ==> p == Alive(d, power))
            && (ReadStatus(d, crc).Corrupt? && power >= 3 ==>
                  ReadStatus(p.dev, crc) == Valid(Status(DfuContentsRejected, 0, 0)))
  {
    if ReadStatus(d, crc).Corrupt? && power >= 3 {
      WrittenStatusReadsBack(d, Status(DfuContentsRejected, 0, 0), crc, power);
    }
    hide Decode, SwapThenWrite, ToBytes;
  }

  lemma SameWordsSameStatus(d: Device, d': Device, crc: Checksum)
    requires d'.word0 == d.word0 && d'.word1 == d.word1
    ensures ReadStatus(d', crc) == ReadStatus(d, crc)
  {
    hide Decode;
  }

  lemma CopyKeepsWords(d: Device, mode: SwapMode, k: nat, power: nat, torn: Page)
    requires d.Valid() && k < 2 * d.Pages()
    ensures var copied := StepCopied(d, mode, k, power, torn);
            copied.word0 == d.word0 && copied.word1 == d.word1 && copied.log == d.log
  {
  }

  /** The boot of a revert. */
  lemma RevertBoot(d: Device, crc: Checksum, power: nat, torn: Page)
    requires d.Valid() && OnTrial(d, crc)
    ensures Boot(d, true, crc, power, torn) == SwapThenWrite(d, Revert, SwappedImageBootTimeout, crc, power, torn)
  {
    hide SwapThenWrite, Decode, WriteStatus, SwapImages;
  }

  /** A boot cut inside its swap. */
  lemma SwapResets(d: Device, mode: SwapMode, next: State, crc: Checksum, power: nat, torn: Page)
    requires d.Valid() && SwapImages(d, mode, power, torn).Reset?
    ensures SwapThenWrite(d, mode, next, crc, power, torn) == SwapImages(d, mode, power, torn)
  {
    hide SwapImages, WriteStatus;
  }

  /** A boot whose swap finishes. */
  lemma SwapFinishes(d: Device, mode: SwapMode, next: State, crc: Checksum, power: nat, torn: Page)
    requires d.Valid() && SwapImages(d, mode, power, torn).Alive?
    ensures var p := SwapImages(d, mode, power, torn);
            SwapThenWrite(d, mode, next, crc, power, torn) == WriteStatus(p.dev, Status(next, 0, 0), crc, p.power)
  {
    hide SwapImages, WriteStatus;
  }

  /** A revert cut while it copies. */
  lemma RevertCutInSwap(
    d: Device, crc: Checksum, m: nat, j: nat, torn: Page, oldImage: seq<Page>, newImage: seq<Page>)
    requires d.Valid() && Exchange(d, Revert, 0, newImage, oldImage) && Logged(d.log, 0) && 2 * d.Pages() <= |d.log|
    requires OnTrial(d, crc) && Distinct(newImage, oldImage, torn) && m < 2 * d.Pages() && j < 3
    ensures var cut := Boot(d, true, crc, 3 * m + j, torn);
            && cut.Reset? && ReadStatus(cut.dev, crc) == ReadStatus(d, crc)
            && (Whole(cut.dev, newImage, oldImage) <==> 3 * m + j <= 3 || 3 * m + j >= 6 * d.Pages() - 1)
  {
    hide Exchange, Logged, Untorn, SwapImages, StepCopied, ReadStatus, Distinct, Boot, SwapThenWrite, Whole;
    var d' := SwapCut(d, Revert, m, j, torn, newImage, oldImage);
    CutIsWhole(d', Revert, m, j, torn, newImage, oldImage);
    CopyKeepsWords(d', Revert, m, j, torn);
    RevertBoot(d, crc, 3 * m + j, torn);
    SwapResets(d, Revert, SwappedImageBootTimeout, crc, 3 * m + j, torn);
    SameWordsSameStatus(d, StepCopied(d', Revert, m, j, torn), crc);
  }

  /** A revert cut in its status write. */
  lemma RevertCutInStatus(
    d: Device, crc: Checksum, left: nat, torn: Page, oldImage: seq<Page>, newImage: seq<Page>)
    requires d.Valid() && Exchange(d, Revert, 0, newImage, oldImage) && Logged(d.log, 0) && 2 * d.Pages() <= |d.log|
    requires OnTrial(d, crc) && left < 3
    ensures var cut := Boot(d, true, crc, 6 * d.Pages() + left, torn);
            cut.Reset? && cut.dev.fw == oldImage && !Swaps(cut.dev, false, crc)
  {
    hide Exchange, Logged, InProgress, SwapImages, WriteStatus, Boot, SwapThenWrite, ReadStatus;
    var power := 6 * d.Pages() + left;
    SwapOutcome(d, Revert, 0, power, torn, newImage, oldImage);
    var p := SwapImages(d, Revert, power, torn);
    FinishedExchange(p.dev, Revert, newImage, oldImage);
    RevertBoot(d, crc, power, torn);
    SwapFinishes(d, Revert, SwappedImageBootTimeout, crc, power, torn);
    StatusCut(p.dev, Status(SwappedImageBootTimeout, 0, 0), crc, left);
    SameWordsSameStatus(d, p.dev, crc);
  }

  /** What the watchdog flag is worth. The first boot of a revert is cut after any number of operations, then the
      board boots without the flag. It runs a whole image if and only if the cut came before the first firmware page
      was erased or after the last one was written. */
  lemma UnflaggedBootDuringRevert(
    d: Device, crc: Checksum, c: nat, power: nat, torn: Page, again: Page, oldImage: seq<Page>, newImage: seq<Page>)
    requires Good(d, oldImage, newImage, crc) && Exchange(d, Revert, 0, newImage, oldImage) && Logged(d.log, 0)
    requires OnTrial(d, crc) && c < 6 * d.Pages() + 3 && power >= 3 && Distinct(newImage, oldImage, torn)
    ensures var cut := Boot(d, true, crc, c, torn);
            var next := Boot(cut.dev, false, crc, power, again);
            && cut.Reset? && next.Alive? && next.dev.fw == cut.dev.fw
            && (Whole(next.dev, oldImage, newImage) <==> c <= 3 || c >= 6 * d.Pages() - 1)
  {
    hide Exchange, Logged, Boot, Distinct, ReadStatus;
    var cut := Boot(d, true, crc, c, torn);
    if c < 6 * d.Pages() {
      RevertCutInSwap(d, crc, c / 3, c % 3, torn, oldImage, newImage);
      TrialIsNotSwapped(d, cut.dev, crc);
    } else {
      RevertCutInStatus(d, crc, c - 6 * d.Pages(), torn, oldImage, newImage);
    }
    hide Good, OnTrial, Swaps;
    BootWithoutSwap(cut.dev, false, crc, power, again);
  }

  lemma TrialIsNotSwapped(d: Device, d': Device, crc: Checksum)
    requires OnTrial(d, crc) && ReadStatus(d', crc) == ReadStatus(d, crc)
    ensures !Swaps(d', false, crc)
  {
    hide ReadStatus;
  }

  // ---- The trial ----

  /** What a cut boot of a marked update leaves, `k` steps into its swap. */
  lemma FreshBootCut(
    d: Device, crc: Checksum, k: nat, c: nat, watchdogReset: bool, torn: Page, oldImage: seq<Page>, newImage: seq<Page>)
    requires Good(d, oldImage, newImage, crc) && Exchange(d, Normal, k, oldImage, newImage) && Logged(d.log, k)
    requires ReadStatus(d, crc).Valid? && ReadStatus(d, crc).status.state.DfuFreshlyWritten?
    requires c < 3 * (2 * d.Pages() - k) + 3
    ensures var cut, rest := Boot(d, watchdogReset, crc, c, torn), 3 * (2 * d.Pages() - k);
            && cut.Reset? && Good(cut.dev, oldImage, newImage, crc) && cut.dev.Pages() == d.Pages()
            && (c <= rest ==> ReadStatus(cut.dev, crc) == ReadStatus(d, crc))
            && (c > rest ==> cut.dev.fw == newImage && Logged(cut.dev.log, 0))
            && (c == rest + 1 ==> ReadStatus(cut.dev, crc).Empty?)
            && (c == rest + 2 ==> ReadStatus(cut.dev, crc).Corrupt? || OnTrial(cut.dev, crc))
            && !RevertUnfinished(cut.dev, crc)
  {
    assert d.Valid() && 2 * d.Pages() <= |d.log|;
    hide Exchange, Good, Logged, InProgress, Boot, SwapThenWrite, SwapImages, WriteStatus, ReadStatus;
    FreshBoot(d, watchdogReset, crc, c, torn);
    BootIsSafe(d, watchdogReset, crc, c, torn, oldImage, newImage);
    SwapOutcome(d, Normal, k, c, torn, oldImage, newImage);
    var p, rest := SwapImages(d, Normal, c, torn), 3 * (2 * d.Pages() - k);
    SameWordsSameStatus(d, p.dev, crc);
    if c >= rest {
      FinishedExchange(p.dev, Normal, oldImage, newImage);
      SwapFinishes(d, Normal, SwappedImageTrialBooted, crc, c, torn);
      StatusCut(p.dev, Status(SwappedImageTrialBooted, 0, 0), crc, c - rest);
    } else {
      SwapResets(d, Normal, SwappedImageTrialBooted, crc, c, torn);
    }
  }

  /** The boot of a marked update. */
  lemma FreshBoot(d: Device, watchdogReset: bool, crc: Checksum, power: nat, torn: Page)
    requires d.Valid() && ReadStatus(d, crc).Valid? && ReadStatus(d, crc).status.state.DfuFreshlyWritten?
    ensures Boot(d, watchdogReset, crc, power, torn) == SwapThenWrite(d, Normal, SwappedImageTrialBooted, crc, power, torn)
    ensures !RevertUnfinished(d, crc)
  {
    hide SwapThenWrite, Decode, WriteStatus, SwapImages;
  }

  /** A marked update, cut once, anywhere, and booted again: the trial is on record if and only if the cut was not
      inside the status write, or the torn status passes its checksum and the second boot is not the watchdog's. */
  lemma TrialRecordedIff(
    d: Device, crc: Checksum, k: nat, c: nat, first: bool, second: bool, power: nat, torn: Page, again: Page,
    oldImage: seq<Page>, newImage: seq<Page>)
    requires Good(d, oldImage, newImage, crc) && Exchange(d, Normal, k, oldImage, newImage) && Logged(d.log, k)
    requires ReadStatus(d, crc).Valid? && ReadStatus(d, crc).status.state.DfuFreshlyWritten?
    requires c < 3 * (2 * d.Pages() - k) + 3 && power >= 6 * d.Pages() + 3
    ensures var cut, rest := Boot(d, first, crc, c, torn), 3 * (2 * d.Pages() - k);
            var next := Boot(cut.dev, second, crc, power, again);
            && cut.Reset? && next.Alive?
            && (OnTrial(next.dev, crc) <==> c <= rest || (c == rest + 2 && ReadStatus(cut.dev, crc).Valid? && !second))
  {
    var cut, rest := Boot(d, first, crc, c, torn), 3 * (2 * d.Pages() - k);
    FreshBootCut(d, crc, k, c, first, torn, oldImage, newImage);
    hide Exchange, Good, Logged, Boot;
    if c <= rest {
      SwapCompletes(cut.dev, second, crc, power, again, oldImage, newImage);
    } else if OnTrial(cut.dev, crc) && second {
      RevertCompletes(cut.dev, crc, power, again, oldImage, newImage);
    } else {
      BootWithoutSwap(cut.dev, second, crc, power, again);
    }
  }

  /** A device that no boot will ever swap again. */
  predicate Settled(d: Device, crc: Checksum) {
    !Swaps(d, true, crc)
  }

  datatype BootEvent = BootEvent(watchdogReset: bool, power: nat, torn: Page)

  /** The device after a series of boots, each of them cut or followed by one. */
  function Boots(d: Device, events: seq<BootEvent>, crc: Checksum): (d': Device)
    requires d.Valid()
    ensures d'.Valid()
  {
    if events == [] then d
    else
      var e := events[|events| - 1];
      Boot(Boots(d, events[..|events| - 1], crc), e.watchdogReset, crc, e.power, e.torn).dev
  }

  lemma BootKeepsSettled(d: Device, e: BootEvent, crc: Checksum)
    requires d.Valid() && Settled(d, crc)
    ensures var p := Boot(d, e.watchdogReset, crc, e.power, e.torn);
            Settled(p.dev, crc) && p.dev.fw == d.fw
  {
    BootWithoutSwap(d, e.watchdogReset, crc, e.power, e.torn);
    if ReadStatus(d, crc).Corrupt? && e.power < 3 {
      StatusCut(d, Status(DfuContentsRejected, 0, 0), crc, e.power);
    }
  }

  lemma {:induction false} SettledForever(d: Device, events: seq<BootEvent>, crc: Checksum)
    requires d.Valid() && Settled(d, crc)
    ensures Settled(Boots(d, events, crc), crc) && Boots(d, events, crc).fw == d.fw
  {
    if events != [] {
      SettledForever(d, events[..|events| - 1], crc);
      hide Settled, Boot;
      BootKeepsSettled(Boots(d, events[..|events| - 1], crc), events[|events| - 1], crc);
    }
  }

  /** A confirmation confirms. From the start of whatever firmware a boot jumped to, it leaves that firmware serving, its
      pages untouched, and erases a record of a rejection, of a trial or of a timeout, and nothing else. Cut before the
      erase, it changes nothing. */
  lemma ConfirmConfirms(s: System, power: nat, crc: Checksum)
    requires Safe(s, crc) && s.phase.Starting?
    ensures var next, r := Next(s, ConfirmBoot(power), crc), ReadStatus(s.dev, crc);
            var onRecord := r.Valid? && r.status.state in {DfuContentsRejected, SwappedImageTrialBooted, SwappedImageBootTimeout};
            && next.dev.fw == s.dev.fw && next.dev.dfu == s.dev.dfu
            && next.oldImage == s.oldImage && next.newImage == s.newImage
            && (!onRecord ==> next.phase.Serving? && next.dev == s.dev)
            && (onRecord && power >= 1 ==>
                  next.phase.Serving? && ReadStatus(next.dev, crc).Empty? && Logged(next.dev.log, 0))
            && (onRecord && power == 0 ==> next.phase.Off? && next.dev == s.dev)
  {
    hide Good, Whole, Decode;
    assert AllErased(Head(EraseStatusPage(s.dev)));
    ErasedReadsEmpty(EraseStatusPage(s.dev), crc);
  }

  lemma ErasedReadsEmpty(d: Device, crc: Checksum)
    requires AllErased(Head(d))
    ensures ReadStatus(d, crc).Empty?
  {
  }

  lemma ConfirmSettles(s: System, power: nat, crc: Checksum)
    requires Safe(s, crc) && s.phase.Starting? && s.dev.Valid() && power >= 1
    ensures var d := Next(s, ConfirmBoot(power), crc).dev;
            d.Valid() && d.fw == s.dev.fw && Settled(d, crc)
  {
    hide Good, Whole, Decode;
    ErasedReadsEmpty(EraseStatusPage(s.dev), crc);
  }

  /** And for good: whatever boots follow, cut or not, with the watchdog flag or without, a confirmed firmware is the one
      that runs. */
  lemma ConfirmedForever(s: System, power: nat, events: seq<BootEvent>, crc: Checksum)
    requires Safe(s, crc) && s.phase.Starting? && power >= 1
    ensures var next := Next(s, ConfirmBoot(power), crc);
            next.dev.Valid() && Boots(next.dev, events, crc).fw == s.dev.fw
  {
    hide Good, Whole, Decode, Boot, Safe;
    SafeIsValid(s, crc);
    ConfirmSettles(s, power, crc);
    SettledForever(Next(s, ConfirmBoot(power), crc).dev, events, crc);
  }

  /** Loss of power stops the firmware and touches nothing; the next boot of a board with no swap on record starts the same
      firmware again. */
  lemma PowerCycleResumes(s: System, watchdogReset: bool, power: nat, torn: Page, crc: Checksum)
    requires s.dev.Valid() && Settled(s.dev, crc) && !ReadStatus(s.dev, crc).Corrupt?
    ensures var off := Next(s, Cut, crc);
            && off.phase.Off? && off.dev == s.dev
            && Next(off, PowerUp(watchdogReset, power, torn), crc) == off.(phase := Starting)
  {
    BootWithoutSwap(s.dev, watchdogReset, crc, power, torn);
    hide Boot, Decode;
  }

  /** The failing case. A cut after the status page is erased, or after the first word when the torn status fails its
      checksum, leaves the new image running with no trial on record: no later boot, watchdog flag or not, reverts
      it. */
  lemma StatusCutEndsTrial(
    d: Device, crc: Checksum, k: nat, c: nat, watchdogReset: bool, torn: Page, events: seq<BootEvent>,
    oldImage: seq<Page>, newImage: seq<Page>)
    requires Good(d, oldImage, newImage, crc) && Exchange(d, Normal, k, oldImage, newImage) && Logged(d.log, k)
    requires ReadStatus(d, crc).Valid? && ReadStatus(d, crc).status.state.DfuFreshlyWritten?
    requires c == 3 * (2 * d.Pages() - k) + 1
          || (c == 3 * (2 * d.Pages() - k) + 2 && !ReadStatus(Boot(d, watchdogReset, crc, c, torn).dev, crc).Valid?)
    ensures var cut := Boot(d, watchdogReset, crc, c, torn);
            && cut.Reset? && Boots(cut.dev, events, crc).fw == newImage && !OnTrial(Boots(cut.dev, events, crc), crc)
  {
    FreshBootCut(d, crc, k, c, watchdogReset, torn, oldImage, newImage);
    hide Exchange, Logged, Boot;
    SettledForever(Boot(d, watchdogReset, crc, c, torn).dev, events, crc);
  }

  // ---- The length of the step log ----

  lemma FullLogSkipsTheSwap(d: Device, crc: Checksum, watchdogReset: bool, power: nat, torn: Page)
    requires d.Valid() && Logged(d.log, |d.log|) && power >= 3
    requires ReadStatus(d, crc).Valid? && ReadStatus(d, crc).status.state.DfuFreshlyWritten?
    ensures var p := Boot(d, watchdogReset, crc, power, torn);
            && p.Alive? && p.dev.fw == d.fw
            && ReadStatus(p.dev, crc) == Valid(Status(SwappedImageTrialBooted, 0, 0))
  {
    LoggedStart(d.log, |d.log|);
    WrittenStatusReadsBack(d, Status(SwappedImageTrialBooted, 0, 0), crc, power);
  }

  /** With a shorter log, a reset after the last word that fits makes the next boot take the swap for finished: it
      records a trial and jumps into a mixed image. */
  lemma ShortLogLosesTheSwap(
    d: Device, crc: Checksum, first: bool, second: bool, power: nat, torn: Page, oldImage: seq<Page>, newImage: seq<Page>)
    requires d.Valid() && Exchange(d, Normal, 0, oldImage, newImage) && Logged(d.log, 0) && Distinct(oldImage, newImage, torn)
    requires ReadStatus(d, crc).Valid? && ReadStatus(d, crc).status.state.DfuFreshlyWritten?
    requires 1 <= |d.log| < 2 * d.Pages() && power >= 3
    ensures var cut := Boot(d, first, crc, 3 * |d.log| + 1, torn);
            var next := Boot(cut.dev, second, crc, power, torn);
            && cut.Reset? && next.Alive? && OnTrial(next.dev, crc) && !Whole(next.dev, oldImage, newImage)
  {
    var cut := ShortLogCut(d, crc, first, torn, oldImage, newImage);
    hide Exchange, Boot, SwapImages, Logged;
    FullLogSkipsTheSwap(cut, crc, second, power, torn);
  }

  lemma ShortLogCut(d: Device, crc: Checksum, watchdogReset: bool, torn: Page, oldImage: seq<Page>, newImage: seq<Page>)
    returns (cut: Device)
    requires d.Valid() && Exchange(d, Normal, 0, oldImage, newImage) && Logged(d.log, 0) && Distinct(oldImage, newImage, torn)
    requires ReadStatus(d, crc).Valid? && ReadStatus(d, crc).status.state.DfuFreshlyWritten?
    requires 1 <= |d.log| < 2 * d.Pages()
    ensures Boot(d, watchdogReset, crc, 3 * |d.log| + 1, torn) == Reset(cut) && cut.Valid()
    ensures ReadStatus(cut, crc) == ReadStatus(d, crc) && Logged(cut.log, |cut.log|) && !Whole(cut, oldImage, newImage)
  {
    hide Exchange, Untorn, SwapImages, StepCopied, ReadStatus, Distinct, Boot, SwapThenWrite, Whole, Logged;
    var power := 3 * |d.log| + 1;
    var d' := SwapCut(d, Normal, |d.log|, 1, torn, oldImage, newImage);
    cut := StepCopied(d', Normal, |d.log|, 1, torn);
    CutIsWhole(d', Normal, |d.log|, 1, torn, oldImage, newImage);
    CopyKeepsWords(d', Normal, |d.log|, 1, torn);
    FreshBoot(d, watchdogReset, crc, power, torn);
    SwapResets(d, Normal, SwappedImageTrialBooted, crc, power, torn);
    SameWordsSameStatus(d, cut, crc);
  }

  /** With no log at all nothing is ever moved. */
  lemma EmptyLogMovesNothing(d: Device, watchdogReset: bool, crc: Checksum, power: nat, torn: Page)
    requires d.Valid() && d.log == []
    ensures var p := Boot(d, watchdogReset, crc, power, torn);
            p.dev.fw == d.fw && p.dev.log == []
  {
  }

  /** Whichever operation the first boot of a marked update is cut after, the second boot runs a whole image. */
  ghost predicate EveryCutIsSafe(d: Device, crc: Checksum, torn: Page, oldImage: seq<Page>, newImage: seq<Page>)
    requires d.Valid()
  {
    forall c: nat, first: bool, second: bool, power: nat ::
      SecondBootIsWhole(d, crc, c, first, second, power, torn, oldImage, newImage)
  }

  predicate SecondBootIsWhole(
    d: Device, crc: Checksum, c: nat, first: bool, second: bool, power: nat, torn: Page,
    oldImage: seq<Page>, newImage: seq<Page>)
    requires d.Valid()
  {
    var cut := Boot(d, first, crc, c, torn);
    var next := Boot(cut.dev, second, crc, power, torn);
    cut.Reset? && next.Alive? ==> Whole(next.dev, oldImage, newImage)
  }

  lemma LongLogIsSafe(
    d: Device, crc: Checksum, c: nat, first: bool, second: bool, power: nat, torn: Page,
    oldImage: seq<Page>, newImage: seq<Page>)
    requires Good(d, oldImage, newImage, crc) && Exchange(d, Normal, 0, oldImage, newImage) && Logged(d.log, 0)
    requires ReadStatus(d, crc).Valid? && ReadStatus(d, crc).status.state.DfuFreshlyWritten?
    ensures SecondBootIsWhole(d, crc, c, first, second, power, torn, oldImage, newImage)
  {
    assert d.Valid();
    hide Exchange, Logged, Boot, Good, RevertUnfinished;
    if c < 6 * d.Pages() + 3 {
      FreshBootCut(d, crc, 0, c, first, torn, oldImage, newImage);
      BootIsSafe(Boot(d, first, crc, c, torn).dev, second, crc, power, torn, oldImage, newImage);
    } else {
      FreshBootRuns(d, crc, c, first, torn, oldImage, newImage);
    }
  }

  lemma FreshBootRuns(d: Device, crc: Checksum, c: nat, watchdogReset: bool, torn: Page, oldImage: seq<Page>, newImage: seq<Page>)
    requires Good(d, oldImage, newImage, crc) && Exchange(d, Normal, 0, oldImage, newImage) && Logged(d.log, 0)
    requires ReadStatus(d, crc).Valid? && ReadStatus(d, crc).status.state.DfuFreshlyWritten? && c >= 6 * d.Pages() + 3
    ensures Boot(d, watchdogReset, crc, c, torn).Alive?
  {
    SwapOutcome(d, Normal, 0, c, torn, oldImage, newImage);
    hide Exchange, Logged, Good;
  }

  /** The step log has to hold two words a page, a condition the layout constants do not check: every cut of a swap
      is safe if and only if it does, or if there is no log and so no swap. */
  lemma LogCapacityIff(d: Device, crc: Checksum, torn: Page, oldImage: seq<Page>, newImage: seq<Page>)
    requires d.Valid() && Exchange(d, Normal, 0, oldImage, newImage) && Logged(d.log, 0) && Distinct(oldImage, newImage, torn)
    requires ReadStatus(d, crc).Valid? && ReadStatus(d, crc).status.state.DfuFreshlyWritten?
    ensures EveryCutIsSafe(d, crc, torn, oldImage, newImage) <==> d.log == [] || |d.log| >= 2 * d.Pages()
  {
    if |d.log| >= 2 * d.Pages() {
      assert Good(d, oldImage, newImage, crc);
      hide Good, Boot;
      forall c: nat, first: bool, second: bool, power: nat
        ensures SecondBootIsWhole(d, crc, c, first, second, power, torn, oldImage, newImage)
      {
        LongLogIsSafe(d, crc, c, first, second, power, torn, oldImage, newImage);
      }
    } else if d.log == [] {
      assert d.fw == oldImage;
      hide Boot;
      forall c: nat, first: bool, second: bool, power: nat
        ensures SecondBootIsWhole(d, crc, c, first, second, power, torn, oldImage, newImage)
      {
        EmptyLogMovesNothing(d, first, crc, c, torn);
        EmptyLogMovesNothing(Boot(d, first, crc, c, torn).dev, second, crc, power, torn);
      }
    } else {
      hide Boot;
      ShortLogLosesTheSwap(d, crc, false, false, 3, torn, oldImage, newImage);
      assert !SecondBootIsWhole(d, crc, 3 * |d.log| + 1, false, false, 3, torn, oldImage, newImage);
    }
  }
}
