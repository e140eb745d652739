/** The bootloader as it runs: byte offsets into flash, page copies and log words, in place. */
module Bootloaders {
  import opened Bytes
  import opened Wrappers
  import opened BootStatus
  import opened ImageSwap
  import opened Multiples
  import BootRuns

  /** bootloader/src/loader.rs:8-14, with the region starts as page numbers: flash regions start on page
      boundaries, and the DFU area holds the image and one page more. */
  datatype BootloaderLayout = BootloaderLayout(imagePages: nat, pageSizeBytes: nat, firmwarePage: nat, dfuPage: nat)
  {
    predicate Valid() {
      imagePages >= 1 && pageSizeBytes >= 1 && firmwarePage + imagePages <= dfuPage
    }

    function FirmwareOffsetBytes(): nat {
      firmwarePage * pageSizeBytes
    }

    function DfuOffsetBytes(): nat {
      dfuPage * pageSizeBytes
    }

    function PageOffset(page: nat): nat {
      page * pageSizeBytes
    }

    function PageAt(offset: nat): nat
      requires pageSizeBytes >= 1
    {
      offset / pageSizeBytes
    }

    function DfuSizeBytes(): nat {
      (imagePages + 1) * pageSizeBytes
    }

    function WrapOffsetToDfu(offset: nat): int
      requires DfuSizeBytes() >= 1
    {
      WrapOffset(DfuOffsetBytes(), DfuSizeBytes(), pageSizeBytes, offset)
    }

    /** The page offset a firmware page is saved to, before wrapping. */
    function ScratchSum(mode: SwapMode, pageOffset: nat): int {
      match mode
      case Normal => DfuOffsetBytes() + DfuSizeBytes() - pageSizeBytes + pageOffset
      case Revert => DfuOffsetBytes() + DfuSizeBytes() - 2 * pageSizeBytes + pageOffset
    }
  }

  /** `wrap_offset_to_dfu` on the numbers it uses. */
  function WrapOffset(dfuOffset: nat, dfuSize: nat, pageSize: nat, offset: nat): int
    requires dfuSize >= 1
  {
    if offset > dfuOffset + dfuSize - pageSize then dfuOffset + (offset - dfuOffset) % dfuSize else offset
  }

  // ---- Page arithmetic ----

  lemma MulAdd(a: int, b: int, p: int)
    ensures (a + b) * p == a * p + b * p && (a - b) * p == a * p - b * p
  {
  }

  lemma ModOnceRound(x: nat, n: nat)
    requires n > 0 && n <= x < 2 * n
    ensures x % n == x - n
  {
    assert x == 1 * n + (x - n);
  }

  /** Wrapping once round the ring, on offsets that need not be page-aligned. */
  lemma WrapOnce(dfuOffset: nat, dfuSize: nat, pageSize: nat, x: nat)
    requires dfuSize >= pageSize >= 1
    ensures x <= dfuSize - pageSize ==> WrapOffset(dfuOffset, dfuSize, pageSize, dfuOffset + x) == dfuOffset + x
    ensures dfuSize <= x < 2 * dfuSize ==> WrapOffset(dfuOffset, dfuSize, pageSize, dfuOffset + x) == dfuOffset + x - dfuSize
  {
    if dfuSize <= x < 2 * dfuSize {
      ModOnceRound(x, dfuSize);
    }
  }

  /** The ring index is the page index modulo `N + 1`. */
  lemma RingIsMod(n: nat, x: nat)
    requires n > 0 && x < 2 * n
    ensures Ring(n, x) == x % n
  {
    if x >= n {
      ModOnceRound(x, n);
    }
  }

  /** Wrapping a page-aligned offset is stepping round the ring of `N + 1` pages. */
  lemma WrapIsRing(layout: BootloaderLayout, x: nat)
    requires layout.Valid() && x < 2 * (layout.imagePages + 1)
    ensures layout.DfuSizeBytes() >= 1
    ensures layout.WrapOffsetToDfu(layout.DfuOffsetBytes() + x * layout.pageSizeBytes)
         == layout.DfuOffsetBytes() + Ring(layout.imagePages + 1, x) * layout.pageSizeBytes
  {
    hide WrapOffset;
    var n, p := layout.imagePages + 1, layout.pageSizeBytes;
    MulMono(1, n, p);
    WrapOnce(layout.DfuOffsetBytes(), n * p, p, x * p);
    if x < n {
      MulAdd(n, 1, p);
      MulMono(x, n - 1, p);
    } else {
      MulAdd(x, n, p);
      MulMono(n, x, p);
      MulAdd(n, n, p);
      MulMono(x, n + n - 1, p);
      MulAdd(n + n, 1, p);
    }
  }

  /** The page a step saves to, before wrapping, counted from the start of the DFU area. */
  function ScratchIndex(n: nat, mode: SwapMode, i: nat): (x: nat)
    requires n >= 1
  {
    if mode.Normal? then n + i else n - 1 + i
  }

  lemma ScratchSumInPages(layout: BootloaderLayout, mode: SwapMode, i: nat)
    requires layout.Valid()
    ensures layout.ScratchSum(mode, i * layout.pageSizeBytes)
         == layout.DfuOffsetBytes() + ScratchIndex(layout.imagePages, mode, i) * layout.pageSizeBytes
  {
    var n, p := layout.imagePages, layout.pageSizeBytes;
    MulAdd(n, 1, p);
    MulAdd(n, i, p);
    MulAdd(n - 1, i, p);
  }

  /** Every sum `swap_images` computes, in either mode, fits 32 bits. */
  ghost predicate SumsFit(layout: BootloaderLayout)
  {
    && layout.DfuOffsetBytes() + layout.DfuSizeBytes() < U32_LIMIT
    && forall i: nat, mode: SwapMode {:trigger layout.ScratchSum(mode, i * layout.pageSizeBytes)} ::
         i < layout.imagePages ==> layout.ScratchSum(mode, i * layout.pageSizeBytes) < U32_LIMIT
  }

  /** The largest sum lies `max(N + 1, 2N - 1)` pages past the DFU origin. There is no overflow exactly
      when that one fits. */
  lemma SumsFitIff(layout: BootloaderLayout)
    requires layout.Valid()
    ensures SumsFit(layout) <==>
      layout.DfuOffsetBytes() + (if layout.imagePages == 1 then 2 else 2 * layout.imagePages - 1) * layout.pageSizeBytes < U32_LIMIT
  {
    var n, p := layout.imagePages, layout.pageSizeBytes;
    forall i: nat, mode: SwapMode | i < n
      ensures layout.ScratchSum(mode, i * p) <= layout.DfuOffsetBytes() + (2 * n - 1) * p
    {
      ScratchSumInPages(layout, mode, i);
      hide BootloaderLayout.ScratchSum;
      MulMono(ScratchIndex(n, mode, i), 2 * n - 1, p);
    }
    ScratchSumInPages(layout, Normal, n - 1);
    MulMono(if n > 1 then n + 1 else 1, if n > 1 then 2 * n - 1 else 2, p);
    hide BootloaderLayout.ScratchSum;
  }

  /** The regions of a whole flash, seen as a swap device. */
  function View(layout: BootloaderLayout, flash: seq<Page>, word0: Word, word1: Word, log: seq<Word>): (d: Device)
    requires layout.pageSizeBytes >= 1
    requires layout.firmwarePage + layout.imagePages <= |flash| && layout.dfuPage + layout.imagePages < |flash|
    ensures d.log == log
  {
    Device(flash[layout.firmwarePage..layout.firmwarePage + layout.imagePages],
           flash[layout.dfuPage..layout.dfuPage + layout.imagePages + 1], word0, word1, log)
  }

  /** A flash after an erase and a write of page `to`, as far as `power` operations take them. */
  function Written(flash: seq<Page>, to: nat, power: nat, torn: Page, page: Page): seq<Page>
    requires to < |flash|
  {
    if power == 0 then flash else flash[to := if power == 1 then torn else page]
  }

  /** No page outside the two regions has changed. */
  ghost predicate OutsideUnchanged(layout: BootloaderLayout, before: seq<Page>, after: seq<Page>) {
    && |before| == |after|
    && forall i :: 0 <= i < |before| ==>
         || layout.firmwarePage <= i < layout.firmwarePage + layout.imagePages
         || layout.dfuPage <= i <= layout.dfuPage + layout.imagePages
         || after[i] == before[i]
  }

  class Bootloader {
    const layout: BootloaderLayout
    const crc: Checksum
    /** What a reset leaves in the page being written. */
    const torn: Page
    /** The whole flash, by page. */
    const flash: array<Page>
    // The status page, which is not part of `flash`:
    var word0: Word
    var word1: Word
    var log: seq<Word>
    /** Flash operations left before the reset. */
    var power: nat

    ghost predicate Valid()
      reads this
    {
      && layout.Valid()
      && layout.dfuPage + layout.imagePages < flash.Length
    }

    ghost function Dev(): (d: Device)
      requires Valid()
      reads this, flash
      ensures d.Valid() && d.Pages() == layout.imagePages
    {
      View(layout, flash[..], word0, word1, log)
    }

    ghost function Ended(alive: bool): Progress
      requires Valid()
      reads this, flash
    {
      if alive then Alive(Dev(), power) else Reset(Dev())
    }

    constructor (layout: BootloaderLayout, flash: array<Page>, word0: Word, word1: Word, log: seq<Word>,
                 crc: Checksum, power: nat, torn: Page)
      requires layout.Valid() && layout.dfuPage + layout.imagePages < flash.Length
      ensures Valid() && Dev() == View(layout, flash[..], word0, word1, log) && this.power == power
      ensures this.layout == layout && this.crc == crc && this.torn == torn && this.flash == flash
    {
      this.layout, this.crc, this.torn, this.flash := layout, crc, torn, flash;
      this.word0, this.word1, this.log, this.power := word0, word1, log, power;
    }

    /** Erases the destination page, then reads the source and writes it there. */
    method CopyPage(from: nat, to: nat) returns (alive: bool)
      requires from < flash.Length && to < flash.Length && from != to
      modifies this`power, flash
      ensures flash[..] == Written(old(flash[..]), to, old(power), torn, old(flash[from]))
      ensures alive == (old(power) >= 2)
      ensures power == if alive then old(power) - 2 else 0
    {
      if power == 0 {
        return false;
      }
      power := power - 1;
      flash[to] := torn;
      if power == 0 {
        return false;
      }
      var page := flash[from];
      flash[to] := page;
      power := power - 1;
      return true;
    }

    method FirmwareToDfu(firmwarePageOffset: nat, scratchPageOffset: nat) returns (alive: bool)
      requires Valid()
      requires layout.PageAt(firmwarePageOffset) < flash.Length
      requires layout.PageAt(scratchPageOffset) < flash.Length
      requires layout.PageAt(firmwarePageOffset) != layout.PageAt(scratchPageOffset)
      modifies this`power, flash
      ensures flash[..] == Written(old(flash[..]), layout.PageAt(scratchPageOffset), old(power), torn,
                                   old(flash[layout.PageAt(firmwarePageOffset)]))
      ensures alive == (old(power) >= 2) && power == if alive then old(power) - 2 else 0
    {
      alive := CopyPage(layout.PageAt(firmwarePageOffset), layout.PageAt(scratchPageOffset));
    }

    method DfuToFirmware(dfuPageOffset: nat, firmwarePageOffset: nat) returns (alive: bool)
      requires Valid()
      requires layout.PageAt(dfuPageOffset) < flash.Length
      requires layout.PageAt(firmwarePageOffset) < flash.Length
      requires layout.PageAt(dfuPageOffset) != layout.PageAt(firmwarePageOffset)
      modifies this`power, flash
      ensures flash[..] == Written(old(flash[..]), layout.PageAt(firmwarePageOffset), old(power), torn,
                                   old(flash[layout.PageAt(dfuPageOffset)]))
      ensures alive == (old(power) >= 2) && power == if alive then old(power) - 2 else 0
    {
      alive := CopyPage(layout.PageAt(dfuPageOffset), layout.PageAt(firmwarePageOffset));
    }

    /** Programs one log word. A word past the status page is outside this object. */
    method LogStep(step: nat) returns (alive: bool)
      modifies this`power, this`log
      ensures alive == (old(power) >= 1) && power == if alive then old(power) - 1 else 0
      ensures log == if alive && step < |old(log)| then old(log)[step := STEP_MARK] else old(log)
    {
      if power == 0 {
        return false;
      }
      power := power - 1;
      if step < |log| {
        log := log[step := STEP_MARK];
      }
      return true;
    }

    /** The even steps: a firmware page goes to its scratch page. */
    method SaveStep(mode: SwapMode, step: nat) returns (alive: bool)
      requires Valid() && step < 2 * layout.imagePages && step % 2 == 0
      modifies this`power, flash
      ensures Dev() == StepCopied(old(Dev()), mode, step, old(power), torn)
      ensures alive == (old(power) >= 2) && power == if alive then old(power) - 2 else 0
      ensures OutsideUnchanged(layout, old(flash[..]), flash[..])
    {
      hide ScratchSlot, SourceSlot, StepCopied, View, Written, OutsideUnchanged, BootloaderLayout.ScratchSum,
           BootloaderLayout.WrapOffsetToDfu, BootloaderLayout.PageOffset, BootloaderLayout.PageAt,
           BootloaderLayout.FirmwareOffsetBytes, BootloaderLayout.DfuOffsetBytes;
      var i := step / 2;
      var pageOffset := layout.PageOffset(i);
      FirmwareOffset(layout, i);
      ScratchOffset(layout, mode, i);
      var firmwarePageOffset := layout.FirmwareOffsetBytes() + pageOffset;
      var scratchPageOffset := layout.WrapOffsetToDfu(layout.ScratchSum(mode, pageOffset));
      SaveIsStep(layout, flash[..], word0, word1, log, mode, i, power, torn);
      alive := FirmwareToDfu(firmwarePageOffset, scratchPageOffset);
    }

    /** The odd steps: a DFU page goes to its firmware page. */
    method LoadStep(mode: SwapMode, step: nat) returns (alive: bool)
      requires Valid() && step < 2 * layout.imagePages && step % 2 == 1
      modifies this`power, flash
      ensures Dev() == StepCopied(old(Dev()), mode, step, old(power), torn)
      ensures alive == (old(power) >= 2) && power == if alive then old(power) - 2 else 0
      ensures OutsideUnchanged(layout, old(flash[..]), flash[..])
    {
      hide ScratchSlot, SourceSlot, StepCopied, View, Written, OutsideUnchanged, BootloaderLayout.ScratchSum,
           BootloaderLayout.WrapOffsetToDfu, BootloaderLayout.PageOffset, BootloaderLayout.PageAt,
           BootloaderLayout.FirmwareOffsetBytes, BootloaderLayout.DfuOffsetBytes;
      var i := step / 2;
      var dfuPageOffset, firmwarePageOffset := LoadOffsets(mode, i);
      LoadIsStep(layout, flash[..], word0, word1, log, mode, i, power, torn);
      alive := DfuToFirmware(dfuPageOffset, firmwarePageOffset);
    }

    /** Where step `2 * i + 1` loads from, and to. */
    method LoadOffsets(mode: SwapMode, i: nat) returns (dfuPageOffset: nat, firmwarePageOffset: nat)
      requires Valid() && i < layout.imagePages
      ensures layout.PageAt(dfuPageOffset) == layout.dfuPage + SourceSlot(layout.imagePages, mode, i)
      ensures layout.PageAt(firmwarePageOffset) == layout.firmwarePage + i
    {
      hide SourceSlot, BootloaderLayout.ScratchSum, BootloaderLayout.WrapOffsetToDfu, BootloaderLayout.PageOffset,
           BootloaderLayout.PageAt;
      var pageOffset := layout.PageOffset(i);
      FirmwareOffset(layout, i);
      SourceOffset(layout, mode, i);
      match mode {
        case Normal => dfuPageOffset := layout.DfuOffsetBytes() + pageOffset;
        case Revert => dfuPageOffset := layout.WrapOffsetToDfu(layout.ScratchSum(Normal, pageOffset));
      }
      firmwarePageOffset := layout.FirmwareOffsetBytes() + pageOffset;
    }

    /** The first erased word of the log read before the swap. */
    method FindStart(swapLog: seq<Word>) returns (start: Option<nat>)
      ensures start == StartStep(swapLog)
    {
      var i := 0;
      while i < |swapLog|
        invariant 0 <= i <= |swapLog|
        invariant StartStep(swapLog) == StartStepFrom(swapLog, i)
      {
        if AllErased(swapLog[i]) {
          return Some(i);
        }
        i := i + 1;
      }
      return None;
    }

    /** The swap loop, resumed at the first step the log does not record. */
    method SwapImages(mode: SwapMode) returns (alive: bool)
      requires Valid()
      modifies this`power, this`log, flash
      ensures Ended(alive) == ImageSwap.SwapImages(old(Dev()), mode, old(power), torn)
      ensures OutsideUnchanged(layout, old(flash[..]), flash[..])
    {
      hide RunStep, View;
      var start := FindStart(log);
      if start.None? {
        return true;
      }
      var step := start.value;
      var stop := 2 * layout.imagePages;
      while step < stop
        invariant Valid()
        invariant RunSteps(Dev(), mode, step, power, torn) == ImageSwap.SwapImages(old(Dev()), mode, old(power), torn)
        invariant OutsideUnchanged(layout, old(flash[..]), flash[..])
      {
        RunStepsUnfold(Dev(), mode, step, power, torn);
        alive := RunOneStep(mode, step);
        if !alive {
          return;
        }
        step := step + 1;
      }
      RunStepsUnfold(Dev(), mode, step, power, torn);
      alive := true;
    }

    method RunOneStep(mode: SwapMode, step: nat) returns (alive: bool)
      requires Valid() && step < 2 * layout.imagePages
      modifies this`power, this`log, flash
      ensures Ended(alive) == RunStep(old(Dev()), mode, step, old(power), torn)
      ensures OutsideUnchanged(layout, old(flash[..]), flash[..])
    {
      if step % 2 == 0 {
        alive := SaveStep(mode, step);
      } else {
        alive := LoadStep(mode, step);
      }
      if alive {
        ghost var copied := Dev();
        alive := LogStep(step);
        assert Dev() == if alive then MarkStep(copied, step) else copied;
      }
    }

    /** Erases the status page and writes the record in its two words. */
    method WriteStatus(state: State) returns (alive: bool)
      requires Valid()
      modifies this`power, this`word0, this`word1, this`log
      ensures Ended(alive) == BootRuns.WriteStatus(old(Dev()), Status(state, 0, 0), crc, old(power))
    {
      if power == 0 {
        return false;
      }
      word0, word1, log := Erased(8), Erased(8), BootRuns.ErasedLog(|log|);
      power := power - 1;
      var bytes := ToBytes(Status(state, 0, 0), crc);
      if power == 0 {
        return false;
      }
      word0 := bytes[..8];
      power := power - 1;
      if power == 0 {
        return false;
      }
      word1 := bytes[8..];
      power := power - 1;
      return true;
    }

    method SwapThenWrite(mode: SwapMode, next: State) returns (alive: bool)
      requires Valid()
      modifies this`power, this`word0, this`word1, this`log, flash
      ensures Ended(alive) == BootRuns.SwapThenWrite(old(Dev()), mode, next, crc, old(power), torn)
      ensures OutsideUnchanged(layout, old(flash[..]), flash[..])
    {
      alive := SwapImages(mode);
      if alive {
        alive := WriteStatus(next);
      }
    }

    /** One boot up to the jump. It computes `BootRuns.Boot`, whose safety over every run is proved there,
        and touches no flash outside the firmware, DFU and status pages. */
    method Boot(watchdogReset: bool) returns (jumped: bool)
      requires Valid()
      modifies this`power, this`word0, this`word1, this`log, flash
      ensures Ended(jumped) == BootRuns.Boot(old(Dev()), watchdogReset, crc, old(power), torn)
      ensures OutsideUnchanged(layout, old(flash[..]), flash[..])
    {
      var status := FromBytes(word0 + word1, crc);
      match status {
        case Empty => jumped := true;
        case Corrupt => jumped := WriteStatus(DfuContentsRejected);
        case Valid(s) =>
          match s.state {
            case DfuFreshlyWritten => jumped := SwapThenWrite(Normal, SwappedImageTrialBooted);
            case SwappedImageTrialBooted =>
              if watchdogReset {
                jumped := SwapThenWrite(Revert, SwappedImageBootTimeout);
              } else {
                jumped := true;
              }
            case _ => jumped := true;
          }
      }
    }
  }

  lemma FirmwareOffset(layout: BootloaderLayout, i: nat)
    requires layout.Valid()
    ensures layout.PageAt(layout.FirmwareOffsetBytes() + layout.PageOffset(i)) == layout.firmwarePage + i
  {
    MulAdd(layout.firmwarePage, i, layout.pageSizeBytes);
    QuotientIs((layout.firmwarePage + i) * layout.pageSizeBytes, layout.firmwarePage + i, 0, layout.pageSizeBytes);
  }

  lemma DfuOffset(layout: BootloaderLayout, i: nat)
    requires layout.Valid()
    ensures layout.PageAt(layout.DfuOffsetBytes() + layout.PageOffset(i)) == layout.dfuPage + i
  {
    MulAdd(layout.dfuPage, i, layout.pageSizeBytes);
    QuotientIs((layout.dfuPage + i) * layout.pageSizeBytes, layout.dfuPage + i, 0, layout.pageSizeBytes);
  }

  lemma ScratchOffset(layout: BootloaderLayout, mode: SwapMode, i: nat)
    requires layout.Valid() && i < layout.imagePages
    ensures layout.ScratchSum(mode, layout.PageOffset(i)) >= layout.DfuOffsetBytes()
    ensures var offset := layout.WrapOffsetToDfu(layout.ScratchSum(mode, layout.PageOffset(i)));
            offset >= 0 && layout.PageAt(offset) == layout.dfuPage + ScratchSlot(layout.imagePages, mode, i)
  {
    var n := layout.imagePages;
    ScratchSumInPages(layout, mode, i);
    MulMono(0, ScratchIndex(n, mode, i), layout.pageSizeBytes);
    WrapIsRing(layout, ScratchIndex(n, mode, i));
    DfuOffset(layout, Ring(n + 1, ScratchIndex(n, mode, i)));
  }

  lemma SourceOffset(layout: BootloaderLayout, mode: SwapMode, i: nat)
    requires layout.Valid() && i < layout.imagePages
    ensures layout.ScratchSum(Normal, layout.PageOffset(i)) >= layout.DfuOffsetBytes()
    ensures var offset :=
              match mode
              case Normal => layout.DfuOffsetBytes() + layout.PageOffset(i)
              case Revert => layout.WrapOffsetToDfu(layout.ScratchSum(Normal, layout.PageOffset(i)));
            offset >= 0 && layout.PageAt(offset) == layout.dfuPage + SourceSlot(layout.imagePages, mode, i)
  {
    ScratchOffset(layout, Normal, i);
    DfuOffset(layout, i);
  }

  /** Writing the scratch page of an even step, seen through `View`. */
  lemma SaveIsStep(
    layout: BootloaderLayout, flash: seq<Page>, word0: Word, word1: Word, log: seq<Word>, mode: SwapMode, i: nat,
    power: nat, torn: Page)
    requires layout.Valid() && layout.dfuPage + layout.imagePages < |flash| && i < layout.imagePages
    ensures var to := layout.dfuPage + ScratchSlot(layout.imagePages, mode, i);
            View(layout, Written(flash, to, power, torn, flash[layout.firmwarePage + i]), word0, word1, log) ==
              StepCopied(View(layout, flash, word0, word1, log), mode, 2 * i, power, torn)
    ensures var to := layout.dfuPage + ScratchSlot(layout.imagePages, mode, i);
            OutsideUnchanged(layout, flash, Written(flash, to, power, torn, flash[layout.firmwarePage + i]))
  {
    var d := View(layout, flash, word0, word1, log);
    assert (2 * i) % 2 == 0 && (2 * i) / 2 == i && d.fw[i] == flash[layout.firmwarePage + i];
    hide SourceSlot, ScratchSlot, OutsideUnchanged, View;
    if power == 0 {
      NothingPut(layout, flash);
    } else {
      var page := if power == 1 then torn else flash[layout.firmwarePage + i];
      DfuPagePut(layout, flash, word0, word1, log, ScratchSlot(layout.imagePages, mode, i), page);
    }
  }

  lemma NothingPut(layout: BootloaderLayout, flash: seq<Page>)
    ensures OutsideUnchanged(layout, flash, flash)
  {
  }

  lemma DfuPagePut(
    layout: BootloaderLayout, flash: seq<Page>, word0: Word, word1: Word, log: seq<Word>, slot: nat, page: Page)
    requires layout.Valid() && layout.dfuPage + layout.imagePages < |flash| && slot <= layout.imagePages
    ensures var d, after := View(layout, flash, word0, word1, log), flash[layout.dfuPage + slot := page];
            && View(layout, after, word0, word1, log) == d.(dfu := d.dfu[slot := page])
            && OutsideUnchanged(layout, flash, after)
  {
    var d, after := View(layout, flash, word0, word1, log), View(layout, flash[layout.dfuPage + slot := page], word0, word1, log);
    assert after.dfu == d.dfu[slot := page] && after.fw == d.fw;
  }

  lemma FirmwarePagePut(
    layout: BootloaderLayout, flash: seq<Page>, word0: Word, word1: Word, log: seq<Word>, i: nat, page: Page)
    requires layout.Valid() && layout.dfuPage + layout.imagePages < |flash| && i < layout.imagePages
    ensures var d, after := View(layout, flash, word0, word1, log), flash[layout.firmwarePage + i := page];
            && View(layout, after, word0, word1, log) == d.(fw := d.fw[i := page])
            && OutsideUnchanged(layout, flash, after)
  {
    var d, after := View(layout, flash, word0, word1, log), View(layout, flash[layout.firmwarePage + i := page], word0, word1, log);
    assert after.fw == d.fw[i := page] && after.dfu == d.dfu;
  }

  /** Writing the firmware page of an odd step, seen through `View`. */
  lemma LoadIsStep(
    layout: BootloaderLayout, flash: seq<Page>, word0: Word, word1: Word, log: seq<Word>, mode: SwapMode, i: nat,
    power: nat, torn: Page)
    requires layout.Valid() && layout.dfuPage + layout.imagePages < |flash| && i < layout.imagePages
    ensures var from := layout.dfuPage + SourceSlot(layout.imagePages, mode, i);
            View(layout, Written(flash, layout.firmwarePage + i, power, torn, flash[from]), word0, word1, log) ==
              StepCopied(View(layout, flash, word0, word1, log), mode, 2 * i + 1, power, torn)
    ensures var from := layout.dfuPage + SourceSlot(layout.imagePages, mode, i);
            OutsideUnchanged(layout, flash, Written(flash, layout.firmwarePage + i, power, torn, flash[from]))
  {
    var d, slot := View(layout, flash, word0, word1, log), SourceSlot(layout.imagePages, mode, i);
    assert (2 * i + 1) % 2 == 1 && (2 * i + 1) / 2 == i && d.dfu[slot] == flash[layout.dfuPage + slot];
    hide SourceSlot, ScratchSlot, OutsideUnchanged, View;
    if power == 0 {
      NothingPut(layout, flash);
    } else {
      FirmwarePagePut(layout, flash, word0, word1, log, i, if power == 1 then torn else flash[layout.dfuPage + slot]);
    }
  }
}
