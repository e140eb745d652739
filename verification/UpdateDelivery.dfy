/** An update from the sender to the running firmware: the transfer of module DfuUpdate, then the mark and the boots of
    module BootRuns. */
module UpdateDelivery {
  import opened Bytes
  import opened BootStatus
  import opened ImageSwap
  import opened BootRuns
  import opened BootCuts
  import opened Multiples
  import D = DfuUpdate

  // ---- Bytes and pages ----

  /** An area of whole pages, page by page. */
  function PagesOf(area: seq<byte>, pageSize: nat): (pages: seq<Page>)
    requires pageSize >= 1 && Multiple(|area|, pageSize)
    decreases |area|
  {
    if area == [] then []
    else
      PageFits(0, |area|, pageSize);
      PageLess(|area|, pageSize);
      [area[..pageSize]] + PagesOf(area[pageSize..], pageSize)
  }

  function BytesOf(pages: seq<Page>): seq<byte> {
    if pages == [] then [] else pages[0] + BytesOf(pages[1..])
  }

  lemma PageLess(size: nat, pageSize: nat)
    requires pageSize >= 1 && Multiple(size, pageSize) && size >= pageSize
    ensures Multiple(size - pageSize, pageSize)
  {
    ModAdd(size, -1, pageSize);
  }

  lemma FirstPage(area: seq<byte>, pageSize: nat) returns (page: seq<byte>, rest: seq<byte>)
    requires pageSize >= 1 && Multiple(|area|, pageSize) && area != []
    ensures area == page + rest && |page| == pageSize && Multiple(|rest|, pageSize)
    ensures PagesOf(area, pageSize) == [page] + PagesOf(rest, pageSize)
  {
    PageFits(0, |area|, pageSize);
    PageLess(|area|, pageSize);
    page, rest := area[..pageSize], area[pageSize..];
    hide Multiple;
  }

  lemma {:induction false} PagesHoldBytes(area: seq<byte>, pageSize: nat)
    requires pageSize >= 1 && Multiple(|area|, pageSize)
    ensures BytesOf(PagesOf(area, pageSize)) == area
    ensures Times(|PagesOf(area, pageSize)|, pageSize) == |area|
    decreases |area|
  {
    hide Multiple, Times;
    if area == [] {
      TimesAtLeast(0, pageSize);
    } else {
      var page, rest := FirstPage(area, pageSize);
      PagesHoldBytes(rest, pageSize);
      TimesSum(1, |PagesOf(rest, pageSize)|, pageSize);
      TimesAtLeast(1, pageSize);
      assert ([page] + PagesOf(rest, pageSize))[1..] == PagesOf(rest, pageSize);
      hide PagesOf;
    }
  }

  // ---- The update ----

  /** The first `length` bytes are those of the image. */
  ghost predicate StartsWith(bytes: seq<byte>, image: nat -> byte, length: nat) {
    length <= |bytes| && bytes[..length] == D.ImageBytes(image, 0, length)
  }

  /** The firmware region holds the image. */
  ghost predicate Runs(d: Device, image: nat -> byte, length: nat) {
    StartsWith(BytesOf(d.fw), image, length)
  }

  /** The firmware of `s` has received an image, and the apply succeeds. */
  ghost predicate Delivers(
    s: System, b: D.Board, image: nat -> byte, length: u32, crc32: u32, crc: Checksum, pageSize: nat)
  {
    && Safe(s, crc) && s.phase.Serving? && D.Receiving(b, image, pageSize) && |b.area| == Times(s.dev.Pages(), pageSize)
    && D.OnApplyMessage(b, length, crc32, crc, pageSize).1.Applied?
  }

  /** What the apply leaves in the DFU area. */
  function AppliedArea(b: D.Board, length: u32, crc32: u32, crc: Checksum, pageSize: nat): (area: seq<byte>)
    requires b.receiver.Valid() && pageSize >= 1 && Multiple(|b.area|, pageSize)
    ensures |area| == |b.area|
  {
    ApplyKeepsSize(b, length, crc32, crc, pageSize);
    D.OnApplyMessage(b, length, crc32, crc, pageSize).0.area
  }

  lemma ApplyKeepsSize(b: D.Board, length: u32, crc32: u32, crc: Checksum, pageSize: nat)
    requires b.receiver.Valid() && pageSize >= 1 && Multiple(|b.area|, pageSize)
    ensures |D.OnApplyMessage(b, length, crc32, crc, pageSize).0.area| == |b.area|
  {
    hide D.DfuWrite, Multiple;
  }

  /** The area an apply leaves, as pages, holds the image. */
  lemma AppliedPages(
    s: System, b: D.Board, image: nat -> byte, length: u32, crc32: u32, crc: Checksum, pageSize: nat) returns (pages: seq<Page>)
    requires Delivers(s, b, image, length, crc32, crc, pageSize)
    ensures pages == PagesOf(AppliedArea(b, length, crc32, crc, pageSize), pageSize)
    ensures |pages| == s.dev.Pages() && StartsWith(BytesOf(pages), image, length)
  {
    D.ApplyDelivers(b, length, crc32, crc, image, pageSize);
    var area := AppliedArea(b, length, crc32, crc, pageSize);
    PagesHoldBytes(area, pageSize);
    pages := PagesOf(area, pageSize);
    SameCount(|pages|, s.dev.Pages(), pageSize);
    hide D.Receiving, D.OnApplyMessage, PagesOf, Times, Safe;
  }

  lemma SameCount(m: nat, n: nat, size: nat)
    requires size >= 1 && Times(m, size) == Times(n, size)
    ensures m == n
  {
    TimesSum(m, n, size);
    TimesSum(n, m, size);
    TimesAtLeast(m - n, size);
    TimesAtLeast(n - m, size);
    hide Times;
  }

  /** The board after an apply that succeeded: the DFU area as the receiver left it, then the mark, a write that a reset
      may cut. */
  function Marked(s: System, pages: seq<Page>, length: u32, crc32: u32, crc: Checksum, power: nat): System
    requires s.dev.Valid()
  {
    Next(Next(s, Receive(pages), crc), MarkWritten(length, crc32, power), crc)
  }

  /** The mark writes the status, takes the pages for the new image, and resets. */
  lemma MarkSteps(s: System, pages: seq<Page>, length: u32, crc32: u32, crc: Checksum, power: nat) returns (received: System)
    requires s.dev.Valid() && s.phase.Serving? && |pages| == s.dev.Pages()
    ensures received == Next(s, Receive(pages), crc) && received.phase.Serving?
    ensures Marked(s, pages, length, crc32, crc, power)
         == System(WriteStatus(received.dev, Status(DfuFreshlyWritten, length, crc32), crc, power).dev, Off, s.dev.fw, pages)
  {
    hide WriteStatus;
    received := Next(s, Receive(pages), crc);
    assert received.dev.dfu[..s.dev.Pages()] == pages;
  }

  /** What a mark starts from: the pages of the area in the DFU area, and the firmware that received them. */
  lemma MarkedIsSafe(s: System, pages: seq<Page>, length: u32, crc32: u32, crc: Checksum, power: nat) returns (marked: System)
    requires Safe(s, crc) && s.phase.Serving? && s.dev.Valid() && |pages| == s.dev.Pages()
    ensures marked == Marked(s, pages, length, crc32, crc, power)
    ensures Safe(marked, crc) && marked.phase.Off? && marked.dev.Pages() == s.dev.Pages()
    ensures marked.oldImage == s.dev.fw && marked.newImage == pages
    ensures power >= 3 ==> ReadStatus(marked.dev, crc) == Valid(Status(DfuFreshlyWritten, length, crc32))
  {
    marked := Marked(s, pages, length, crc32, crc, power);
    hide Safe, ReadStatus, Next;
    var received := MarkSteps(s, pages, length, crc32, crc, power);
    NextIsSafe(s, Receive(pages), crc);
    NextIsSafe(received, MarkWritten(length, crc32, power), crc);
    if power >= 3 {
      WrittenStatusReadsBack(received.dev, Status(DfuFreshlyWritten, length, crc32), crc, power);
    }
    hide ToBytes;
  }

  /** A transfer whose apply succeeds, the mark and one boot, none of them cut: the firmware that starts is the image that
      was sent, on trial. */
  lemma UpdateIsDelivered(
    s: System, b: D.Board, image: nat -> byte, length: u32, crc32: u32, crc: Checksum, pageSize: nat,
    mark: nat, watchdogReset: bool, power: nat, torn: Page)
    requires Delivers(s, b, image, length, crc32, crc, pageSize) && mark >= 3 && power >= 6 * s.dev.Pages() + 3
    ensures var pages := PagesOf(AppliedArea(b, length, crc32, crc, pageSize), pageSize);
            var booted := Next(Marked(s, pages, length, crc32, crc, mark), PowerUp(watchdogReset, power, torn), crc);
            booted.phase.Starting? && Runs(booted.dev, image, length) && OnTrial(booted.dev, crc)
  {
    var pages := AppliedPages(s, b, image, length, crc32, crc, pageSize);
    SafeIsValid(s, crc);
    hide D.Receiving, D.OnApplyMessage, PagesOf, Marked, Good, ReadStatus, Next, Boot, StartsWith;
    var marked := MarkedIsSafe(s, pages, length, crc32, crc, mark);
    MarkedBoots(marked, crc, watchdogReset, power, torn);
  }

  lemma MarkedBoots(marked: System, crc: Checksum, watchdogReset: bool, power: nat, torn: Page)
    requires Safe(marked, crc) && marked.phase.Off?
    requires ReadStatus(marked.dev, crc).Valid? && ReadStatus(marked.dev, crc).status.state.DfuFreshlyWritten?
    requires power >= 6 * marked.dev.Pages() + 3
    ensures var booted := Next(marked, PowerUp(watchdogReset, power, torn), crc);
            booted.phase.Starting? && booted.dev.fw == marked.newImage && OnTrial(booted.dev, crc)
  {
    hide Exchange, InProgress, Boot;
    SwapCompletes(marked.dev, watchdogReset, crc, power, torn, marked.oldImage, marked.newImage);
  }

  lemma {:induction false} ImagesStay(states: seq<System>, events: seq<Event>, crc: Checksum, i: nat)
    requires IsRun(states, events, crc) && i < |states|
    requires forall k :: 0 <= k < |events| ==> !events[k].MarkWritten?
    ensures states[i].oldImage == states[0].oldImage && states[i].newImage == states[0].newImage
  {
    if i > 0 {
      ImagesStay(states, events, crc, i - 1);
      assert !events[i - 1].MarkWritten?;
      assert states[i - 1 + 1] == Next(states[i - 1], events[i - 1], crc);
      hide Boot;
    }
  }

  /** An update is all or nothing. From a transfer whose apply succeeds, wherever a reset cuts the mark, and over every
      run of boots, resets, confirmations and later transfers until the next mark: whatever firmware runs is the one that
      received the update, whole, or the image that was sent. */
  lemma UpdateIsAllOrNothing(
    s: System, b: D.Board, image: nat -> byte, length: u32, crc32: u32, crc: Checksum, pageSize: nat, mark: nat,
    states: seq<System>, events: seq<Event>, i: nat)
    requires Delivers(s, b, image, length, crc32, crc, pageSize) && IsRun(states, events, crc) && i < |states|
    requires states[0] == Marked(s, PagesOf(AppliedArea(b, length, crc32, crc, pageSize), pageSize), length, crc32, crc, mark)
    requires forall k :: 0 <= k < |events| ==> !events[k].MarkWritten?
    ensures !states[i].phase.Off? ==> states[i].dev.fw == s.dev.fw || Runs(states[i].dev, image, length)
  {
    var pages := AppliedPages(s, b, image, length, crc32, crc, pageSize);
    SafeIsValid(s, crc);
    hide D.Receiving, D.OnApplyMessage, PagesOf, Marked, Good, ReadStatus, Next, Boot, StartsWith, IsRun;
    var marked := MarkedIsSafe(s, pages, length, crc32, crc, mark);
    RunsAreSafe(states, events, crc, i);
    ImagesStay(states, events, crc, i);
  }
}
