/** The boot decision of bootloader/src/main.rs, the firmware operations that touch the same flash, and
    the safety of every run of boots, resets and updates. */
module BootRuns {
  import opened Bytes
  import opened BootStatus
  import opened ImageSwap

  function Head(d: Device): (b: seq<byte>)
    ensures |b| == 16
  {
    d.word0 + d.word1
  }

  function ReadStatus(d: Device, crc: Checksum): DecodeResult {
    Decode(Head(d), crc)
  }

  function ErasedLog(n: nat): (log: seq<Word>)
    ensures |log| == n && Logged(log, 0)
  {
    seq(n, i => Erased(8))
  }

  function EraseStatusPage(d: Device): Device {
    d.(word0 := Erased(8), word1 := Erased(8), log := ErasedLog(|d.log|))
  }

  /** Erases the status page, its log included, then writes the record as two words. */
  function WriteStatus(d: Device, s: Status, crc: Checksum, power: nat): Progress {
    var bytes := ToBytes(s, crc);
    var erased := EraseStatusPage(d);
    if power == 0 then Reset(d)
    else if power == 1 then Reset(erased)
    else if power == 2 then Reset(erased.(word0 := bytes[..8]))
    else Alive(erased.(word0 := bytes[..8], word1 := bytes[8..]), power - 3)
  }

  function SwapThenWrite(d: Device, mode: SwapMode, next: State, crc: Checksum, power: nat, torn: Page): Progress
    requires d.Valid()
  {
    match SwapImages(d, mode, power, torn)
    case Reset(d') => Reset(d')
    case Alive(d', left) => WriteStatus(d', Status(next, 0, 0), crc, left)
  }

  /** One boot. `Alive` is the jump into the firmware region. */
  function Boot(d: Device, watchdogReset: bool, crc: Checksum, power: nat, torn: Page): (p: Progress)
    requires d.Valid()
    ensures p.dev.Valid() && p.dev.Pages() == d.Pages()
  {
    match ReadStatus(d, crc)
    case Empty => Alive(d, power)
    case Corrupt => WriteStatus(d, Status(DfuContentsRejected, 0, 0), crc, power)
    case Valid(status) =>
      if status.state.DfuFreshlyWritten? then
        SwapThenWrite(d, Normal, SwappedImageTrialBooted, crc, power, torn)
      else if status.state.SwappedImageTrialBooted? && watchdogReset then
        SwapThenWrite(d, Revert, SwappedImageBootTimeout, crc, power, torn)
      else Alive(d, power)
  }

  // ---- The invariant between boots ----

  /** The firmware region holds one image, whole. */
  predicate Whole(d: Device, oldImage: seq<Page>, newImage: seq<Page>) {
    d.fw == oldImage || d.fw == newImage
  }

  ghost predicate Good(d: Device, oldImage: seq<Page>, newImage: seq<Page>, crc: Checksum) {
    && d.Valid() && |oldImage| == |newImage| == d.Pages() && 2 * d.Pages() <= |d.log|
    && match ReadStatus(d, crc)
       case Empty => Whole(d, oldImage, newImage)
       case Corrupt => Whole(d, oldImage, newImage)
       case Valid(s) =>
         if s.state.DfuFreshlyWritten? then InProgress(d, Normal, oldImage, newImage)
         else if s.state.SwappedImageTrialBooted? then InProgress(d, Revert, newImage, oldImage)
         else Whole(d, oldImage, newImage)
  }

  /** A revert has logged some of its steps but not all of them. Only a boot that still sees the watchdog
      flag resumes it. */
  ghost predicate RevertUnfinished(d: Device, crc: Checksum) {
    && ReadStatus(d, crc).Valid? && ReadStatus(d, crc).status.state.SwappedImageTrialBooted?
    && !Logged(d.log, 0) && !Logged(d.log, 2 * d.Pages())
  }

  lemma WordsJoin(s: Status, crc: Checksum)
    ensures ToBytes(s, crc)[..8] + ToBytes(s, crc)[8..] == ToBytes(s, crc)
  {
  }

  /** What a freshly erased log asks of a status in state `s`. */
  ghost predicate Fits(d: Device, s: State, oldImage: seq<Page>, newImage: seq<Page>) {
    && (s.DfuFreshlyWritten? ==> Exchange(d, Normal, 0, oldImage, newImage))
    && (s.SwappedImageTrialBooted? ==> Exchange(d, Revert, 0, newImage, oldImage))
  }

  lemma ErasedLogIsGood(d: Device, s: State, crc: Checksum, oldImage: seq<Page>, newImage: seq<Page>)
    requires d.Valid() && |oldImage| == |newImage| == d.Pages() && 2 * d.Pages() <= |d.log|
    requires Whole(d, oldImage, newImage) && Logged(d.log, 0) && Fits(d, s, oldImage, newImage)
    requires var r := ReadStatus(d, crc); r.Valid? ==> r.status.state == s
    ensures Good(d, oldImage, newImage, crc)
  {
  }

  /** Whatever step of the status write a reset strikes, the result is good, provided the state being
      written is right for the pages and the firmware region is whole. */
  lemma WriteStatusKeepsGood(d: Device, s: Status, crc: Checksum, power: nat, oldImage: seq<Page>, newImage: seq<Page>)
    requires d.Valid() && |oldImage| == |newImage| == d.Pages() && 2 * d.Pages() <= |d.log|
    requires power == 0 ==> Good(d, oldImage, newImage, crc)
    requires Whole(d, oldImage, newImage) && Fits(d, s.state, oldImage, newImage)
    ensures var p := WriteStatus(d, s, crc, power);
            && Good(p.dev, oldImage, newImage, crc) && p.dev.fw == d.fw && p.dev.dfu == d.dfu && |p.dev.log| == |d.log|
            && (p.Alive? ==> ReadStatus(p.dev, crc) == Valid(s) && Logged(p.dev.log, 0))
  {
    var p := WriteStatus(d, s, crc, power);
    if power == 1 {
      assert AllErased(Head(p.dev));
    } else if power == 2 {
      TornStatusDecodes(s, crc);
    } else if power >= 3 {
      WordsJoin(s, crc);
      StatusRoundTrip(s, crc);
    }
    if power >= 1 {
      FitsFrame(d, p.dev, s.state, oldImage, newImage);
      ErasedLogIsGood(p.dev, s.state, crc, oldImage, newImage);
    }
  }

  lemma FitsFrame(d: Device, d': Device, s: State, oldImage: seq<Page>, newImage: seq<Page>)
    requires d'.fw == d.fw && d'.dfu == d.dfu && Fits(d, s, oldImage, newImage)
    ensures Fits(d', s, oldImage, newImage)
  {
  }

  /** Safety of one boot: from a good device, whatever the status decodes to, wherever a reset strikes and
      whatever it tears, the device stays good, and if the bootloader jumps the firmware region is whole. */
  lemma BootIsSafe(
    d: Device, watchdogReset: bool, crc: Checksum, power: nat, torn: Page, oldImage: seq<Page>, newImage: seq<Page>)
    requires Good(d, oldImage, newImage, crc)
    requires RevertUnfinished(d, crc) ==> watchdogReset
    ensures var p := Boot(d, watchdogReset, crc, power, torn);
            Good(p.dev, oldImage, newImage, crc) && |p.dev.log| == |d.log| && (p.Alive? ==> Whole(p.dev, oldImage, newImage))
  {
    match ReadStatus(d, crc)
    case Empty =>
    case Corrupt => WriteStatusKeepsGood(d, Status(DfuContentsRejected, 0, 0), crc, power, oldImage, newImage);
    case Valid(status) =>
      if status.state.DfuFreshlyWritten? {
        SwapKeepsExchange(d, Normal, power, torn, oldImage, newImage);
        var p := SwapImages(d, Normal, power, torn);
        assert Head(p.dev) == Head(d);
        if p.Alive? {
          NormalEndsWhereRevertStarts(p.dev, oldImage, newImage);
          FinishedExchange(p.dev, Normal, oldImage, newImage);
          WriteStatusKeepsGood(p.dev, Status(SwappedImageTrialBooted, 0, 0), crc, p.power, oldImage, newImage);
        }
      } else if status.state.SwappedImageTrialBooted? {
        if watchdogReset {
          SwapKeepsExchange(d, Revert, power, torn, newImage, oldImage);
          var p := SwapImages(d, Revert, power, torn);
          assert Head(p.dev) == Head(d);
          if p.Alive? {
            FinishedExchange(p.dev, Revert, newImage, oldImage);
            WriteStatusKeepsGood(p.dev, Status(SwappedImageBootTimeout, 0, 0), crc, p.power, oldImage, newImage);
          }
        } else {
          var k :| Logged(d.log, k) && Exchange(d, Revert, k, newImage, oldImage);
          if Logged(d.log, 0) {
            LoggedOnce(d.log, 0, k);
            assert d.fw == newImage;
          } else {
            LoggedOnce(d.log, 2 * d.Pages(), k);
            FinishedExchange(d, Revert, newImage, oldImage);
          }
        }
      }
  }

  // ---- A boot that is not interrupted completes what it starts ----

  /** While the mark of an update is on record, whatever interruptions its swap has had, six operations a page
      and three for the status reach the jump, with the new image whole, the old one rotated through the DFU
      area where a revert looks for it, and the trial state on record. */
  lemma SwapCompletes(
    d: Device, watchdogReset: bool, crc: Checksum, power: nat, torn: Page, oldImage: seq<Page>, newImage: seq<Page>)
    requires Good(d, oldImage, newImage, crc) && ReadStatus(d, crc).Valid?
    requires ReadStatus(d, crc).status.state.DfuFreshlyWritten? && power >= 6 * d.Pages() + 3
    ensures var p := Boot(d, watchdogReset, crc, power, torn);
            && p.Alive? && p.dev.fw == newImage && Logged(p.dev.log, 0)
            && ReadStatus(p.dev, crc) == Valid(Status(SwappedImageTrialBooted, 0, 0))
            && Exchange(p.dev, Revert, 0, newImage, oldImage)
  {
    SwapReachesEnd(d, Normal, power, torn, oldImage, newImage);
    var p := SwapImages(d, Normal, power, torn);
    NormalEndsWhereRevertStarts(p.dev, oldImage, newImage);
    FinishedExchange(p.dev, Normal, oldImage, newImage);
    WriteStatusKeepsGood(p.dev, Status(SwappedImageTrialBooted, 0, 0), crc, p.power, oldImage, newImage);
    FitsFrame(p.dev, Boot(d, watchdogReset, crc, power, torn).dev, SwappedImageTrialBooted, oldImage, newImage);
  }

  /** A watchdog reset during the trial, and any interruptions of the revert it starts, restore the old
      image exactly. */
  lemma RevertCompletes(d: Device, crc: Checksum, power: nat, torn: Page, oldImage: seq<Page>, newImage: seq<Page>)
    requires Good(d, oldImage, newImage, crc) && ReadStatus(d, crc).Valid?
    requires ReadStatus(d, crc).status.state.SwappedImageTrialBooted? && power >= 6 * d.Pages() + 3
    ensures var p := Boot(d, true, crc, power, torn);
            && p.Alive? && p.dev.fw == oldImage
            && ReadStatus(p.dev, crc) == Valid(Status(SwappedImageBootTimeout, 0, 0))
  {
    SwapReachesEnd(d, Revert, power, torn, newImage, oldImage);
    var p := SwapImages(d, Revert, power, torn);
    FinishedExchange(p.dev, Revert, newImage, oldImage);
    WriteStatusKeepsGood(p.dev, Status(SwappedImageBootTimeout, 0, 0), crc, p.power, oldImage, newImage);
  }

  lemma SwapReachesEnd(d: Device, mode: SwapMode, power: nat, torn: Page, outgoing: seq<Page>, incoming: seq<Page>)
    requires InProgress(d, mode, outgoing, incoming) && 2 * d.Pages() <= |d.log| && power >= 6 * d.Pages() + 3
    ensures var p := SwapImages(d, mode, power, torn);
            && p.Alive? && p.power >= 3 && |p.dev.log| == |d.log|
            && Exchange(p.dev, mode, 2 * d.Pages(), outgoing, incoming)
  {
    var k :| Logged(d.log, k) && Exchange(d, mode, k, outgoing, incoming);
    LoggedStart(d.log, k);
    StepsFinish(d, mode, k, power, torn);
    SwapKeepsExchange(d, mode, power, torn, outgoing, incoming);
  }

  // ---- All runs ----

  /** What runs on the board: nothing, the firmware before its boot confirmation, or the firmware serving
      update messages. */
  datatype Phase = Off | Starting | Serving

  datatype Event =
    | PowerUp(watchdogReset: bool, power: nat, torn: Page)
    | ConfirmBoot(power: nat)
    | Receive(image: seq<Page>)
    | MarkWritten(imageLength: u32, imageCrc32: u32, power: nat)
    | Cut

  /** `oldImage` and `newImage` are the images of the latest marked update. */
  datatype System = System(dev: Device, phase: Phase, oldImage: seq<Page>, newImage: seq<Page>)

  /** One event; an event the current phase does not allow changes nothing. */
  function Next(s: System, e: Event, crc: Checksum): System
    requires s.dev.Valid()
  {
    match e
    case PowerUp(watchdogReset, power, torn) =>
      if !s.phase.Off? then s
      else
        var p := Boot(s.dev, watchdogReset, crc, power, torn);
        s.(dev := p.dev, phase := if p.Alive? then Starting else Off)
    case ConfirmBoot(power) =>
      if !s.phase.Starting? then s
      else
        var status := ReadStatus(s.dev, crc);
        if status.Valid? && (status.status.state.DfuContentsRejected? || status.status.state.SwappedImageTrialBooted?
            || status.status.state.SwappedImageBootTimeout?) then
          if power == 0 then s.(phase := Off) else s.(dev := EraseStatusPage(s.dev), phase := Serving)
        else s.(phase := Serving)
    case Receive(image) =>
      if !s.phase.Serving? || |image| != s.dev.Pages() then s
      else s.(dev := s.dev.(dfu := image + [s.dev.dfu[s.dev.Pages()]]))
    case MarkWritten(imageLength, imageCrc32, power) =>
      if !s.phase.Serving? then s
      else
        var status := Status(DfuFreshlyWritten, imageLength, imageCrc32);
        System(WriteStatus(s.dev, status, crc, power).dev, Off, s.dev.fw, s.dev.dfu[..s.dev.Pages()])
    case Cut => s.(phase := Off)
  }

  /** The fault model's one demand: a boot that finds a half-done revert still sees the watchdog flag. */
  ghost predicate KeepsFlag(s: System, e: Event, crc: Checksum) {
    e.PowerUp? && s.phase.Off? && RevertUnfinished(s.dev, crc) ==> e.watchdogReset
  }

  predicate Swappable(d: Device, crc: Checksum) {
    var r := ReadStatus(d, crc);
    r.Valid? && (r.status.state.DfuFreshlyWritten? || r.status.state.SwappedImageTrialBooted?)
  }

  ghost predicate Safe(s: System, crc: Checksum) {
    && Good(s.dev, s.oldImage, s.newImage, crc)
    && (!s.phase.Off? ==> Whole(s.dev, s.oldImage, s.newImage))
    && (s.phase.Serving? ==> !Swappable(s.dev, crc))
    && (s.phase.Starting? && Swappable(s.dev, crc) ==> ReadStatus(s.dev, crc).status.state.SwappedImageTrialBooted?)
  }

  /** A status write that is not interrupted is what the next boot reads. */
  lemma WrittenStatusReadsBack(d: Device, s: Status, crc: Checksum, power: nat)
    requires power >= 3
    ensures ReadStatus(WriteStatus(d, s, crc, power).dev, crc) == Valid(s)
  {
    WordsJoin(s, crc);
    StatusRoundTrip(s, crc);
  }

  lemma BootLeavesNoFreshMark(d: Device, watchdogReset: bool, crc: Checksum, power: nat, torn: Page)
    requires d.Valid() && Boot(d, watchdogReset, crc, power, torn).Alive?
    ensures var r := ReadStatus(Boot(d, watchdogReset, crc, power, torn).dev, crc);
            r.Valid? ==> !r.status.state.DfuFreshlyWritten?
  {
    match ReadStatus(d, crc)
    case Empty =>
    case Corrupt => WrittenStatusReadsBack(d, Status(DfuContentsRejected, 0, 0), crc, power);
    case Valid(status) =>
      if status.state.DfuFreshlyWritten? {
        var p := SwapImages(d, Normal, power, torn);
        WrittenStatusReadsBack(p.dev, Status(SwappedImageTrialBooted, 0, 0), crc, p.power);
      } else if status.state.SwappedImageTrialBooted? && watchdogReset {
        var p := SwapImages(d, Revert, power, torn);
        WrittenStatusReadsBack(p.dev, Status(SwappedImageBootTimeout, 0, 0), crc, p.power);
      }
  }

  lemma PowerUpIsSafe(s: System, watchdogReset: bool, power: nat, torn: Page, crc: Checksum)
    requires Safe(s, crc) && s.phase.Off? && (RevertUnfinished(s.dev, crc) ==> watchdogReset)
    ensures Safe(Next(s, PowerUp(watchdogReset, power, torn), crc), crc)
  {
    BootIsSafe(s.dev, watchdogReset, crc, power, torn, s.oldImage, s.newImage);
    if Boot(s.dev, watchdogReset, crc, power, torn).Alive? {
      BootLeavesNoFreshMark(s.dev, watchdogReset, crc, power, torn);
    }
  }

  lemma ConfirmIsSafe(s: System, power: nat, crc: Checksum)
    requires Safe(s, crc)
    ensures Safe(Next(s, ConfirmBoot(power), crc), crc)
  {
    hide Exchange, Logged;
    assert AllErased(Head(EraseStatusPage(s.dev)));
  }

  lemma MarkStartsExchange(d: Device)
    requires d.Valid()
    ensures Exchange(d, Normal, 0, d.fw, d.dfu[..d.Pages()])
  {
  }

  lemma SafeIsValid(s: System, crc: Checksum)
    requires Safe(s, crc)
    ensures s.dev.Valid()
  {
    hide ReadStatus, InProgress;
  }

  /** Nothing is under way while the firmware serves messages. */
  lemma ServingIsGood(s: System, incoming: seq<Page>, crc: Checksum)
    requires Safe(s, crc) && s.phase.Serving? && |incoming| == |s.dev.fw|
    ensures s.dev.Valid() && 2 * s.dev.Pages() <= |s.dev.log| && Good(s.dev, s.dev.fw, incoming, crc)
  {
    hide Exchange, InProgress, Decode;
  }

  lemma MarkIsSafe(s: System, imageLength: u32, imageCrc32: u32, power: nat, crc: Checksum)
    requires Safe(s, crc) && s.phase.Serving?
    ensures Safe(Next(s, MarkWritten(imageLength, imageCrc32, power), crc), crc)
  {
    hide Exchange, Good, ReadStatus, WriteStatus, Safe;
    SafeIsValid(s, crc);
    var status := Status(DfuFreshlyWritten, imageLength, imageCrc32);
    var incoming := s.dev.dfu[..s.dev.Pages()];
    ServingIsGood(s, incoming, crc);
    MarkStartsExchange(s.dev);
    WriteStatusKeepsGood(s.dev, status, crc, power, s.dev.fw, incoming);
    OffIsSafe(WriteStatus(s.dev, status, crc, power).dev, s.dev.fw, incoming, crc);
  }

  lemma OffIsSafe(d: Device, oldImage: seq<Page>, newImage: seq<Page>, crc: Checksum)
    requires Good(d, oldImage, newImage, crc)
    ensures Safe(System(d, Off, oldImage, newImage), crc)
  {
    hide Good, ReadStatus;
  }

  lemma NextIsSafe(s: System, e: Event, crc: Checksum)
    requires Safe(s, crc) && KeepsFlag(s, e, crc)
    ensures Safe(Next(s, e, crc), crc)
  {
    match e
    case PowerUp(watchdogReset, power, torn) =>
      if s.phase.Off? {
        PowerUpIsSafe(s, watchdogReset, power, torn, crc);
      }
    case ConfirmBoot(power) => ConfirmIsSafe(s, power, crc);
    case Receive(image) =>
    case MarkWritten(imageLength, imageCrc32, power) =>
      if s.phase.Serving? {
        MarkIsSafe(s, imageLength, imageCrc32, power, crc);
      }
    case Cut =>
  }

  /** The states a run goes through, the first included. */
  ghost predicate IsRun(states: seq<System>, events: seq<Event>, crc: Checksum) {
    && |states| == |events| + 1
    && (forall i :: 0 <= i < |states| ==> states[i].dev.Valid())
    && (forall i :: 0 <= i < |events| ==>
          KeepsFlag(states[i], events[i], crc) && states[i + 1] == Next(states[i], events[i], crc))
  }

  /** Over every run, at every point where firmware runs, the firmware region is one whole image. */
  lemma {:induction false} RunsAreSafe(states: seq<System>, events: seq<Event>, crc: Checksum, i: nat)
    requires IsRun(states, events, crc) && Safe(states[0], crc) && i < |states|
    ensures Safe(states[i], crc)
    ensures !states[i].phase.Off? ==> states[i].dev.fw == states[i].oldImage || states[i].dev.fw == states[i].newImage
  {
    if i > 0 {
      RunsAreSafe(states, events, crc, i - 1);
      NextIsSafe(states[i - 1], events[i - 1], crc);
    }
  }

  /** A board as first flashed, with anything in its DFU area, is where a run can start. */
  lemma FactoryIsSafe(d: Device, crc: Checksum)
    requires d.Valid() && 2 * d.Pages() <= |d.log| && AllErased(Head(d))
    ensures Safe(System(d, Off, d.fw, d.fw), crc)
  {
  }
}
