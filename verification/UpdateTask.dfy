/** The update receiver, the DFU flash and the message handlers that join them, in place. */
module UpdateTask {
  import opened Bytes
  import opened BootStatus
  import opened Multiples
  import opened DfuUpdate
  import opened Wrappers

  class FirmwareUpdateState {
    const capacity: nat
    var active: bool
    var nextCounter: nat
    const staged: array<byte>
    var stagedLen: nat
    var writeOffset: nat

    ghost function State(): (r: Receiver)
      reads this, staged
    {
      Receiver(capacity, active, nextCounter, staged[..], stagedLen, writeOffset)
    }

    ghost predicate Valid()
      reads this, staged
    {
      State().Valid()
    }

    constructor (capacity: nat)
      ensures Valid() && fresh(staged) && State() == Receiver(capacity, false, 0, seq(STAGE_BYTES, i => 0), 0, 0)
    {
      this.capacity := capacity;
      active, nextCounter, stagedLen, writeOffset := false, 0, 0, 0;
      staged := new byte[STAGE_BYTES](i => 0);
    }

    method Reset()
      modifies this
      ensures State() == old(State()).Reset()
    {
      active := false;
      nextCounter := 0;
      stagedLen := 0;
      writeOffset := 0;
    }

    /** Copies a chunk into the stage buffer. */
    method Stage(chunk: seq<byte>)
      requires stagedLen + |chunk| <= staged.Length
      modifies staged
      ensures staged[..] == old(staged[..stagedLen]) + chunk + old(staged[stagedLen + |chunk|..])
    {
      ghost var before := staged[..];
      for j := 0 to |chunk|
        invariant forall k :: 0 <= k < j ==> staged[stagedLen + k] == chunk[k]
        invariant forall k :: 0 <= k < staged.Length && !(stagedLen <= k < stagedLen + j) ==> staged[k] == before[k]
      {
        staged[stagedLen + j] := chunk[j];
      }
      assert staged[..] == before[..stagedLen] + chunk + before[stagedLen + |chunk|..];
    }

    /** Tail padding falls beyond the image. */
    method PadTail()
      requires stagedLen <= staged.Length
      modifies staged
      ensures staged[..] == old(staged[..stagedLen]) + Erased(staged.Length - stagedLen)
    {
      ghost var before := staged[..];
      for j := stagedLen to staged.Length
        invariant staged[..] == before[..stagedLen] + Erased(j - stagedLen) + before[j..]
      {
        staged[j] := 0xFF;
      }
    }

    method OnData(counter: nat, chunk: seq<byte>) returns (outcome: DataOutcome)
      requires Valid() && |chunk| == CHUNK_BYTES
      modifies this, staged
      ensures Valid() && (State(), outcome) == old(State()).OnData(counter, chunk)
    {
      if counter == 0 {
        Reset();
        active := true;
      } else if !active || counter != nextCounter {
        return OutOfSequence(nextCounter);
      }
      if writeOffset + stagedLen + CHUNK_BYTES > capacity {
        Reset();
        return Rejected(ImageTooLarge);
      }
      nextCounter := counter + 1;
      Stage(chunk);
      stagedLen := stagedLen + CHUNK_BYTES;
      if stagedLen == STAGE_BYTES {
        var write := DfuWriteData(writeOffset, staged[..]);
        writeOffset := writeOffset + STAGE_BYTES;
        stagedLen := 0;
        outcome := Accepted(Some(write));
      } else {
        outcome := Accepted(None);
      }
    }

    method OnApply(length: nat, crc32: u32) returns (outcome: ApplyOutcome)
      requires Valid()
      modifies this, staged
      ensures Valid() && (State(), outcome) == old(State()).OnApply(length, crc32)
    {
      var received := writeOffset + stagedLen;
      var complete := active && length > 0 && length <= received && received - length < CHUNK_BYTES;
      if !complete {
        Reset();
        return Refused(LengthMismatch);
      }
      var flush := None;
      if stagedLen > 0 {
        PadTail();
        var len := NextMultiple(length - writeOffset, WORD_BYTES);
        flush := Some(DfuWriteData(writeOffset, staged[..len]));
      }
      Reset();
      outcome := Verify(flush, length, crc32);
    }
  }

  const STATUS_BYTES: nat := 16

  /** A checksum computed byte by byte: `finish` of the folded state. */
  function Fold<S>(state: S, update: (S, byte) -> S, bytes: seq<byte>): S
    decreases |bytes|
  {
    if bytes == [] then state else update(Fold(state, update, bytes[..|bytes| - 1]), bytes[|bytes| - 1])
  }

  lemma {:induction false} FoldJoin<S>(state: S, update: (S, byte) -> S, a: seq<byte>, b: seq<byte>)
    ensures Fold(Fold(state, update, a), update, b) == Fold(state, update, a + b)
    decreases |b|
  {
    if b == [] {
      assert a + b == a;
    } else {
      FoldJoin(state, update, a, b[..|b| - 1]);
      assert (a + b)[..|a + b| - 1] == a + b[..|b| - 1];
    }
  }

  /** The firmware's view of the DFU area, as many bytes as the firmware capacity, in whole pages, and of the bootloader
      status page. */
  class Memory {
    const area: array<byte>
    const pageSize: nat
    const status: array<byte>

    ghost predicate Valid()
      reads this
    {
      pageSize >= 1 && Multiple(area.Length, pageSize) && status.Length >= STATUS_BYTES && status != area
    }

    constructor (area: array<byte>, pageSize: nat, status: array<byte>)
      requires pageSize >= 1 && Multiple(area.Length, pageSize) && status.Length >= STATUS_BYTES && status != area
      ensures Valid() && this.area == area && this.pageSize == pageSize && this.status == status
    {
      this.area, this.pageSize, this.status := area, pageSize, status;
    }

    method EraseStatusPage()
      modifies status
      ensures status[..] == Erased(status.Length)
    {
      for i := 0 to status.Length
        invariant AllErased(status[..i])
      {
        status[i] := 0xFF;
      }
    }

    /** Erases the status page, the step log behind the record included, and writes the record. */
    method WriteBootloaderStatus(record: Status, crc: Checksum)
      requires Valid()
      modifies status
      ensures status[..] == ToBytes(record, crc) + Erased(status.Length - STATUS_BYTES)
    {
      EraseStatusPage();
      var bytes := ToBytes(record, crc);
      for i := 0 to STATUS_BYTES
        invariant forall k :: 0 <= k < i ==> status[k] == bytes[k]
        invariant forall k :: i <= k < status.Length ==> status[k] == 0xFF
      {
        status[i] := bytes[i];
      }
      assert status[..] == bytes + Erased(status.Length - STATUS_BYTES);
    }

    method DfuMarkWritten(imageLength: u32, imageCrc32: u32, crc: Checksum)
      requires Valid()
      modifies status
      ensures status[..] == ToBytes(Status(DfuFreshlyWritten, imageLength, imageCrc32), crc) + Erased(status.Length - STATUS_BYTES)
      ensures Decode(status[..STATUS_BYTES], crc) == DecodeResult.Valid(Status(DfuFreshlyWritten, imageLength, imageCrc32))
    {
      var record := Status(DfuFreshlyWritten, imageLength, imageCrc32);
      WriteBootloaderStatus(record, crc);
      StatusRoundTrip(record, crc);
      assert status[..STATUS_BYTES] == ToBytes(record, crc);
    }

    /** Ends a trial, or clears the record of a rejection or a timeout; every other status stays. */
    method ConfirmBoot(crc: Checksum)
      requires Valid()
      modifies status
      ensures var r := Decode(old(status[..STATUS_BYTES]), crc);
              if r.Valid? && r.status.state in {DfuContentsRejected, SwappedImageTrialBooted, SwappedImageBootTimeout}
              then status[..] == Erased(status.Length) && Decode(status[..STATUS_BYTES], crc).Empty?
              else status[..] == old(status[..])
    {
      var r := FromBytes(status[..STATUS_BYTES], crc);
      if r.Valid? {
        match r.status.state {
          case DfuContentsRejected => EraseStatusPage();
          case SwappedImageTrialBooted => EraseStatusPage();
          case SwappedImageBootTimeout => EraseStatusPage();
          case _ =>
        }
      }
    }

    method ErasePageAt(page: nat)
      requires Valid() && page + pageSize <= area.Length
      modifies area
      ensures area[..] == ErasePage(old(area[..]), page, pageSize)
    {
      ghost var before := area[..];
      for i := 0 to pageSize
        invariant area[..] == before[..page] + Erased(i) + before[page + i..]
      {
        area[page + i] := 0xFF;
      }
    }

    method ProgramAt(offset: nat, data: seq<byte>)
      requires offset + |data| <= area.Length
      modifies area
      ensures area[..] == Program(old(area[..]), offset, data)
    {
      ghost var before := area[..];
      for i := 0 to |data|
        invariant area[..] == before[..offset] + data[..i] + before[offset + i..]
      {
        area[offset + i] := data[i];
      }
      assert data[..|data|] == data;
    }

    /** Erases each page the write is the first to reach, then programs. */
    method DfuWrite(offset: nat, data: seq<byte>) returns (fault: Option<Fault>)
      requires Valid()
      modifies area
      ensures var r := DfuUpdate.DfuWrite(old(area[..]), pageSize, offset, data);
              area[..] == r.area && fault == if r.Written? then None else Some(r.fault)
    {
      hide Multiple, Programmable, Program;
      var end := offset + |data|;
      if end > area.Length {
        return Some(FlashTooLarge);
      }
      var page := NextMultiple(offset, pageSize);
      NextMultipleIsMultiple(offset, pageSize);
      ghost var erased := ErasePages(area[..], page, end, pageSize);
      while page < end
        invariant Multiple(page, pageSize)
        invariant ErasePages(area[..], page, end, pageSize) == erased
        decreases end - page
      {
        PageFits(page, area.Length, pageSize);
        ErasePageAt(page);
        page := page + pageSize;
      }
      if !Programmable(area[..], offset, data) {
        return Some(FlashInternal);
      }
      ProgramAt(offset, data);
      fault := None;
    }

    /** The checksum of the first `length` bytes, read 64 at a time, is the checksum of them all. */
    method DfuCrc32<S>(length: nat, init: S, update: (S, byte) -> S, finish: S -> u32) returns (crc: u32)
      requires Valid() && length <= area.Length
      ensures crc == finish(Fold(init, update, area[..length]))
    {
      var digest := init;
      var offset := 0;
      while offset < length
        invariant 0 <= offset <= length
        invariant digest == Fold(init, update, area[..offset])
      {
        var n := if length - offset < 64 then length - offset else 64;
        FoldJoin(init, update, area[..offset], area[offset..offset + n]);
        assert area[..offset] + area[offset..offset + n] == area[..offset + n];
        digest := DigestUpdate(digest, update, area[offset..offset + n]);
        offset := offset + n;
      }
      crc := finish(digest);
    }
  }

  method DigestUpdate<S>(state: S, update: (S, byte) -> S, bytes: seq<byte>) returns (next: S)
    ensures next == Fold(state, update, bytes)
  {
    next := state;
    for i := 0 to |bytes|
      invariant next == Fold(state, update, bytes[..i])
    {
      assert bytes[..i + 1][..i] == bytes[..i];
      next := update(next, bytes[i]);
    }
    assert bytes[..|bytes|] == bytes;
  }

  /** The update arms of the CAN receive task. */
  class Task {
    const update: FirmwareUpdateState
    const memory: Memory

    ghost predicate Valid()
      reads this, update, update.staged, memory
    {
      update.Valid() && memory.Valid() && memory.area != update.staged && memory.status != update.staged
    }

    ghost function View(): (b: Board)
      reads this, update, update.staged, memory, memory.area
    {
      Board(update.State(), memory.area[..])
    }

    constructor (update: FirmwareUpdateState, memory: Memory)
      requires update.Valid() && memory.Valid() && memory.area != update.staged && memory.status != update.staged
      ensures Valid() && this.update == update && this.memory == memory
    {
      this.update, this.memory := update, memory;
    }

    method OnFirmwareUpdateData(counter: nat, chunk: seq<byte>) returns (reply: Reply)
      requires Valid() && |chunk| == CHUNK_BYTES
      modifies update, update.staged, memory.area
      ensures Valid() && View() == OnDataMessage(old(View()), counter, chunk, memory.pageSize)
      ensures reply == ReplyTo(old(View()), counter, chunk, memory.pageSize)
    {
      reply := Silent;
      var outcome := update.OnData(counter, chunk);
      match outcome {
        case Accepted(write) =>
          if write.Some? {
            var fault := memory.DfuWrite(write.value.offset, write.value.data);
            if fault.None? {
              reply := Acknowledge(update.nextCounter);
            } else {
              update.Reset();
              reply := AssertFault(fault.value);
            }
          }
        case OutOfSequence(expected) => reply := Acknowledge(expected);
        case Rejected(fault) => reply := AssertFault(fault);
      }
    }

    /** `Applied` is the reset into the bootloader, with the DFU area marked as freshly written and the step log erased.
        Any other result leaves the status page alone. */
    method OnFirmwareUpdateApply<S>(
      length: u32, crc32: u32, init: S, update_: (S, byte) -> S, finish: S -> u32) returns (applied: Apply)
      requires Valid()
      modifies update, update.staged, memory.area, memory.status
      ensures Valid()
      ensures var crc: Checksum := bytes => finish(Fold(init, update_, bytes));
              && (View(), applied) == OnApplyMessage(old(View()), length, crc32, crc, memory.pageSize)
              && memory.status[..]
                 == if applied.Applied? then
                      ToBytes(Status(DfuFreshlyWritten, length, crc32), crc) + Erased(memory.status.Length - STATUS_BYTES)
                    else old(memory.status[..])
    {
      hide Receiver.OnApply, Multiple, DfuUpdate.DfuWrite, ToBytes, Fold;
      var outcome := update.OnApply(length, crc32);
      if outcome.Refused? {
        return Faulted(outcome.fault);
      }
      if outcome.flush.Some? {
        var fault := memory.DfuWrite(outcome.flush.value.offset, outcome.flush.value.data);
        if fault.Some? {
          return Faulted(fault.value);
        }
      }
      if length > memory.area.Length {
        return Faulted(FlashInternal);
      }
      var found := memory.DfuCrc32(length, init, update_, finish);
      if found != crc32 {
        return Faulted(CrcMismatch);
      }
      memory.DfuMarkWritten(length, crc32, bytes => finish(Fold(init, update_, bytes)));
      applied := Applied(length, crc32);
    }
  }
}
