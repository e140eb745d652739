/** Reception of a firmware image over a lossy link and its way into the DFU area of flash:
    firmware-core/src/app/update.rs, and the update arms of firmware/src/tasks/can_rx.rs. */
module DfuUpdate {
  import opened Bytes
  import opened Multiples
  import opened Wrappers

  const CHUNK_BYTES: nat := 6
  const STAGE_BYTES: nat := 24
  const WORD_BYTES: nat := 8

  datatype Fault = ImageTooLarge | LengthMismatch | CrcMismatch | FlashTooLarge | FlashInternal

  /** Firmware bytes to write at `offset` of the DFU area. */
  datatype DfuWriteData = DfuWriteData(offset: nat, data: seq<byte>)

  datatype DataOutcome = Accepted(write: Option<DfuWriteData>) | OutOfSequence(expected: nat) | Rejected(fault: Fault)

  datatype ApplyOutcome = Verify(flush: Option<DfuWriteData>, length: nat, crc32: u32) | Refused(fault: Fault)

  // ---- The receiver ----

  datatype Receiver = Receiver(
    capacity: nat, active: bool, nextCounter: nat, staged: seq<byte>, stagedLen: nat, writeOffset: nat)
  {
    predicate Valid() {
      |staged| == STAGE_BYTES && stagedLen in {0, 6, 12, 18}
    }

    function Reset(): Receiver {
      this.(active := false, nextCounter := 0, stagedLen := 0, writeOffset := 0)
    }

    function OnData(counter: nat, chunk: seq<byte>): (Receiver, DataOutcome)
      requires Valid() && |chunk| == CHUNK_BYTES
    {
      if counter != 0 && (!active || counter != nextCounter) then (this, OutOfSequence(nextCounter))
      else
        var r := if counter == 0 then Reset().(active := true) else this;
        if r.writeOffset + r.stagedLen + CHUNK_BYTES > capacity then (r.Reset(), Rejected(ImageTooLarge))
        else
          var filled := r.staged[..r.stagedLen] + chunk + r.staged[r.stagedLen + CHUNK_BYTES..];
          var next := r.(nextCounter := counter + 1, staged := filled, stagedLen := r.stagedLen + CHUNK_BYTES);
          if next.stagedLen == STAGE_BYTES then
            (next.(writeOffset := r.writeOffset + STAGE_BYTES, stagedLen := 0),
             Accepted(Some(DfuWriteData(r.writeOffset, filled))))
          else (next, Accepted(None))
    }

    predicate Complete(length: nat) {
      active && 0 < length <= writeOffset + stagedLen && writeOffset + stagedLen - length < CHUNK_BYTES
    }

    function OnApply(length: nat, crc32: u32): (Receiver, ApplyOutcome)
      requires Valid()
    {
      if !Complete(length) then (Reset(), Refused(LengthMismatch))
      else if stagedLen > 0 then
        var padded := staged[..stagedLen] + Erased(STAGE_BYTES - stagedLen);
        (Reset().(staged := padded),
         Verify(Some(DfuWriteData(writeOffset, padded[..NextMultiple(length - writeOffset, WORD_BYTES)])), length, crc32))
      else (Reset(), Verify(None, length, crc32))
    }
  }

  // ---- The DFU area of flash ----

  datatype WriteResult = Written(area: seq<byte>) | Failed(area: seq<byte>, fault: Fault)

  function ErasePage(area: seq<byte>, page: nat, pageSize: nat): (r: seq<byte>)
    requires page + pageSize <= |area|
    ensures |r| == |area|
  {
    area[..page] + Erased(pageSize) + area[page + pageSize..]
  }

  /** Erases the pages that start at `page`, `page + pageSize`, ... below `end`. */
  function ErasePages(area: seq<byte>, page: nat, end: nat, pageSize: nat): (r: seq<byte>)
    requires pageSize >= 1 && Multiple(|area|, pageSize) && Multiple(page, pageSize) && end <= |area|
    ensures |r| == |area|
    decreases |area| - page
  {
    if page >= end then area
    else
      PageFits(page, |area|, pageSize);
      ErasePages(ErasePage(area, page, pageSize), page + pageSize, end, pageSize)
  }

  /** The controller programs erased, 8-byte aligned words only. */
  predicate Programmable(area: seq<byte>, offset: nat, data: seq<byte>) {
    && Multiple(offset, WORD_BYTES) && Multiple(|data|, WORD_BYTES) && offset + |data| <= |area|
    && AllErased(area[offset..offset + |data|])
  }

  function Program(area: seq<byte>, offset: nat, data: seq<byte>): (r: seq<byte>)
    requires offset + |data| <= |area|
    ensures |r| == |area|
  {
    area[..offset] + data + area[offset + |data|..]
  }

  /** `Memory::dfu_write` on an area of whole pages, the firmware capacity. */
  function DfuWrite(area: seq<byte>, pageSize: nat, offset: nat, data: seq<byte>): (r: WriteResult)
    requires pageSize >= 1 && Multiple(|area|, pageSize)
    ensures |r.area| == |area|
  {
    if offset + |data| > |area| then Failed(area, FlashTooLarge)
    else
      NextMultipleIsMultiple(offset, pageSize);
      var erased := ErasePages(area, NextMultiple(offset, pageSize), offset + |data|, pageSize);
      if Programmable(erased, offset, data) then Written(Program(erased, offset, data))
      else Failed(erased, FlashInternal)
  }

  /** Erasing page by page clears everything from the first page to `stop`, the page boundary at or after
      `end`, and nothing else. */
  lemma {:induction false} ErasePagesClears(area: seq<byte>, page: nat, end: nat, pageSize: nat)
    returns (r: seq<byte>, stop: nat)
    requires pageSize >= 1 && Multiple(|area|, pageSize) && Multiple(page, pageSize) && page <= |area| && end <= |area|
    ensures r == ErasePages(area, page, end, pageSize)
    ensures page <= stop <= |area| && Multiple(stop, pageSize)
    ensures if page < end then end <= stop < end + pageSize else stop == page
    ensures forall i :: 0 <= i < |area| ==> r[i] == if page <= i < stop then 0xFF else area[i]
    decreases |area| - page
  {
    hide Multiple, NextMultiple;
    if page < end {
      PageFits(page, |area|, pageSize);
      var next := ErasePage(area, page, pageSize);
      r, stop := ErasePagesClears(next, page + pageSize, end, pageSize);
    } else {
      r, stop := area, page;
    }
  }

  // ---- One transfer into flash ----

  /** From `offset` to the next page boundary the area is erased. */
  ghost predicate CleanTail(area: seq<byte>, offset: nat, pageSize: nat)
    requires pageSize >= 1
  {
    forall i :: offset <= i < NextMultiple(offset, pageSize) && i < |area| ==> area[i] == 0xFF
  }

  /** The erasing part of a write at `offset`: the transfer's bytes before it stay, and everything from it to
      the page boundary at or after `end` is erased. */
  lemma EraseForWrite(area: seq<byte>, pageSize: nat, offset: nat, end: nat) returns (erased: seq<byte>)
    requires pageSize >= 1 && Multiple(|area|, pageSize) && CleanTail(area, offset, pageSize) && offset <= end <= |area|
    ensures Multiple(NextMultiple(offset, pageSize), pageSize)
    ensures erased == ErasePages(area, NextMultiple(offset, pageSize), end, pageSize)
    ensures erased[..offset] == area[..offset]
    ensures end <= NextMultiple(end, pageSize) <= |area|
    ensures forall i :: offset <= i < NextMultiple(end, pageSize) ==> erased[i] == 0xFF
  {
    hide Multiple, NextMultiple, ErasePages;
    var first := NextMultiple(offset, pageSize);
    NextMultipleIsMultiple(offset, pageSize);
    NextMultipleInside(offset, |area|, pageSize);
    var stop: nat;
    erased, stop := ErasePagesClears(area, first, end, pageSize);
    StopIsNextMultiple(offset, end, stop, pageSize);
    forall i | offset <= i < stop
      ensures erased[i] == 0xFF
    {
      assert i < first ==> area[i] == 0xFF;
    }
  }

  /** A write at the end of what the transfer has written so far succeeds, keeps all of it, and leaves a
      clean tail for the next one. Every word it programs was erased, and no earlier page is erased again. */
  lemma WriteAppends(area: seq<byte>, pageSize: nat, offset: nat, data: seq<byte>)
    requires pageSize >= 1 && Multiple(|area|, pageSize) && CleanTail(area, offset, pageSize)
    requires Multiple(offset, WORD_BYTES) && Multiple(|data|, WORD_BYTES) && offset + |data| <= |area|
    ensures var r := DfuWrite(area, pageSize, offset, data);
            && r.Written? && r.area[..offset] == area[..offset] && r.area[offset..offset + |data|] == data
            && CleanTail(r.area, offset + |data|, pageSize)
  {
    hide Multiple, NextMultiple, ErasePages;
    var end := offset + |data|;
    var erased := EraseForWrite(area, pageSize, offset, end);
    var after := Program(erased, offset, data);
    assert AllErased(erased[offset..end]);
    assert DfuWrite(area, pageSize, offset, data) == Written(after);
    assert after[..offset] == erased[..offset];
    assert forall i :: end <= i < |area| ==> after[i] == erased[i];
  }

  lemma StopIsNextMultiple(offset: nat, end: nat, stop: nat, pageSize: nat)
    requires pageSize >= 1 && Multiple(stop, pageSize) && offset <= end
    requires var first := NextMultiple(offset, pageSize);
             if first < end then end <= stop < end + pageSize else stop == first
    ensures stop == NextMultiple(end, pageSize) >= end
  {
    if NextMultiple(offset, pageSize) >= end {
      NextMultipleWithin(offset, end, pageSize);
    } else {
      NextMultipleIsMultiple(end, pageSize);
      MultiplesApart(NextMultiple(end, pageSize), stop, pageSize);
    }
  }

  // ---- The update task: messages in, flash out ----

  datatype Board = Board(receiver: Receiver, area: seq<byte>)

  /** The offset of chunk `counter`. */
  function ChunkStart(counter: nat): nat {
    6 * counter
  }

  /** The sender's chunk `counter` of an image: bytes `6 * counter` up to `6 * counter + 6`. */
  function Chunk(image: nat -> byte, counter: nat): (c: seq<byte>)
    ensures |c| == CHUNK_BYTES
  {
    ImageBytes(image, ChunkStart(counter), CHUNK_BYTES)
  }

  function ImageBytes(image: nat -> byte, from: nat, len: nat): (s: seq<byte>)
    ensures |s| == len && forall i :: 0 <= i < len ==> s[i] == image(from + i)
  {
    seq(len, i requires 0 <= i => image(from + i))
  }

  function OnDataMessage(b: Board, counter: nat, chunk: seq<byte>, pageSize: nat): Board
    requires b.receiver.Valid() && |chunk| == CHUNK_BYTES && pageSize >= 1 && Multiple(|b.area|, pageSize)
  {
    var (r, outcome) := b.receiver.OnData(counter, chunk);
    if outcome.Accepted? && outcome.write.Some? then
      match DfuWrite(b.area, pageSize, outcome.write.value.offset, outcome.write.value.data)
      case Written(area) => Board(r, area)
      case Failed(area, _) => Board(r.Reset(), area)
    else Board(r, b.area)
  }

  /** What the task answers to a chunk. */
  datatype Reply = Silent | Acknowledge(nextCounter: nat) | AssertFault(fault: Fault)

  function ReplyTo(b: Board, counter: nat, chunk: seq<byte>, pageSize: nat): Reply
    requires b.receiver.Valid() && |chunk| == CHUNK_BYTES && pageSize >= 1 && Multiple(|b.area|, pageSize)
  {
    var (r, outcome) := b.receiver.OnData(counter, chunk);
    match outcome
    case OutOfSequence(expected) => Acknowledge(expected)
    case Rejected(fault) => AssertFault(fault)
    case Accepted(None) => Silent
    case Accepted(Some(write)) =>
      match DfuWrite(b.area, pageSize, write.offset, write.data)
      case Written(_) => Acknowledge(r.nextCounter)
      case Failed(_, fault) => AssertFault(fault)
  }

  /** `Applied` is followed by the status mark and the reset into the bootloader. */
  datatype Apply = Applied(length: nat, crc32: u32) | Faulted(fault: Fault)

  function OnApplyMessage(b: Board, length: nat, crc32: u32, crc: Checksum, pageSize: nat): (Board, Apply)
    requires b.receiver.Valid() && pageSize >= 1 && Multiple(|b.area|, pageSize)
  {
    var (r, outcome) := b.receiver.OnApply(length, crc32);
    match outcome
    case Refused(fault) => (Board(r, b.area), Faulted(fault))
    case Verify(flush, _, _) =>
      var w := if flush.Some? then DfuWrite(b.area, pageSize, flush.value.offset, flush.value.data) else Written(b.area);
      match w
      case Failed(area, fault) => (Board(r, area), Faulted(fault))
      case Written(area) =>
        if length > |area| then (Board(r, area), Faulted(FlashInternal))
        else if crc(area[..length]) != crc32 then (Board(r, area), Faulted(CrcMismatch))
        else (Board(r, area), Applied(length, crc32))
  }

  /** The transfer so far: what has been accepted is exactly a prefix of the image, the part up to
      `writeOffset` in flash, the rest staged. */
  ghost predicate Receiving(b: Board, image: nat -> byte, pageSize: nat) {
    var r := b.receiver;
    && r.Valid() && pageSize >= 1 && Multiple(|b.area|, pageSize) && Multiple(|b.area|, WORD_BYTES)
    && r.capacity == |b.area|
    && (!r.active ==> r.nextCounter == 0)
    && ChunkStart(r.nextCounter) == r.writeOffset + r.stagedLen <= |b.area|
    && Multiple(r.writeOffset, WORD_BYTES)
    && b.area[..r.writeOffset] == ImageBytes(image, 0, r.writeOffset)
    && r.staged[..r.stagedLen] == ImageBytes(image, r.writeOffset, r.stagedLen)
    && CleanTail(b.area, r.writeOffset, pageSize)
  }

  lemma ImageBytesJoin(image: nat -> byte, from: nat, n: nat, k: nat)
    ensures ImageBytes(image, from, n) + ImageBytes(image, from + n, k) == ImageBytes(image, from, n + k)
  {
  }

  /** A reset of the receiver keeps the invariant, whatever flash holds: the next transfer starts on a page. */
  lemma ResetKeepsReceiving(b: Board, image: nat -> byte, pageSize: nat)
    requires b.receiver.Valid() && pageSize >= 1 && Multiple(|b.area|, pageSize) && Multiple(|b.area|, WORD_BYTES)
    requires b.receiver.capacity == |b.area|
    ensures Receiving(Board(b.receiver.Reset(), b.area), image, pageSize)
    ensures Receiving(Board(b.receiver.Reset().(active := true), b.area), image, pageSize)
  {
    assert NextMultiple(0, pageSize) == 0;
    assert ImageBytes(image, 0, 0) == [];
  }

  /** One chunk, in sequence and within capacity. */
  lemma AcceptKeepsReceiving(b: Board, image: nat -> byte, pageSize: nat)
    requires Receiving(b, image, pageSize) && b.receiver.active
    requires b.receiver.nextCounter != 0 || b.receiver.Reset().(active := true) == b.receiver
    requires ChunkStart(b.receiver.nextCounter) + CHUNK_BYTES <= |b.area|
    ensures var next := OnDataMessage(b, b.receiver.nextCounter, Chunk(image, b.receiver.nextCounter), pageSize);
            && Receiving(next, image, pageSize) && next.receiver.active
            && next.receiver.nextCounter == b.receiver.nextCounter + 1
  {
    hide Multiple, NextMultiple, CleanTail, DfuWrite, ImageBytes, OnDataMessage;
    var r := b.receiver;
    var filled := StageFills(r, Chunk(image, r.nextCounter), image);
    var next := AcceptedChunk(b, Chunk(image, r.nextCounter), filled, pageSize);
    if next.stagedLen == STAGE_BYTES {
      assert filled[..STAGE_BYTES] == filled;
      var w, after := StageWritten(b, next, filled, image, pageSize);
    } else {
      hide Chunk;
    }
  }

  lemma StageIsWords()
    ensures Multiple(STAGE_BYTES, WORD_BYTES)
  {
  }

  /** A full stage goes to flash. */
  lemma StageWritten(b: Board, next: Receiver, filled: seq<byte>, image: nat -> byte, pageSize: nat)
    returns (w: WriteResult, after: Board)
    requires Receiving(b, image, pageSize) && b.receiver.active && b.receiver.stagedLen + CHUNK_BYTES == STAGE_BYTES
    requires ChunkStart(b.receiver.nextCounter) + CHUNK_BYTES <= |b.area| && |filled| == STAGE_BYTES
    requires filled == ImageBytes(image, b.receiver.writeOffset, STAGE_BYTES)
    requires next == b.receiver.(nextCounter := b.receiver.nextCounter + 1, staged := filled, stagedLen := STAGE_BYTES)
    ensures w == DfuWrite(b.area, pageSize, b.receiver.writeOffset, filled) && w.Written?
    ensures after == Board(next.(writeOffset := b.receiver.writeOffset + STAGE_BYTES, stagedLen := 0), w.area)
    ensures Receiving(after, image, pageSize)
  {
    hide Multiple, NextMultiple, CleanTail, DfuWrite, ImageBytes;
    var r := b.receiver;
    assert filled[..STAGE_BYTES] == filled;
    StageIsWords();
    WriteExtends(b.area, pageSize, r.writeOffset, filled, STAGE_BYTES, image);
    MultipleSum(r.writeOffset, STAGE_BYTES, WORD_BYTES);
    NothingStaged(image, r.writeOffset + STAGE_BYTES, filled);
    w := DfuWrite(b.area, pageSize, r.writeOffset, filled);
    after := Board(next.(writeOffset := r.writeOffset + STAGE_BYTES, stagedLen := 0), w.area);
  }

  /** What an accepted chunk does: it is staged, and a full stage is written. */
  lemma AcceptedChunk(b: Board, chunk: seq<byte>, filled: seq<byte>, pageSize: nat) returns (next: Receiver)
    requires b.receiver.Valid() && |chunk| == CHUNK_BYTES && pageSize >= 1 && Multiple(|b.area|, pageSize)
    requires b.receiver.active && b.receiver.writeOffset + b.receiver.stagedLen + CHUNK_BYTES <= b.receiver.capacity
    requires b.receiver.nextCounter != 0 || b.receiver.Reset().(active := true) == b.receiver
    requires var r := b.receiver; filled == r.staged[..r.stagedLen] + chunk + r.staged[r.stagedLen + CHUNK_BYTES..]
    ensures var r := b.receiver;
            next == r.(nextCounter := r.nextCounter + 1, staged := filled, stagedLen := r.stagedLen + CHUNK_BYTES)
    ensures var r, after := b.receiver, OnDataMessage(b, b.receiver.nextCounter, chunk, pageSize);
            if next.stagedLen == STAGE_BYTES then
              var w := DfuWrite(b.area, pageSize, r.writeOffset, filled);
              w.Written? ==> after == Board(next.(writeOffset := r.writeOffset + STAGE_BYTES, stagedLen := 0), w.area)
            else after == Board(next, b.area)
  {
    hide DfuWrite, Multiple;
    var r := b.receiver;
    next := r.(nextCounter := r.nextCounter + 1, staged := filled, stagedLen := r.stagedLen + CHUNK_BYTES);
  }

  /** The staged chunks and the next one are the next bytes of the image. */
  lemma StageFills(r: Receiver, chunk: seq<byte>, image: nat -> byte) returns (filled: seq<byte>)
    requires r.Valid() && |chunk| == CHUNK_BYTES
    requires r.staged[..r.stagedLen] == ImageBytes(image, r.writeOffset, r.stagedLen)
    requires chunk == ImageBytes(image, r.writeOffset + r.stagedLen, CHUNK_BYTES)
    ensures filled == r.staged[..r.stagedLen] + chunk + r.staged[r.stagedLen + CHUNK_BYTES..] && |filled| == STAGE_BYTES
    ensures filled[..r.stagedLen + CHUNK_BYTES] == ImageBytes(image, r.writeOffset, r.stagedLen + CHUNK_BYTES)
  {
    filled := r.staged[..r.stagedLen] + chunk + r.staged[r.stagedLen + CHUNK_BYTES..];
    ImageBytesJoin(image, r.writeOffset, r.stagedLen, CHUNK_BYTES);
    hide ImageBytes;
    assert filled[..r.stagedLen + CHUNK_BYTES] == r.staged[..r.stagedLen] + chunk;
  }

  lemma NothingStaged(image: nat -> byte, from: nat, staged: seq<byte>)
    ensures staged[..0] == ImageBytes(image, from, 0)
  {
  }

  /** A write whose first `len` bytes are the next ones of the image extends the part of the image in flash. */
  lemma WriteExtends(area: seq<byte>, pageSize: nat, offset: nat, data: seq<byte>, len: nat, image: nat -> byte)
    requires pageSize >= 1 && Multiple(|area|, pageSize) && CleanTail(area, offset, pageSize)
    requires Multiple(offset, WORD_BYTES) && Multiple(|data|, WORD_BYTES) && offset + |data| <= |area| && len <= |data|
    requires area[..offset] == ImageBytes(image, 0, offset) && data[..len] == ImageBytes(image, offset, len)
    ensures var r := DfuWrite(area, pageSize, offset, data);
            && r.Written? && r.area[..offset + len] == ImageBytes(image, 0, offset + len)
            && CleanTail(r.area, offset + |data|, pageSize)
  {
    WriteAppends(area, pageSize, offset, data);
    ImageBytesJoin(image, 0, offset, len);
    hide DfuWrite, CleanTail, ImageBytes;
    PrefixGrows(DfuWrite(area, pageSize, offset, data).area, offset, data, len);
  }

  lemma PrefixGrows(area: seq<byte>, offset: nat, data: seq<byte>, len: nat)
    requires offset + |data| <= |area| && len <= |data| && area[offset..offset + |data|] == data
    ensures area[..offset + len] == area[..offset] + data[..len]
  {
    assert data[..len] == area[offset..offset + |data|][..len] == area[offset..offset + len];
  }

  /** Any chunk, in whatever order it arrives: lost, repeated, late or restarting the transfer. */
  lemma DataKeepsReceiving(b: Board, counter: nat, image: nat -> byte, pageSize: nat)
    requires Receiving(b, image, pageSize)
    ensures Receiving(OnDataMessage(b, counter, Chunk(image, counter), pageSize), image, pageSize)
  {
    hide Multiple, NextMultiple, ErasePages, CleanTail, DfuWrite;
    ResetKeepsReceiving(b, image, pageSize);
    if counter == 0 {
      var started := Board(b.receiver.Reset().(active := true), b.area);
      if CHUNK_BYTES <= |b.area| {
        AcceptKeepsReceiving(started, image, pageSize);
        FirstChunkRestarts(b, Chunk(image, 0), pageSize);
      }
    } else if b.receiver.active && counter == b.receiver.nextCounter {
      if ChunkStart(counter) + CHUNK_BYTES <= |b.area| {
        AcceptKeepsReceiving(b, image, pageSize);
      }
    }
  }

  /** What the sender learns from the answer to a chunk. Out of sequence, nothing changes and it is told the chunk to
      send. In sequence, the chunk that completes a stage is acknowledged, and then every chunk up to it is in flash.
      A fault means that the image does not fit, and never that flash refused a write. */
  lemma ReplyMeans(b: Board, counter: nat, image: nat -> byte, pageSize: nat)
    requires Receiving(b, image, pageSize)
    ensures var r, chunk := b.receiver, Chunk(image, counter);
            var next, reply := OnDataMessage(b, counter, chunk, pageSize), ReplyTo(b, counter, chunk, pageSize);
            var inSequence, fits := counter == 0 || (r.active && counter == r.nextCounter), ChunkStart(counter + 1) <= |b.area|;
            && (reply.Acknowledge? ==> reply.nextCounter == next.receiver.nextCounter)
            && (!inSequence ==> reply.Acknowledge? && next == b)
            && (reply.AssertFault? <==> inSequence && !fits) && (reply.AssertFault? ==> reply.fault == ImageTooLarge)
            && (inSequence && reply.Acknowledge? ==>
                  reply.nextCounter == counter + 1
                  && ChunkStart(counter + 1) <= |next.area|
                  && next.area[..ChunkStart(counter + 1)] == ImageBytes(image, 0, ChunkStart(counter + 1)))
            && (inSequence && fits ==>
                  (reply.Acknowledge? <==> (if counter == 0 then 0 else r.stagedLen) + CHUNK_BYTES == STAGE_BYTES))
  {
    hide Multiple, NextMultiple, CleanTail, DfuWrite, ImageBytes, OnDataMessage;
    var started := Board(b.receiver.Reset().(active := true), b.area);
    ResetKeepsReceiving(b, image, pageSize);
    if counter != 0 && !(b.receiver.active && counter == b.receiver.nextCounter) {
      OutOfSequenceKeeps(b, counter, Chunk(image, counter), pageSize);
    } else {
      FirstChunkRestarts(b, Chunk(image, 0), pageSize);
      if ChunkStart(counter + 1) <= |b.area| {
        InSequenceReply(if counter == 0 then started else b, image, pageSize);
      }
    }
  }

  lemma OutOfSequenceKeeps(b: Board, counter: nat, chunk: seq<byte>, pageSize: nat)
    requires b.receiver.Valid() && |chunk| == CHUNK_BYTES && pageSize >= 1 && Multiple(|b.area|, pageSize)
    requires counter != 0 && !(b.receiver.active && counter == b.receiver.nextCounter)
    ensures OnDataMessage(b, counter, chunk, pageSize) == b
  {
  }

  /** The first chunk restarts the transfer, whatever came before. */
  lemma FirstChunkRestarts(b: Board, chunk: seq<byte>, pageSize: nat)
    requires b.receiver.Valid() && |chunk| == CHUNK_BYTES && pageSize >= 1 && Multiple(|b.area|, pageSize)
    ensures var started := Board(b.receiver.Reset().(active := true), b.area);
            && OnDataMessage(b, 0, chunk, pageSize) == OnDataMessage(started, 0, chunk, pageSize)
            && ReplyTo(b, 0, chunk, pageSize) == ReplyTo(started, 0, chunk, pageSize)
  {
    hide DfuWrite, Multiple;
  }

  lemma InSequenceReply(b: Board, image: nat -> byte, pageSize: nat)
    requires Receiving(b, image, pageSize) && b.receiver.active
    requires b.receiver.nextCounter != 0 || b.receiver.Reset().(active := true) == b.receiver
    requires ChunkStart(b.receiver.nextCounter) + CHUNK_BYTES <= |b.area|
    ensures var r := b.receiver;
            var chunk := Chunk(image, r.nextCounter);
            var next, reply := OnDataMessage(b, r.nextCounter, chunk, pageSize), ReplyTo(b, r.nextCounter, chunk, pageSize);
            var end := ChunkStart(r.nextCounter + 1);
            if r.stagedLen + CHUNK_BYTES == STAGE_BYTES then
              reply == Acknowledge(r.nextCounter + 1) && next.receiver.nextCounter == r.nextCounter + 1
              && |next.area| == |b.area| && next.area[..end] == ImageBytes(image, 0, end)
            else reply == Silent
  {
    hide Multiple, NextMultiple, CleanTail, DfuWrite, ImageBytes, OnDataMessage;
    var r := b.receiver;
    var filled := StageFills(r, Chunk(image, r.nextCounter), image);
    var next := AcceptedChunk(b, Chunk(image, r.nextCounter), filled, pageSize);
    AcceptKeepsReceiving(b, image, pageSize);
    if next.stagedLen == STAGE_BYTES {
      assert filled[..STAGE_BYTES] == filled;
      var w, after := StageWritten(b, next, filled, image, pageSize);
    }
  }

  /** The 16-bit chunk counter: with a capacity below `6 * 65536` bytes, an accepted chunk never has the
      last counter value, so the increment cannot overflow. */
  lemma CounterFits(b: Board, counter: u16, image: nat -> byte, pageSize: nat)
    requires Receiving(b, image, pageSize) && |b.area| < ChunkStart(0x1_0000)
    requires b.receiver.OnData(counter, Chunk(image, counter)).1.Accepted?
    ensures counter as nat + 1 < 0x1_0000
  {
  }

  /** A successful apply leaves the first `length` bytes of the DFU area equal to the image, its flush
      included, and is the only way the image is handed to the bootloader. */
  lemma ApplyDelivers(b: Board, length: nat, crc32: u32, crc: Checksum, image: nat -> byte, pageSize: nat)
    requires Receiving(b, image, pageSize)
    ensures var (next, applied) := OnApplyMessage(b, length, crc32, crc, pageSize);
            && Receiving(next, image, pageSize)
            && (applied.Applied? ==> length <= |next.area| && next.area[..length] == ImageBytes(image, 0, length))
            && (applied.Applied? <==> b.receiver.Complete(length) && crc(ImageBytes(image, 0, length)) == crc32)
  {
    hide Multiple, NextMultiple, ErasePages, CleanTail, DfuWrite;
    var (next, applied) := OnApplyMessage(b, length, crc32, crc, pageSize);
    ResetKeepsReceiving(next, image, pageSize);
    var r := b.receiver;
    if r.Complete(length) {
      if r.stagedLen > 0 {
        FlushDelivers(b, length, image, pageSize);
      } else {
        ImagePrefix(image, 0, r.writeOffset, length);
        assert b.area[..length] == b.area[..r.writeOffset][..length];
      }
    }
  }

  lemma FlushDelivers(b: Board, length: nat, image: nat -> byte, pageSize: nat)
    requires Receiving(b, image, pageSize) && b.receiver.Complete(length) && b.receiver.stagedLen > 0
    ensures var r := b.receiver;
            var padded := r.staged[..r.stagedLen] + Erased(STAGE_BYTES - r.stagedLen);
            var w := DfuWrite(b.area, pageSize, r.writeOffset, padded[..NextMultiple(length - r.writeOffset, WORD_BYTES)]);
            w.Written? && length <= |w.area| && w.area[..length] == ImageBytes(image, 0, length)
  {
    var r := b.receiver;
    var tail := length - r.writeOffset;
    var len := NextMultiple(tail, WORD_BYTES);
    TailFits(tail, r.writeOffset, |b.area|);
    assert Multiple(r.writeOffset, WORD_BYTES) && tail <= r.stagedLen;
    hide Multiple, NextMultiple, CleanTail, DfuWrite, ImageBytes;
    var data := (r.staged[..r.stagedLen] + Erased(STAGE_BYTES - r.stagedLen))[..len];
    ImagePrefix(image, r.writeOffset, r.stagedLen, tail);
    assert data[..tail] == r.staged[..r.stagedLen][..tail];
    WriteExtends(b.area, pageSize, r.writeOffset, data, tail, image);
  }

  lemma ImagePrefix(image: nat -> byte, from: nat, n: nat, k: nat)
    requires k <= n
    ensures ImageBytes(image, from, n)[..k] == ImageBytes(image, from, k)
  {
  }

  /** The tail of an image, rounded up to whole words, fits the stage buffer and the area. */
  lemma TailFits(tail: nat, offset: nat, size: nat)
    requires 0 < tail <= 18 && offset + tail <= size && Multiple(offset, WORD_BYTES) && Multiple(size, WORD_BYTES)
    ensures var len := NextMultiple(tail, WORD_BYTES);
            tail <= len <= STAGE_BYTES && Multiple(len, WORD_BYTES) && offset + len <= size
  {
  }

  // ---- All runs ----

  datatype Message = Data(counter: nat) | ApplyImage(length: nat, crc32: u32)

  function OnMessage(b: Board, m: Message, image: nat -> byte, crc: Checksum, pageSize: nat): Board
    requires b.receiver.Valid() && pageSize >= 1 && Multiple(|b.area|, pageSize)
  {
    match m
    case Data(counter) => OnDataMessage(b, counter, Chunk(image, counter), pageSize)
    case ApplyImage(length, crc32) => OnApplyMessage(b, length, crc32, crc, pageSize).0
  }

  /** The boards a run of messages goes through, the first included. */
  ghost predicate IsRun(boards: seq<Board>, messages: seq<Message>, image: nat -> byte, crc: Checksum, pageSize: nat)
    requires pageSize >= 1
  {
    && |boards| == |messages| + 1
    && (forall i :: 0 <= i < |boards| ==> boards[i].receiver.Valid() && Multiple(|boards[i].area|, pageSize))
    && (forall i :: 0 <= i < |messages| ==> boards[i + 1] == OnMessage(boards[i], messages[i], image, crc, pageSize))
  }

  /** Whatever chunks of one image arrive and in whatever order, an apply that succeeds at any point of the
      run leaves exactly the image in flash. */
  lemma {:induction false} RunsDeliver(
    boards: seq<Board>, messages: seq<Message>, image: nat -> byte, crc: Checksum, pageSize: nat, i: nat,
    length: nat, crc32: u32)
    requires pageSize >= 1 && IsRun(boards, messages, image, crc, pageSize) && i < |boards|
    requires Receiving(boards[0], image, pageSize)
    ensures Receiving(boards[i], image, pageSize)
    ensures var (next, applied) := OnApplyMessage(boards[i], length, crc32, crc, pageSize);
            applied.Applied? ==> length <= |next.area| && next.area[..length] == ImageBytes(image, 0, length)
  {
    hide Receiving, OnApplyMessage, OnDataMessage;
    if i > 0 {
      RunsDeliver(boards, messages, image, crc, pageSize, i - 1, length, crc32);
      match messages[i - 1]
      case Data(counter) => DataKeepsReceiving(boards[i - 1], counter, image, pageSize);
      case ApplyImage(l, c) => ApplyDelivers(boards[i - 1], l, c, crc, image, pageSize);
    }
    ApplyDelivers(boards[i], length, crc32, crc, image, pageSize);
  }

  /** Chunks that all arrive in order are all accepted, up to the capacity: from any state of the link the
      sender can always complete a transfer. */
  lemma {:induction false} InOrderArrives(
    boards: seq<Board>, messages: seq<Message>, image: nat -> byte, crc: Checksum, pageSize: nat, n: nat)
    requires pageSize >= 1 && IsRun(boards, messages, image, crc, pageSize)
    requires forall k :: 0 <= k < |messages| ==> messages[k] == Data(k)
    requires Receiving(boards[0], image, pageSize) && 1 <= n <= |messages| && ChunkStart(n) <= |boards[0].area|
    ensures Receiving(boards[n], image, pageSize) && boards[n].receiver.active && boards[n].receiver.nextCounter == n
    ensures |boards[n].area| == |boards[0].area|
  {
    hide Receiving, OnDataMessage, OnApplyMessage, Multiple, Chunk;
    var prev := boards[n - 1];
    assert messages[n - 1] == Data(n - 1);
    assert boards[n - 1 + 1] == OnDataMessage(prev, n - 1, Chunk(image, n - 1), pageSize);
    if n == 1 {
      RestartArrives(prev, image, pageSize);
    } else {
      InOrderArrives(boards, messages, image, crc, pageSize, n - 1);
      AcceptKeepsReceiving(prev, image, pageSize);
      AreaKeepsSize(prev, n - 1, Chunk(image, n - 1), pageSize);
    }
  }

  lemma RestartArrives(b: Board, image: nat -> byte, pageSize: nat)
    requires Receiving(b, image, pageSize) && CHUNK_BYTES <= |b.area|
    ensures var next := OnDataMessage(b, 0, Chunk(image, 0), pageSize);
            Receiving(next, image, pageSize) && next.receiver.active && next.receiver.nextCounter == 1 && |next.area| == |b.area|
  {
    hide Multiple, CleanTail, DfuWrite, OnDataMessage, ImageBytes, Chunk;
    ResetKeepsReceiving(b, image, pageSize);
    FirstChunkRestarts(b, Chunk(image, 0), pageSize);
    AcceptKeepsReceiving(Board(b.receiver.Reset().(active := true), b.area), image, pageSize);
    AreaKeepsSize(b, 0, Chunk(image, 0), pageSize);
  }

  lemma AreaKeepsSize(b: Board, counter: nat, chunk: seq<byte>, pageSize: nat)
    requires b.receiver.Valid() && |chunk| == CHUNK_BYTES && pageSize >= 1 && Multiple(|b.area|, pageSize)
    ensures |OnDataMessage(b, counter, chunk, pageSize).area| == |b.area|
  {
    hide DfuWrite, Receiver.OnData, Multiple;
  }

  /** What an apply answers to a transfer of `n` chunks: the last chunk may be padded, so the lengths that fit are those
      that end in it. */
  lemma ApplyAnswers(b: Board, n: nat, length: nat, crc32: u32, crc: Checksum, image: nat -> byte, pageSize: nat)
    requires Receiving(b, image, pageSize) && b.receiver.active && b.receiver.nextCounter == n >= 1
    ensures OnApplyMessage(b, length, crc32, crc, pageSize).1 ==
            if 6 * (n - 1) < length <= 6 * n then
              if crc32 == crc(ImageBytes(image, 0, length)) then Applied(length, crc32) else Faulted(CrcMismatch)
            else Faulted(LengthMismatch)
  {
    hide Multiple, NextMultiple, ErasePages, CleanTail, DfuWrite, ImageBytes;
    var r := b.receiver;
    if 6 * (n - 1) < length <= 6 * n {
      if r.stagedLen > 0 {
        FlushDelivers(b, length, image, pageSize);
      } else {
        ImagePrefix(image, 0, r.writeOffset, length);
        assert b.area[..length] == b.area[..r.writeOffset][..length];
      }
    }
  }

  /** A transfer whose chunks 0, 1, ..., n - 1 arrive in order, after whatever went before, is accepted for exactly the
      lengths that end in its last chunk, if the checksum is that of the image. */
  lemma TransferIsAccepted(
    boards: seq<Board>, messages: seq<Message>, image: nat -> byte, crc: Checksum, pageSize: nat, n: nat, length: nat, crc32: u32)
    requires pageSize >= 1 && IsRun(boards, messages, image, crc, pageSize)
    requires forall k :: 0 <= k < |messages| ==> messages[k] == Data(k)
    requires Receiving(boards[0], image, pageSize) && 1 <= n <= |messages| && ChunkStart(n) <= |boards[0].area|
    ensures OnApplyMessage(boards[n], length, crc32, crc, pageSize).1 ==
            if 6 * (n - 1) < length <= 6 * n then
              if crc32 == crc(ImageBytes(image, 0, length)) then Applied(length, crc32) else Faulted(CrcMismatch)
            else Faulted(LengthMismatch)
  {
    InOrderArrives(boards, messages, image, crc, pageSize, n);
    hide IsRun, Receiving, OnApplyMessage;
    ApplyAnswers(boards[n], n, length, crc32, crc, image, pageSize);
  }

  /** An apply, whatever its answer, ends the transfer: until the first chunk of another arrives every chunk is asked to
      start over and every apply refused. */
  lemma ApplyEndsTransfer(b: Board, length: nat, crc32: u32, crc: Checksum, pageSize: nat)
    requires b.receiver.Valid() && pageSize >= 1 && Multiple(|b.area|, pageSize)
    ensures var next := OnApplyMessage(b, length, crc32, crc, pageSize).0;
            && next.receiver.Valid() && |next.area| == |b.area|
            && (forall counter: nat, chunk: seq<byte> :: counter >= 1 && |chunk| == CHUNK_BYTES ==>
                  OnDataMessage(next, counter, chunk, pageSize) == next
                  && ReplyTo(next, counter, chunk, pageSize) == Acknowledge(0))
            && (forall l: nat, c: u32 :: OnApplyMessage(next, l, c, crc, pageSize).1 == Faulted(LengthMismatch))
  {
    hide DfuWrite, Multiple, NextMultiple;
  }

  /** The bound of `CounterFits` is exact: with that much capacity, 65536 chunks in order leave the
      counter at a value 16 bits cannot hold. */
  lemma CounterOverflowsFrom(
    boards: seq<Board>, messages: seq<Message>, image: nat -> byte, crc: Checksum, pageSize: nat)
    requires pageSize >= 1 && IsRun(boards, messages, image, crc, pageSize) && |messages| == 0x1_0000
    requires forall k :: 0 <= k < |messages| ==> messages[k] == Data(k)
    requires Receiving(boards[0], image, pageSize) && |boards[0].area| >= ChunkStart(0x1_0000)
    ensures boards[0x1_0000].receiver.active && boards[0x1_0000].receiver.nextCounter == U16_LIMIT
  {
    InOrderArrives(boards, messages, image, crc, pageSize, 0x1_0000);
  }
}
