/** The record page in flash, read and written in place. */
module RecordPages {
  import opened Bytes
  import opened Multiples
  import opened RecordLog
  import opened Wrappers

  /** Fills `buf` with the record of a payload, zeros after it, and returns the record's length. */
  method EncodeRecord(payload: seq<byte>, version: u16, crc: Checksum, buf: array<byte>) returns (len: nat)
    requires |payload| <= SLOT_BYTES - HEADER_BYTES - CRC_BYTES && buf.Length == SLOT_BYTES
    requires forall i :: 0 <= i < buf.Length ==> buf[i] == 0
    modifies buf
    ensures len == |Record(payload, version, crc)| && buf[..] == Buffer(Record(payload, version, crc))
  {
    var used := |payload|;
    Copy(buf, HEADER_BYTES, payload);
    Copy(buf, 0, U16ToLe(version));
    Copy(buf, 2, U16ToLe(used));
    var crcAt := HEADER_BYTES + used;
    assert buf[..crcAt] == Body(payload, version);
    var check := crc(buf[..crcAt]);
    Copy(buf, crcAt, U32ToLe(check));
    assert buf[..crcAt + CRC_BYTES] == Record(payload, version, crc);
    assert buf[..] == buf[..crcAt + CRC_BYTES] + buf[crcAt + CRC_BYTES..];
    len := crcAt + CRC_BYTES;
  }

  method Copy(buf: array<byte>, at: nat, bytes: seq<byte>)
    requires at + |bytes| <= buf.Length
    modifies buf
    ensures buf[..] == old(buf[..at]) + bytes + old(buf[at + |bytes|..])
    ensures forall i :: 0 <= i < buf.Length && !(at <= i < at + |bytes|) ==> buf[i] == old(buf[i])
  {
    ghost var before := buf[..];
    for i := 0 to |bytes|
      invariant buf[..] == before[..at] + bytes[..i] + before[at + i..]
    {
      buf[at + i] := bytes[i];
    }
    assert bytes[..|bytes|] == bytes;
  }

  class RecordPage {
    const slots: array<Slot>
    var erases: nat

    ghost function View(): Page
      reads this, slots
    {
      Page(slots[..], erases)
    }

    constructor (slots: array<Slot>)
      requires slots.Length >= 1
      ensures this.slots == slots && erases == 0
    {
      this.slots, erases := slots, 0;
    }

    /** Looks no further than the first erased slot: none is written after it. */
    method ScanPage(crc: Checksum) returns (scan: PageScan)
      ensures scan == Scan(slots[..], crc)
    {
      scan := PageScan(None, None);
      var slot := 0;
      while slot < slots.Length
        invariant 0 <= slot <= slots.Length && scan.freeSlot == None
        invariant Scan(slots[..], crc) == ScanFrom(slots[..], slot, scan.latest, crc)
      {
        match StateOf(slots[slot], crc) {
          case Empty =>
            scan := scan.(freeSlot := Some(slot));
            return;
          case Intact => scan := scan.(latest := Some(slots[slot]));
          case Corrupt =>
        }
        slot := slot + 1;
      }
    }

    method LoadRecord<V>(version: u16, crc: Checksum, codec: Codec<V>) returns (r: LoadResult<V>)
      ensures r == Load(slots[..], version, crc, codec)
    {
      var scan := ScanPage(crc);
      match scan.latest {
        case Some(record) => r := DecodeRecord(record, version, codec);
        case None =>
          if scan.freeSlot == Some(0) {
            r := Loaded(None);
          } else {
            r := LoadFailed(CorruptedData);
          }
      }
    }

    method ErasePage()
      modifies this`erases, slots
      ensures View() == Page(ErasedSlots(slots.Length), old(erases) + 1)
    {
      for i := 0 to slots.Length
        invariant slots[..i] == ErasedSlots(slots.Length)[..i] && erases == old(erases)
      {
        slots[i] := Erased(SLOT_BYTES);
      }
      erases := erases + 1;
      assert slots[..] == ErasedSlots(slots.Length);
    }

    /** One record per call. `cut` says where the power fails, if it does. */
    method StoreRecord<V>(version: u16, v: V, crc: Checksum, codec: Codec<V>, word: nat, cut: Cut) returns (r: StoreResult)
      requires slots.Length >= 1 && 1 <= word && Multiple(SLOT_BYTES, word)
      modifies this`erases, slots
      ensures (View(), r) == Store(old(View()), version, v, crc, codec, word, cut)
    {
      hide Record, Multiple, Buffer, WrittenSlot, Scan;
      var payload := codec.encode(v);
      if |payload| > SLOT_BYTES - HEADER_BYTES - CRC_BYTES {
        return StoreFailed(TooLarge);
      }
      var buf := new byte[SLOT_BYTES](i => 0);
      var len := EncodeRecord(payload, version, crc, buf);
      NextMultipleInside(len, SLOT_BYTES, word);
      var writeLen := NextMultiple(len, word);
      var scan := ScanPage(crc);
      if Unchanged(scan, buf[..], writeLen) {
        return Stored;
      }
      var slot: nat;
      if scan.freeSlot.Some? {
        slot := scan.freeSlot.value;
      } else {
        ErasePage();
        slot := 0;
      }
      if cut.AfterErase? {
        return PowerLost;
      }
      slots[slot] := WrittenSlot(buf[..], writeLen, cut);
      r := if cut.NoCut? then Stored else PowerLost;
    }
  }
}
