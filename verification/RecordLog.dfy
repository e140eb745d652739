/** The append-only record page: firmware-core/src/app/config.rs.

    A page is `S` slots of 128 bytes. A record is written into the first erased slot and the page is erased
    only when it is full. Serialization is a parameter: `encode` never fails by itself, `decode` also
    returns what it did not consume. */
module RecordLog {
  import opened Bytes
  import opened Multiples
  import opened Wrappers

  const SLOT_BYTES: nat := 128
  const HEADER_BYTES: nat := 4
  const CRC_BYTES: nat := 4

  type Slot = s: seq<byte> | |s| == 128 witness Erased(128)

  datatype Codec<!V> = Codec(encode: V -> seq<byte>, decode: seq<byte> -> Option<(V, seq<byte>)>)
  {
    ghost predicate Inverts(v: V) {
      decode(encode(v)) == Some((v, []))
    }

    predicate Fits(v: V) {
      |encode(v)| <= SLOT_BYTES - HEADER_BYTES - CRC_BYTES
    }
  }

  // ---- Records ----

  /** Everything the checksum covers. */
  function Body(payload: seq<byte>, version: u16): (b: seq<byte>)
    requires |payload| < U16_LIMIT
    ensures |b| == HEADER_BYTES + |payload|
  {
    U16ToLe(version) + U16ToLe(|payload|) + payload
  }

  function Record(payload: seq<byte>, version: u16, crc: Checksum): (r: seq<byte>)
    requires |payload| < U16_LIMIT
    ensures |r| == HEADER_BYTES + |payload| + CRC_BYTES
  {
    Body(payload, version) + U32ToLe(crc(Body(payload, version)))
  }

  datatype RecordState = Empty | Corrupt | Intact

  function StateOf(slot: Slot, crc: Checksum): RecordState {
    if AllErased(slot) then Empty
    else
      var crcAt := HEADER_BYTES + U16FromLe(slot[2..4]);
      if crcAt + CRC_BYTES > SLOT_BYTES then Corrupt
      else if crc(slot[..crcAt]) == U32FromLe(slot[crcAt..crcAt + CRC_BYTES]) then Intact
      else Corrupt
  }

  datatype MemoryFault = CorruptedData | TooLarge | FlashInternal

  datatype LoadResult<+V> = Loaded(value: Option<V>) | LoadFailed(fault: MemoryFault)

  function DecodeRecord<V>(slot: Slot, version: u16, codec: Codec<V>): LoadResult<V> {
    if U16FromLe(slot[0..2]) != version then Loaded(None)
    else
      var end := HEADER_BYTES + U16FromLe(slot[2..4]);
      if end > SLOT_BYTES then LoadFailed(CorruptedData)
      else
        match codec.decode(slot[HEADER_BYTES..end])
        case None => LoadFailed(CorruptedData)
        case Some((value, rest)) => if rest == [] then Loaded(Some(value)) else LoadFailed(CorruptedData)
  }

  const PAYLOAD_BYTES: nat := 120

  /** The slot starts with the record of a payload: version, length, payload and their checksum. */
  predicate Starts(slot: Slot, payload: seq<byte>, version: u16, crc: Checksum) {
    |payload| <= PAYLOAD_BYTES && Record(payload, version, crc) <= slot
  }

  /** The fields of a slot that starts with a record. */
  lemma FieldsOf(slot: Slot, payload: seq<byte>, version: u16, crc: Checksum)
    requires Starts(slot, payload, version, crc)
    ensures slot[0..2] == U16ToLe(version) && U16FromLe(slot[0..2]) == version
    ensures U16FromLe(slot[2..4]) == |payload| && slot[3] == 0
    ensures var end := HEADER_BYTES + |payload|;
            slot[..end] == Body(payload, version) && slot[HEADER_BYTES..end] == payload
            && slot[end..end + CRC_BYTES] == U32ToLe(crc(Body(payload, version)))
  {
    var body, record := Body(payload, version), Record(payload, version, crc);
    assert slot[..|record|] == record;
    assert slot[0..2] == record[0..2] == U16ToLe(version);
    assert slot[2..4] == record[2..4] == U16ToLe(|payload|);
    U16RoundTrip(version);
    U16RoundTrip(|payload|);
    assert slot[3] == U16ToLe(|payload|)[1] == 0;
    assert slot[..|body|] == record[..|body|] == body;
    assert slot[|body|..|body| + 4] == record[|body|..] == U32ToLe(crc(body));
    assert slot[HEADER_BYTES..|body|] == body[HEADER_BYTES..] == payload;
  }

  /** A slot is intact if and only if it starts with a record, whatever the payload and the version. */
  lemma IntactIffRecord(slot: Slot, crc: Checksum)
    ensures StateOf(slot, crc) == Intact <==> exists payload: seq<byte>, version: u16 :: Starts(slot, payload, version, crc)
    ensures StateOf(slot, crc) == Empty <==> AllErased(slot)
  {
    if StateOf(slot, crc) == Intact {
      IntactIsRecord(slot, crc);
    }
    if payload: seq<byte>, version: u16 :| Starts(slot, payload, version, crc) {
      RecordIsIntact(slot, payload, version, crc);
    }
  }

  lemma RecordIsIntact(slot: Slot, payload: seq<byte>, version: u16, crc: Checksum)
    requires Starts(slot, payload, version, crc)
    ensures StateOf(slot, crc) == Intact
  {
    FieldsOf(slot, payload, version, crc);
    U32RoundTrip(crc(Body(payload, version)));
    hide Body, Record;
  }

  lemma IntactIsRecord(slot: Slot, crc: Checksum)
    requires StateOf(slot, crc) == Intact
    ensures Starts(slot, slot[HEADER_BYTES..HEADER_BYTES + U16FromLe(slot[2..4])], U16FromLe(slot[0..2]), crc)
  {
    var end := HEADER_BYTES + U16FromLe(slot[2..4]);
    var payload, version := slot[HEADER_BYTES..end], U16FromLe(slot[0..2]);
    U16BytesBack(slot[0..2]);
    U16BytesBack(slot[2..4]);
    assert slot[..end] == slot[0..2] + slot[2..4] + payload == Body(payload, version);
    U32BytesBack(slot[end..end + CRC_BYTES]);
    assert slot[..end + CRC_BYTES] == slot[..end] + slot[end..end + CRC_BYTES] == Record(payload, version, crc);
  }

  /** No slot starts with two records. */
  lemma OneRecord(slot: Slot, p: seq<byte>, v: u16, q: seq<byte>, w: u16, crc: Checksum)
    requires Starts(slot, p, v, crc) && Starts(slot, q, w, crc)
    ensures p == q && v == w
  {
    FieldsOf(slot, p, v, crc);
    FieldsOf(slot, q, w, crc);
  }

  /** A slot whose first bytes are a record is intact and decodes to the record's value. */
  lemma RecordReadsBack<V>(slot: Slot, v: V, version: u16, crc: Checksum, codec: Codec<V>)
    requires codec.Fits(v) && codec.Inverts(v)
    requires Record(codec.encode(v), version, crc) <= slot
    ensures StateOf(slot, crc) == Intact && DecodeRecord(slot, version, codec) == Loaded(Some(v))
  {
    FieldsOf(slot, codec.encode(v), version, crc);
    RecordIsIntact(slot, codec.encode(v), version, crc);
    hide Body, Record;
  }

  /** Equal records carry equal values. */
  lemma RecordInjective<V>(v: V, w: V, version: u16, crc: Checksum, codec: Codec<V>, slot: Slot)
    requires codec.Fits(v) && codec.Inverts(v) && codec.Fits(w) && codec.Inverts(w)
    requires Record(codec.encode(v), version, crc) <= slot && Record(codec.encode(w), version, crc) <= slot
    ensures v == w
  {
    RecordReadsBack(slot, v, version, crc, codec);
    RecordReadsBack(slot, w, version, crc, codec);
  }

  // ---- The page ----

  /** Slots in use come first. */
  ghost predicate UsedFirst(slots: seq<Slot>, used: nat) {
    && used <= |slots|
    && (forall i :: 0 <= i < used ==> !AllErased(slots[i]))
    && (forall i :: used <= i < |slots| ==> AllErased(slots[i]))
  }

  datatype PageScan = PageScan(latest: Option<Slot>, freeSlot: Option<nat>)

  /** Slots `from`, `from + 1`, ... up to the first erased one, after `latest`. */
  function ScanFrom(slots: seq<Slot>, from: nat, latest: Option<Slot>, crc: Checksum): (scan: PageScan)
    requires from <= |slots|
    ensures scan.freeSlot.Some? ==> scan.freeSlot.value < |slots| && AllErased(slots[scan.freeSlot.value])
    decreases |slots| - from
  {
    if from == |slots| then PageScan(latest, None)
    else
      match StateOf(slots[from], crc)
      case Empty => PageScan(latest, Some(from))
      case Intact => ScanFrom(slots, from + 1, Some(slots[from]), crc)
      case Corrupt => ScanFrom(slots, from + 1, latest, crc)
  }

  function Scan(slots: seq<Slot>, crc: Checksum): (scan: PageScan)
    ensures scan.freeSlot.Some? ==> scan.freeSlot.value < |slots| && AllErased(slots[scan.freeSlot.value])
  {
    ScanFrom(slots, 0, None, crc)
  }

  function Load<V>(slots: seq<Slot>, version: u16, crc: Checksum, codec: Codec<V>): LoadResult<V> {
    var scan := Scan(slots, crc);
    match scan.latest
    case Some(record) => DecodeRecord(record, version, codec)
    case None => if scan.freeSlot == Some(0) then Loaded(None) else LoadFailed(CorruptedData)
  }

  /** The last intact one of the first `used` slots. */
  function Latest(slots: seq<Slot>, used: nat, crc: Checksum): Option<Slot>
    requires used <= |slots|
  {
    if used == 0 then None
    else if StateOf(slots[used - 1], crc) == Intact then Some(slots[used - 1])
    else Latest(slots, used - 1, crc)
  }

  /** The scan finds the last intact slot in use and the first erased slot. */
  lemma {:induction false} ScanFinds(slots: seq<Slot>, used: nat, from: nat, crc: Checksum)
    requires UsedFirst(slots, used) && from <= used
    ensures ScanFrom(slots, from, Latest(slots, from, crc), crc)
         == PageScan(Latest(slots, used, crc), if used < |slots| then Some(used) else None)
    decreases used - from
  {
    if from < used {
      ScanFinds(slots, used, from + 1, crc);
    }
  }

  lemma {:induction false} LatestFrame(slots: seq<Slot>, slots': seq<Slot>, used: nat, crc: Checksum)
    requires used <= |slots| && used <= |slots'| && slots[..used] == slots'[..used]
    ensures Latest(slots, used, crc) == Latest(slots', used, crc)
  {
    if used > 0 {
      assert slots[..used][used - 1] == slots'[..used][used - 1];
      assert slots[..used - 1] == slots[..used][..used - 1];
      LatestFrame(slots, slots', used - 1, crc);
    }
  }

  // ---- Storing ----

  datatype Page = Page(slots: seq<Slot>, erases: nat)

  /** Where the power fails: after the erase of a full page, or inside the write, with the bytes before `at`
      programmed, then `garbage`, and the rest still erased. */
  datatype Cut = NoCut | AfterErase | InWrite(at: nat, garbage: seq<byte>)

  datatype StoreResult = Stored | StoreFailed(fault: MemoryFault) | PowerLost

  function ErasedSlots(n: nat): (slots: seq<Slot>)
    ensures |slots| == n && forall i :: 0 <= i < n ==> AllErased(slots[i])
  {
    seq(n, i => Erased(SLOT_BYTES))
  }

  /** The record buffer, zero-filled to a whole slot. */
  function Buffer(record: seq<byte>): (buf: Slot)
    requires |record| <= SLOT_BYTES
    ensures record <= buf
  {
    record + seq(SLOT_BYTES - |record|, i => 0)
  }

  /** The slot a write leaves behind, an erased slot before. */
  function WrittenSlot(buf: Slot, writeLen: nat, cut: Cut): (slot: Slot)
    requires writeLen <= SLOT_BYTES
  {
    if cut.InWrite? && cut.at + |cut.garbage| <= writeLen then
      buf[..cut.at] + cut.garbage + Erased(SLOT_BYTES - cut.at - |cut.garbage|)
    else
      buf[..writeLen] + Erased(SLOT_BYTES - writeLen)
  }

  predicate Unchanged(scan: PageScan, buf: Slot, writeLen: nat)
    requires writeLen <= SLOT_BYTES
  {
    scan.latest.Some? && scan.latest.value[..writeLen] == buf[..writeLen]
  }

  function Store<V>(p: Page, version: u16, v: V, crc: Checksum, codec: Codec<V>, word: nat, cut: Cut): (Page, StoreResult)
    requires 1 <= word && Multiple(SLOT_BYTES, word) && |p.slots| >= 1
  {
    if !codec.Fits(v) then (p, StoreFailed(TooLarge))
    else
      var record := Record(codec.encode(v), version, crc);
      NextMultipleInside(|record|, SLOT_BYTES, word);
      var writeLen := NextMultiple(|record|, word);
      var scan := Scan(p.slots, crc);
      var slot := WrittenSlot(Buffer(record), writeLen, cut);
      var result := if cut.NoCut? then Stored else PowerLost;
      if Unchanged(scan, Buffer(record), writeLen) then (p, Stored)
      else
        match scan.freeSlot
        case Some(k) =>
          (if cut.AfterErase? then p else p.(slots := p.slots[k := slot]), result)
        case None =>
          var erased := Page(ErasedSlots(|p.slots|), p.erases + 1);
          (if cut.AfterErase? then erased else erased.(slots := erased.slots[0 := slot]), result)
  }

  // ---- What a store achieves ----

  /** The buffer a store of `v` writes, and how much of it. */
  function BufferOf<V>(v: V, version: u16, crc: Checksum, codec: Codec<V>): (buf: Slot)
    requires codec.Fits(v)
  {
    Buffer(Record(codec.encode(v), version, crc))
  }

  function LenOf<V>(v: V, codec: Codec<V>, word: nat): (n: nat)
    requires codec.Fits(v) && 1 <= word && Multiple(SLOT_BYTES, word)
    ensures n <= SLOT_BYTES
  {
    var len := HEADER_BYTES + |codec.encode(v)| + CRC_BYTES;
    NextMultipleInside(len, SLOT_BYTES, word);
    NextMultiple(len, word)
  }

  function SlotOf<V>(v: V, version: u16, crc: Checksum, codec: Codec<V>, word: nat, cut: Cut): (slot: Slot)
    requires codec.Fits(v) && 1 <= word && Multiple(SLOT_BYTES, word)
  {
    WrittenSlot(BufferOf(v, version, crc, codec), LenOf(v, codec, word), cut)
  }

  predicate Skips<V>(p: Page, version: u16, v: V, crc: Checksum, codec: Codec<V>, word: nat)
    requires codec.Fits(v) && 1 <= word && Multiple(SLOT_BYTES, word)
  {
    Unchanged(Scan(p.slots, crc), BufferOf(v, version, crc, codec), LenOf(v, codec, word))
  }

  /** A slot written to the end starts with the record. */
  lemma WholeWrite<V>(v: V, version: u16, crc: Checksum, codec: Codec<V>, word: nat, cut: Cut)
    requires codec.Fits(v) && 1 <= word && Multiple(SLOT_BYTES, word) && !cut.InWrite?
    ensures Record(codec.encode(v), version, crc) <= SlotOf(v, version, crc, codec, word, cut)
  {
    var record := Record(codec.encode(v), version, crc);
    assert record <= BufferOf(v, version, crc, codec)[..LenOf(v, codec, word)];
  }

  /** Writing a slot after the used ones: it becomes the latest if intact, is passed over if corrupt, and
      is still free if the write never started. */
  lemma AppendSlot(slots: seq<Slot>, used: nat, slot: Slot, crc: Checksum)
    requires UsedFirst(slots, used) && used < |slots|
    ensures var slots' := slots[used := slot];
            var scan := Scan(slots', crc);
            && UsedFirst(slots', if AllErased(slot) then used else used + 1)
            && scan.latest == (if StateOf(slot, crc) == Intact then Some(slot) else Latest(slots, used, crc))
            && (StateOf(slot, crc) != Intact && Scan(slots, crc).latest.Some? ==> scan.latest == Scan(slots, crc).latest)
  {
    var slots' := slots[used := slot];
    ScanFinds(slots, used, 0, crc);
    ScanFinds(slots', if AllErased(slot) then used else used + 1, 0, crc);
    LatestFrame(slots, slots', used, crc);
  }

  /** Used slots stay a prefix and, when the store is not skipped, grow by one or start again at one. */
  function NextUsed(used: nat, slots: nat, skipped: bool): nat {
    if skipped then used else if used < slots then used + 1 else 1
  }

  /** A completed store is what the next load returns, for every page whose used slots come first. */
  lemma StoreLoads<V>(p: Page, used: nat, version: u16, v: V, crc: Checksum, codec: Codec<V>, word: nat)
    requires UsedFirst(p.slots, used) && |p.slots| >= 1
    requires codec.Fits(v) && codec.Inverts(v) && 1 <= word && Multiple(SLOT_BYTES, word)
    ensures var (p', r) := Store(p, version, v, crc, codec, word, NoCut);
            var skips := Skips(p, version, v, crc, codec, word);
            && r == Stored && |p'.slots| == |p.slots|
            && Load(p'.slots, version, crc, codec) == Loaded(Some(v))
            && UsedFirst(p'.slots, NextUsed(used, |p.slots|, skips))
            && p'.erases == p.erases + (if skips || used < |p.slots| then 0 else 1)
            && Scan(p'.slots, crc).latest.Some?
            && Record(codec.encode(v), version, crc) <= Scan(p'.slots, crc).latest.value
  {
    hide UsedFirst, StateOf, DecodeRecord, Multiple;
    var slot := SlotOf(v, version, crc, codec, word, NoCut);
    WholeWrite(v, version, crc, codec, word, NoCut);
    RecordReadsBack(slot, v, version, crc, codec);
    IntactIsUsed(slot, crc);
    ScanFinds(p.slots, used, 0, crc);
    if Skips(p, version, v, crc, codec, word) {
      var latest := Scan(p.slots, crc).latest.value;
      SamePrefix(latest, BufferOf(v, version, crc, codec), LenOf(v, codec, word), Record(codec.encode(v), version, crc));
      RecordReadsBack(latest, v, version, crc, codec);
    } else if used < |p.slots| {
      AppendSlot(p.slots, used, slot, crc);
    } else {
      ErasedIsUnused(|p.slots|);
      AppendSlot(ErasedSlots(|p.slots|), 0, slot, crc);
    }
  }

  lemma IntactIsUsed(slot: Slot, crc: Checksum)
    ensures StateOf(slot, crc) == Intact ==> !AllErased(slot)
  {
  }

  lemma ErasedIsUnused(n: nat)
    ensures UsedFirst(ErasedSlots(n), 0)
  {
  }

  lemma SamePrefix(a: Slot, b: Slot, n: nat, record: seq<byte>)
    requires n <= SLOT_BYTES && a[..n] == b[..n] && record <= b && |record| <= n
    ensures record <= a
  {
    assert a[..|record|] == a[..n][..|record|] == b[..n][..|record|] == b[..|record|];
  }

  /** What a load makes of a page: nothing of an unused one, a fault of one without an intact record, and otherwise the
      last intact record, whose value it gives only if the version is the one asked for and the payload decodes to the
      last byte. */
  lemma LoadMeans<V>(slots: seq<Slot>, used: nat, version: u16, crc: Checksum, codec: Codec<V>)
    requires UsedFirst(slots, used)
    ensures used == 0 && slots != [] ==> Load(slots, version, crc, codec) == Loaded(None)
    ensures used > 0 && (forall i :: 0 <= i < used ==> StateOf(slots[i], crc) != Intact) ==>
      Load(slots, version, crc, codec) == LoadFailed(CorruptedData)
    ensures forall i, payload: seq<byte>, other: u16 ::
      0 <= i < used && Starts(slots[i], payload, other, crc) && (forall j :: i < j < used ==> StateOf(slots[j], crc) != Intact) ==>
        Load(slots, version, crc, codec)
        == if other != version then Loaded(None)
           else if codec.decode(payload).None? || codec.decode(payload).value.1 != [] then LoadFailed(CorruptedData)
           else Loaded(Some(codec.decode(payload).value.0))
  {
    ScanFinds(slots, used, 0, crc);
    NoneIntact(slots, used, crc);
    forall i, payload: seq<byte>, other: u16 |
      0 <= i < used && Starts(slots[i], payload, other, crc) && (forall j :: i < j < used ==> StateOf(slots[j], crc) != Intact)
      ensures Load(slots, version, crc, codec) == DecodeRecord(slots[i], version, codec)
      ensures HEADER_BYTES + U16FromLe(slots[i][2..4]) == HEADER_BYTES + |payload|
      ensures U16FromLe(slots[i][0..2]) == other && slots[i][HEADER_BYTES..HEADER_BYTES + |payload|] == payload
    {
      FieldsOf(slots[i], payload, other, crc);
      RecordIsIntact(slots[i], payload, other, crc);
      LatestIs(slots, used, i, crc);
    }
  }

  lemma {:induction false} NoneIntact(slots: seq<Slot>, used: nat, crc: Checksum)
    requires used <= |slots|
    ensures (forall i :: 0 <= i < used ==> StateOf(slots[i], crc) != Intact) ==> Latest(slots, used, crc) == None
  {
    if used > 0 {
      NoneIntact(slots, used - 1, crc);
    }
  }

  lemma {:induction false} LatestIs(slots: seq<Slot>, used: nat, i: nat, crc: Checksum)
    requires i < used <= |slots| && StateOf(slots[i], crc) == Intact
    requires forall j :: i < j < used ==> StateOf(slots[j], crc) != Intact
    ensures Latest(slots, used, crc) == Some(slots[i])
  {
    if i < used - 1 {
      LatestIs(slots, used - 1, i, crc);
    }
  }

  /** Storing the current value again writes nothing, wherever the power would fail. */
  lemma StoringAgainWritesNothing<V>(p: Page, used: nat, version: u16, v: V, crc: Checksum, codec: Codec<V>, word: nat, cut: Cut)
    requires UsedFirst(p.slots, used) && |p.slots| >= 1
    requires codec.Fits(v) && codec.Inverts(v) && 1 <= word && Multiple(SLOT_BYTES, word)
    ensures var p' := Store(p, version, v, crc, codec, word, NoCut).0;
            Store(p', version, v, crc, codec, word, cut) == (p', Stored)
  {
    hide UsedFirst, StateOf, DecodeRecord, Multiple, Record;
    var slot := SlotOf(v, version, crc, codec, word, NoCut);
    WholeWrite(v, version, crc, codec, word, NoCut);
    RecordReadsBack(slot, v, version, crc, codec);
    IntactIsUsed(slot, crc);
    ScanFinds(p.slots, used, 0, crc);
    if !Skips(p, version, v, crc, codec, word) {
      var buf, n := BufferOf(v, version, crc, codec), LenOf(v, codec, word);
      assert slot[..n] == buf[..n];
      if used < |p.slots| {
        AppendSlot(p.slots, used, slot, crc);
      } else {
        ErasedIsUnused(|p.slots|);
        AppendSlot(ErasedSlots(|p.slots|), 0, slot, crc);
      }
    }
  }

  /** A store fails if and only if the payload does not fit, and then touches nothing. */
  lemma StoreFailsIff<V>(p: Page, version: u16, v: V, crc: Checksum, codec: Codec<V>, word: nat, cut: Cut)
    requires |p.slots| >= 1 && 1 <= word && Multiple(SLOT_BYTES, word)
    ensures var (p', r) := Store(p, version, v, crc, codec, word, cut);
            && (r.StoreFailed? <==> |codec.encode(v)| > PAYLOAD_BYTES)
            && (r.StoreFailed? ==> r.fault == TooLarge && p' == p)
            && (r.PowerLost? ==> cut != NoCut)
  {
  }

  /** A record of another version loads as none. */
  lemma OtherVersionLoadsNone<V>(
    p: Page, used: nat, version: u16, asked: u16, v: V, crc: Checksum, codec: Codec<V>, word: nat)
    requires UsedFirst(p.slots, used) && |p.slots| >= 1 && asked != version
    requires codec.Fits(v) && codec.Inverts(v) && 1 <= word && Multiple(SLOT_BYTES, word)
    ensures Load(Store(p, version, v, crc, codec, word, NoCut).0.slots, asked, crc, codec) == Loaded(None)
  {
    hide UsedFirst, StateOf, Multiple, Record, Store, Scan;
    StoreLoads(p, used, version, v, crc, codec, word);
    var latest := Scan(Store(p, version, v, crc, codec, word, NoCut).0.slots, crc).latest.value;
    FieldsOf(latest, codec.encode(v), version, crc);
  }

  // ---- Power loss ----

  /** The torn bytes are not those of another record: a slot left to start with the record of any payload and version
      starts with that of the stored value. */
  ghost predicate NoCollision<V>(version: u16, v: V, crc: Checksum, codec: Codec<V>, word: nat, cut: Cut)
    requires codec.Fits(v) && 1 <= word && Multiple(SLOT_BYTES, word)
  {
    var slot := SlotOf(v, version, crc, codec, word, cut);
    forall payload: seq<byte>, other: u16 :: Starts(slot, payload, other, crc) ==> payload == codec.encode(v) && other == version
  }

  /** So a torn slot that passes for intact holds the stored value. */
  lemma IntactIsStored<V>(version: u16, v: V, crc: Checksum, codec: Codec<V>, word: nat, cut: Cut)
    requires codec.Fits(v) && 1 <= word && Multiple(SLOT_BYTES, word) && NoCollision(version, v, crc, codec, word, cut)
    ensures var slot := SlotOf(v, version, crc, codec, word, cut);
            StateOf(slot, crc) == Intact ==> Record(codec.encode(v), version, crc) <= slot
  {
    var slot := SlotOf(v, version, crc, codec, word, cut);
    hide SlotOf;
    IntactIffRecord(slot, crc);
    hide StateOf;
  }

  /** A power loss during a store into a page with a free slot and an intact record leaves the old value or
      the new one, and a page whose used slots still come first. */
  lemma PowerLossKeepsOldOrNew<V>(p: Page, used: nat, version: u16, v: V, crc: Checksum, codec: Codec<V>, word: nat, cut: Cut)
    requires UsedFirst(p.slots, used) && used < |p.slots| && Scan(p.slots, crc).latest.Some?
    requires codec.Fits(v) && codec.Inverts(v) && 1 <= word && Multiple(SLOT_BYTES, word)
    requires NoCollision(version, v, crc, codec, word, cut)
    ensures var after := Store(p, version, v, crc, codec, word, cut).0;
            && (Load(after.slots, version, crc, codec) == Load(p.slots, version, crc, codec)
                || Load(after.slots, version, crc, codec) == Loaded(Some(v)))
            && (UsedFirst(after.slots, used) || UsedFirst(after.slots, used + 1))
  {
    hide UsedFirst, StateOf, DecodeRecord, Multiple;
    var slot := SlotOf(v, version, crc, codec, word, cut);
    ScanFinds(p.slots, used, 0, crc);
    if !Skips(p, version, v, crc, codec, word) && !cut.AfterErase? {
      AppendSlot(p.slots, used, slot, crc);
      IntactIsStored(version, v, crc, codec, word, cut);
      if StateOf(slot, crc) == Intact {
        RecordReadsBack(slot, v, version, crc, codec);
      }
    }
  }

  /** A full page is erased before the new record is written: between the two, neither value is there. */
  lemma FullPageLosesValue<V>(p: Page, version: u16, v: V, crc: Checksum, codec: Codec<V>, word: nat)
    requires UsedFirst(p.slots, |p.slots|) && |p.slots| >= 1
    requires codec.Fits(v) && 1 <= word && Multiple(SLOT_BYTES, word) && !Skips(p, version, v, crc, codec, word)
    ensures var (after, r) := Store(p, version, v, crc, codec, word, AfterErase);
            r == PowerLost && Load(after.slots, version, crc, codec) == Loaded(None)
  {
    ScanFinds(p.slots, |p.slots|, 0, crc);
    ErasedIsUnused(|p.slots|);
    ScanFinds(ErasedSlots(|p.slots|), 0, 0, crc);
  }

  /** Exactly when a stored value survives every power loss of the next store: when a slot is free or the
      store is skipped. */
  lemma SurvivesIff<V>(p: Page, used: nat, version: u16, v: V, crc: Checksum, codec: Codec<V>, word: nat)
    requires UsedFirst(p.slots, used) && |p.slots| >= 1
    requires codec.Fits(v) && codec.Inverts(v) && 1 <= word && Multiple(SLOT_BYTES, word)
    requires Load(p.slots, version, crc, codec).Loaded? && Load(p.slots, version, crc, codec).value.Some?
    ensures (forall cut: Cut {:trigger NoCollision(version, v, crc, codec, word, cut)} ::
               NoCollision(version, v, crc, codec, word, cut) ==>
                 Load(Store(p, version, v, crc, codec, word, cut).0.slots, version, crc, codec)
                   in {Load(p.slots, version, crc, codec), Loaded(Some(v))})
       <==> used < |p.slots| || Skips(p, version, v, crc, codec, word)
  {
    hide UsedFirst, StateOf, DecodeRecord, Multiple, NoCollision;
    ScanFinds(p.slots, used, 0, crc);
    if Skips(p, version, v, crc, codec, word) {
    } else if used < |p.slots| {
      forall cut: Cut | NoCollision(version, v, crc, codec, word, cut)
        ensures Load(Store(p, version, v, crc, codec, word, cut).0.slots, version, crc, codec)
                  in {Load(p.slots, version, crc, codec), Loaded(Some(v))}
      {
        PowerLossKeepsOldOrNew(p, used, version, v, crc, codec, word, cut);
      }
    } else {
      UsedAll(p.slots, used);
      FullPageLosesValue(p, version, v, crc, codec, word);
      AfterEraseHasNoCollision(version, v, crc, codec, word);
    }
  }

  lemma UsedAll(slots: seq<Slot>, used: nat)
    requires UsedFirst(slots, used) && used >= |slots|
    ensures used == |slots|
  {
  }

  lemma AfterEraseHasNoCollision<V>(version: u16, v: V, crc: Checksum, codec: Codec<V>, word: nat)
    requires codec.Fits(v) && 1 <= word && Multiple(SLOT_BYTES, word)
    ensures NoCollision(version, v, crc, codec, word, AfterErase)
  {
    var slot := SlotOf(v, version, crc, codec, word, AfterErase);
    WholeWrite(v, version, crc, codec, word, AfterErase);
    hide SlotOf, Record;
    forall payload: seq<byte>, other: u16 | Starts(slot, payload, other, crc)
      ensures payload == codec.encode(v) && other == version
    {
      OneRecord(slot, codec.encode(v), version, payload, other, crc);
    }
  }

  /** Whatever page a store meets, one without an intact record or a full one included, and wherever the power
      fails, the used slots stay a prefix. */
  lemma StoreKeepsPrefix<V>(p: Page, used: nat, version: u16, v: V, crc: Checksum, codec: Codec<V>, word: nat, cut: Cut)
    returns (used': nat)
    requires UsedFirst(p.slots, used) && |p.slots| >= 1 && 1 <= word && Multiple(SLOT_BYTES, word)
    ensures UsedFirst(Store(p, version, v, crc, codec, word, cut).0.slots, used')
  {
    hide UsedFirst, StateOf, Multiple, Record, WrittenSlot;
    used' := used;
    if codec.Fits(v) && !Skips(p, version, v, crc, codec, word) {
      var slot := SlotOf(v, version, crc, codec, word, cut);
      ScanFinds(p.slots, used, 0, crc);
      var full := Scan(p.slots, crc).freeSlot.None?;
      var start, free := if full then ErasedSlots(|p.slots|) else p.slots, if full then 0 else used;
      if full {
        ErasedIsUnused(|p.slots|);
      }
      AppendSlot(start, free, slot, crc);
      used' := if cut.AfterErase? || AllErased(slot) then free else free + 1;
    }
  }

  /** One store of a run, and where the power fails in it. */
  datatype StoreEvent<+V> = StoreEvent(value: V, cut: Cut)

  function StoreEvents<V>(p: Page, version: u16, events: seq<StoreEvent<V>>, crc: Checksum, codec: Codec<V>, word: nat): (p': Page)
    requires 1 <= word && Multiple(SLOT_BYTES, word) && |p.slots| >= 1
    ensures |p'.slots| == |p.slots|
    decreases |events|
  {
    if events == [] then p
    else
      var n := |events| - 1;
      var e := events[n];
      Store(StoreEvents(p, version, events[..n], crc, codec, word), version, e.value, crc, codec, word, e.cut).0
  }

  /** Over every run of stores and power cuts from an erased page, of values that fit or not, the used slots are a
      prefix. */
  lemma {:induction false} RunsKeepPrefix<V>(
    slots: nat, version: u16, events: seq<StoreEvent<V>>, crc: Checksum, codec: Codec<V>, word: nat) returns (used: nat)
    requires 1 <= word && Multiple(SLOT_BYTES, word) && slots >= 1
    ensures UsedFirst(StoreEvents(Page(ErasedSlots(slots), 0), version, events, crc, codec, word).slots, used)
    decreases |events|
  {
    hide UsedFirst, Multiple, Store;
    if events == [] {
      ErasedIsUnused(slots);
      used := 0;
    } else {
      var n := |events| - 1;
      used := RunsKeepPrefix(slots, version, events[..n], crc, codec, word);
      var p := StoreEvents(Page(ErasedSlots(slots), 0), version, events[..n], crc, codec, word);
      used := StoreKeepsPrefix(p, used, version, events[n].value, crc, codec, word, events[n].cut);
    }
  }

  /** Whether the store of `v` erases the page and is cut before it is done. */
  predicate CutsErase<V>(p: Page, version: u16, e: StoreEvent<V>, crc: Checksum, codec: Codec<V>, word: nat)
    requires 1 <= word && Multiple(SLOT_BYTES, word)
  {
    !e.cut.NoCut? && codec.Fits(e.value) && Scan(p.slots, crc).freeSlot.None? && !Skips(p, version, e.value, crc, codec, word)
  }

  ghost predicate Storable<V>(version: u16, e: StoreEvent<V>, crc: Checksum, codec: Codec<V>, word: nat)
    requires 1 <= word && Multiple(SLOT_BYTES, word)
  {
    codec.Fits(e.value) && codec.Inverts(e.value) && NoCollision(version, e.value, crc, codec, word, e.cut)
  }

  /** The latest intact record of a page is one of `v`. */
  predicate Holds<V>(p: Page, version: u16, v: V, crc: Checksum, codec: Codec<V>)
  {
    var latest := Scan(p.slots, crc).latest;
    codec.Fits(v) && latest.Some? && Record(codec.encode(v), version, crc) <= latest.value
  }

  lemma HeldLoads<V>(p: Page, version: u16, v: V, crc: Checksum, codec: Codec<V>)
    requires codec.Inverts(v) && Holds(p, version, v, crc, codec)
    ensures Load(p.slots, version, crc, codec) == Loaded(Some(v))
  {
    RecordReadsBack(Scan(p.slots, crc).latest.value, v, version, crc, codec);
  }

  /** A store, cut or not, of a page that holds `held`: unless it cuts an erase, the page then holds `held` or the
      stored value, and the latter if the store completes. */
  lemma StoreHolds<V>(
    p: Page, used: nat, version: u16, held: V, e: StoreEvent<V>, crc: Checksum, codec: Codec<V>, word: nat)
    requires UsedFirst(p.slots, used) && |p.slots| >= 1 && 1 <= word && Multiple(SLOT_BYTES, word)
    requires Storable(version, e, crc, codec, word)
    requires e.cut.NoCut? || (Holds(p, version, held, crc, codec) && !CutsErase(p, version, e, crc, codec, word))
    ensures var p' := Store(p, version, e.value, crc, codec, word, e.cut).0;
            if e.cut.NoCut? then Holds(p', version, e.value, crc, codec)
            else Holds(p', version, e.value, crc, codec) || Holds(p', version, held, crc, codec)
  {
    hide UsedFirst, StateOf, DecodeRecord, Multiple, Record;
    if e.cut.NoCut? {
      StoreLoads(p, used, version, e.value, crc, codec, word);
    } else if !Skips(p, version, e.value, crc, codec, word) && !e.cut.AfterErase? {
      ScanFinds(p.slots, used, 0, crc);
      AppendSlot(p.slots, used, SlotOf(e.value, version, crc, codec, word, e.cut), crc);
      IntactIsStored(version, e.value, crc, codec, word, e.cut);
    }
  }

  /** Over every run of stores and power cuts from an erased page: once a store has completed, and unless a later
      one is cut while it replaces a full page, a load returns the value of that store or of a later one. For the
      last completed store these are its value and the values whose stores were cut. */
  lemma {:induction false} RunsLoadStored<V>(
    slots: nat, version: u16, events: seq<StoreEvent<V>>, c: nat, crc: Checksum, codec: Codec<V>, word: nat)
    returns (i: nat)
    requires 1 <= word && Multiple(SLOT_BYTES, word) && slots >= 1
    requires forall j :: 0 <= j < |events| ==> Storable(version, events[j], crc, codec, word)
    requires c < |events| && events[c].cut.NoCut?
    requires forall j :: c < j < |events| ==>
               !CutsErase(StoreEvents(Page(ErasedSlots(slots), 0), version, events[..j], crc, codec, word),
                          version, events[j], crc, codec, word)
    ensures c <= i < |events|
    ensures var p := StoreEvents(Page(ErasedSlots(slots), 0), version, events, crc, codec, word);
            Holds(p, version, events[i].value, crc, codec) && Load(p.slots, version, crc, codec) == Loaded(Some(events[i].value))
    decreases |events|
  {
    hide UsedFirst, Multiple, Store, Holds, CutsErase, Load, NoCollision, Scan, ErasedSlots;
    var start, n := Page(ErasedSlots(slots), 0), |events| - 1;
    var before := events[..n];
    var p := StoreEvents(start, version, before, crc, codec, word);
    var used := RunsKeepPrefix(slots, version, before, crc, codec, word);
    i := n;
    if c < n {
      forall j | c < j < |before|
        ensures !CutsErase(StoreEvents(start, version, before[..j], crc, codec, word), version, before[j], crc, codec, word)
      {
        assert before[..j] == events[..j];
      }
      i := RunsLoadStored(slots, version, before, c, crc, codec, word);
    }
    StoreHolds(p, used, version, events[i].value, events[n], crc, codec, word);
    var p' := StoreEvents(start, version, events, crc, codec, word);
    if Holds(p', version, events[n].value, crc, codec) {
      i := n;
    }
    HeldLoads(p', version, events[i].value, crc, codec);
  }

  // ---- Wear ----

  function StoreAll<V>(p: Page, version: u16, vs: seq<V>, crc: Checksum, codec: Codec<V>, word: nat): (p': Page)
    requires 1 <= word && Multiple(SLOT_BYTES, word) && |p.slots| >= 1
    ensures |p'.slots| == |p.slots|
    decreases |vs|
  {
    if vs == [] then p
    else
      var n := |vs| - 1;
      Store(StoreAll(p, version, vs[..n], crc, codec, word), version, vs[n], crc, codec, word, NoCut).0
  }

  /** Value-changing stores from an erased page fill the slots in turn: after `n` of them the page has been
      erased once for every full round of slots before the current one. */
  lemma {:induction false} StoresFillInTurn<V>(
    slots: nat, version: u16, vs: seq<V>, crc: Checksum, codec: Codec<V>, word: nat) returns (used: nat)
    requires 1 <= word && Multiple(SLOT_BYTES, word) && slots >= 1 && |vs| >= 1
    requires forall i :: 0 <= i < |vs| ==> codec.Fits(vs[i]) && codec.Inverts(vs[i])
    requires forall i :: 0 < i < |vs| ==> vs[i] != vs[i - 1]
    ensures var p := StoreAll(Page(ErasedSlots(slots), 0), version, vs, crc, codec, word);
            && UsedFirst(p.slots, used) && 1 <= used <= slots && Times(p.erases, slots) + used == |vs|
            && Scan(p.slots, crc).latest.Some?
            && Record(codec.encode(vs[|vs| - 1]), version, crc) <= Scan(p.slots, crc).latest.value
    decreases |vs|
  {
    hide UsedFirst, Multiple, Record, Scan, Store, Times, ErasedSlots;
    var start := Page(ErasedSlots(slots), 0);
    var n := |vs| - 1;
    var v := vs[n];
    var p := StoreAll(start, version, vs[..n], crc, codec, word);
    if n == 0 {
      TimesAtLeast(0, slots);
      ErasedIsUnused(slots);
      StoreLoads(p, 0, version, v, crc, codec, word);
      ErasedNeverSkips(slots, version, v, crc, codec, word);
      used := 1;
    } else {
      var u := StoresFillInTurn(slots, version, vs[..n], crc, codec, word);
      StoreLoads(p, u, version, v, crc, codec, word);
      ChangeNeverSkips(p, version, vs[n - 1], v, crc, codec, word);
      used := NextUsed(u, slots, false);
      TimesSum(p.erases, 1, slots);
      TimesAtLeast(1, slots);
    }
  }

  lemma ErasedNeverSkips<V>(slots: nat, version: u16, v: V, crc: Checksum, codec: Codec<V>, word: nat)
    requires codec.Fits(v) && 1 <= word && Multiple(SLOT_BYTES, word)
    ensures !Skips(Page(ErasedSlots(slots), 0), version, v, crc, codec, word)
  {
    ErasedIsUnused(slots);
    ScanFinds(ErasedSlots(slots), 0, 0, crc);
  }

  lemma ChangeNeverSkips<V>(p: Page, version: u16, current: V, v: V, crc: Checksum, codec: Codec<V>, word: nat)
    requires codec.Fits(v) && codec.Inverts(v) && codec.Fits(current) && codec.Inverts(current) && v != current
    requires 1 <= word && Multiple(SLOT_BYTES, word) && Scan(p.slots, crc).latest.Some?
    requires Record(codec.encode(current), version, crc) <= Scan(p.slots, crc).latest.value
    ensures !Skips(p, version, v, crc, codec, word)
  {
    hide Record, Scan;
    if Skips(p, version, v, crc, codec, word) {
      var latest := Scan(p.slots, crc).latest.value;
      SamePrefix(latest, BufferOf(v, version, crc, codec), LenOf(v, codec, word), Record(codec.encode(v), version, crc));
      RecordInjective(v, current, version, crc, codec, latest);
    }
  }

  /** `n` value-changing stores into an erased page of `slots` slots erase it exactly `(n - 1) / slots` times. */
  lemma ErasesPerStore<V>(slots: nat, version: u16, vs: seq<V>, crc: Checksum, codec: Codec<V>, word: nat)
    requires 1 <= word && Multiple(SLOT_BYTES, word) && slots >= 1 && |vs| >= 1
    requires forall i :: 0 <= i < |vs| ==> codec.Fits(vs[i]) && codec.Inverts(vs[i])
    requires forall i :: 0 < i < |vs| ==> vs[i] != vs[i - 1]
    ensures StoreAll(Page(ErasedSlots(slots), 0), version, vs, crc, codec, word).erases == (|vs| - 1) / slots
  {
    var used := StoresFillInTurn(slots, version, vs, crc, codec, word);
    var p := StoreAll(Page(ErasedSlots(slots), 0), version, vs, crc, codec, word);
    QuotientIs(|vs| - 1, p.erases, used - 1, slots);
  }
}
