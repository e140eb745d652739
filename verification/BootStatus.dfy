/** The 16-byte bootloader status record: firmware-core/src/boot.rs. */
module BootStatus {
  import opened Bytes

  datatype State = Invalid | DfuFreshlyWritten | DfuContentsRejected | SwappedImageTrialBooted | SwappedImageBootTimeout
  {
    function Raw(): u32 {
      match this
      case Invalid => 0
      case DfuFreshlyWritten => 1
      case DfuContentsRejected => 2
      case SwappedImageTrialBooted => 3
      case SwappedImageBootTimeout => 4
    }
  }

  function StateOf(raw: u32): State {
    match raw
    case 1 => DfuFreshlyWritten
    case 2 => DfuContentsRejected
    case 3 => SwappedImageTrialBooted
    case 4 => SwappedImageBootTimeout
    case _ => Invalid
  }

  datatype Status = Status(state: State, imageLength: u32, imageCrc32: u32)

  datatype DecodeResult = Empty | Corrupt | Valid(status: Status)

  /** What `Decode` has to return, as a function of the 16 bytes. */
  function Decode(bytes: seq<byte>, crc: Checksum): DecodeResult
    requires |bytes| == 16
  {
    if AllErased(bytes) then Empty
    else if crc(bytes[..12]) != U32FromLe(bytes[12..]) then Corrupt
    else Valid(Status(StateOf(U32FromLe(bytes[..4])), U32FromLe(bytes[4..8]), U32FromLe(bytes[8..12])))
  }

  /** Scans for a programmed byte first, then checks the checksum. */
  method FromBytes(bytes: seq<byte>, crc: Checksum) returns (r: DecodeResult)
    requires |bytes| == 16
    ensures r == Decode(bytes, crc)
  {
    var empty := true;
    var i := 0;
    while i < |bytes|
      invariant 0 <= i <= |bytes|
      invariant empty <==> AllErased(bytes[..i])
      invariant empty || !AllErased(bytes)
    {
      if bytes[i] != 0xFF {
        empty := false;
        break;
      }
      i := i + 1;
    }
    if empty {
      assert bytes[..i] == bytes;
      return Empty;
    }
    if crc(bytes[..12]) != U32FromLe(bytes[12..]) {
      return Corrupt;
    }
    r := Valid(Status(StateOf(U32FromLe(bytes[..4])), U32FromLe(bytes[4..8]), U32FromLe(bytes[8..12])));
  }

  /** The three fields of a status record, in flash order. */
  function Fields(s: Status): (b: seq<byte>)
    ensures |b| == 12
  {
    U32ToLe(s.state.Raw()) + U32ToLe(s.imageLength) + U32ToLe(s.imageCrc32)
  }

  function ToBytes(s: Status, crc: Checksum): (b: seq<byte>)
    ensures |b| == 16
  {
    Fields(s) + U32ToLe(crc(Fields(s)))
  }

  lemma FieldsSplit(s: Status, tail: seq<byte>)
    requires |tail| == 4
    ensures var b := Fields(s) + tail;
            && b[..12] == Fields(s) && b[12..] == tail
            && U32FromLe(b[..4]) == s.state.Raw()
            && U32FromLe(b[4..8]) == s.imageLength
            && U32FromLe(b[8..12]) == s.imageCrc32
            && b[3] == 0
  {
    var b := Fields(s) + tail;
    U32RoundTrip(s.state.Raw());
    U32RoundTrip(s.imageLength);
    U32RoundTrip(s.imageCrc32);
    assert b[..4] == U32ToLe(s.state.Raw());
    assert b[4..8] == U32ToLe(s.imageLength);
    assert b[8..12] == U32ToLe(s.imageCrc32);
    assert b[3] == U32ToLe(s.state.Raw())[3];
  }

  /** The record in flash: the number of the state, 1 to 4, the length and the checksum of the image, four bytes each with
      the lowest first, and the checksum of these twelve. */
  lemma StatusLayout(s: Status, crc: Checksum)
    ensures var b := ToBytes(s, crc);
            && b[..4] == [match s.state
                          case Invalid => 0
                          case DfuFreshlyWritten => 1
                          case DfuContentsRejected => 2
                          case SwappedImageTrialBooted => 3
                          case SwappedImageBootTimeout => 4, 0, 0, 0]
            && U32FromLe(b[4..8]) == s.imageLength && U32FromLe(b[8..12]) == s.imageCrc32
            && U32FromLe(b[12..]) == crc(b[..12])
  {
    FieldsSplit(s, U32ToLe(crc(Fields(s))));
    U32RoundTrip(crc(Fields(s)));
    var b := ToBytes(s, crc);
    assert b[..4] == U32ToLe(s.state.Raw());
  }

  /** A written status reads back as itself, whatever the checksum function is. */
  lemma StatusRoundTrip(s: Status, crc: Checksum)
    ensures Decode(ToBytes(s, crc), crc) == Valid(s)
  {
    FieldsSplit(s, U32ToLe(crc(Fields(s))));
    U32RoundTrip(crc(Fields(s)));
    assert StateOf(s.state.Raw()) == s.state;
  }

  /** Bytes that decode re-encode to themselves exactly when the raw state is one the enum defines. */
  lemma DecodedReencodesIff(bytes: seq<byte>, crc: Checksum)
    requires |bytes| == 16 && Decode(bytes, crc).Valid?
    ensures ToBytes(Decode(bytes, crc).status, crc) == bytes <==> U32FromLe(bytes[..4]) <= 4
  {
    var s := Decode(bytes, crc).status;
    FieldsSplit(s, U32ToLe(crc(Fields(s))));
    var out := ToBytes(s, crc);
    if U32FromLe(bytes[..4]) <= 4 {
      assert bytes == bytes[..4] + bytes[4..8] + bytes[8..12] + bytes[12..];
      U32FromLeInjective(out[..4], bytes[..4]);
      U32FromLeInjective(out[4..8], bytes[4..8]);
      U32FromLeInjective(out[8..12], bytes[8..12]);
      assert out[..12] == bytes[..12];
      U32RoundTrip(crc(Fields(s)));
      U32FromLeInjective(out[12..], bytes[12..]);
      assert out == out[..12] + out[12..];
    }
  }

  /** A power loss after the first of the two 8-byte words of a status record leaves bytes that
      decode as corrupt or as the state being written, never as another state and never as empty. */
  lemma TornStatusDecodes(s: Status, crc: Checksum)
    ensures var r := Decode(ToBytes(s, crc)[..8] + Erased(8), crc);
            r.Corrupt? || (r.Valid? && r.status.state == s.state)
  {
    var torn := ToBytes(s, crc)[..8] + Erased(8);
    FieldsSplit(s, U32ToLe(crc(Fields(s))));
    assert torn[3] == ToBytes(s, crc)[3] == 0;
    assert torn[..4] == ToBytes(s, crc)[..4];
    assert StateOf(s.state.Raw()) == s.state;
  }
}
