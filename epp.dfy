/** The Encapsulation Packet header of CCSDS 133.1-B, section 4.1.2, as the
    uplink sender scripts build it (src/zmq/ccsds/epp.py): a first octet with
    the packet version number 7, three bits of protocol id and two bits
    giving the header length, then 0, 1, 3 or 7 more octets. Python's
    bitwise operators on these small fields are written as arithmetic: `x & 7`
    is `x % 8` and `x >> 5` is `x / 32` (both floor, for every integer), and
    an OR of disjoint bit fields is their sum. */
module Epp {
  import opened Wrappers
  import opened Ints

  /** EppHeader.PVN. */
  const PVN: int := 7
  /** EppProtocolId.EXTENDED. */
  const PROTOCOL_EXTENDED: int := 6
  /** set_real_packet_size's max_size, 0xFFFFFFFF + 1. */
  const MAX_REAL_PACKET_SIZE: int := 0x1_0000_0000

  /** The exceptions the header code raises. */
  datatype EppError =
    | ZeroRealPacketSize           // ValueError: the real size is zero
    | RealPacketSizeTooBig(value: int) // ValueError: the real size exceeds 2^32
    | StructPackRange              // struct.error: `>H` given a value outside 0..0xFFFF
    | NoStructPacket               // AttributeError: struct has no `packet`

  /** The fields of an EppHeader, as a value. */
  datatype HeaderFields = HeaderFields(
    protocolId: int,
    packetSize: int,
    userDefinedField: Option<int>,
    protocolIdExtension: Option<int>,
    ccsdsField: Option<int>)

  /** Python's `x or 0` on an optional integer (a present 0 also gives 0). */
  function OrZero(x: Option<int>): int
  {
    if x.Some? then x.value else 0
  }

  /** probe_header_size for an integer: 0 when the top three bits are not
      the version number, else the header length the low two bits code. */
  function ProbeHeaderSize(target: int): (r: nat)
    ensures r == 0 <==> target / 32 % 8 != PVN
    ensures r != 0 ==> r == LengthOfCode(target % 4)
  {
    if target / 32 % 8 != PVN then 0 else LengthOfCode(target % 4)
  }

  /** The `cases` table of probe_header_size: code 0, 1, 2, 3 stands for a
      header of 1, 2, 4, 8 octets. */
  function LengthOfCode(code: int): (r: nat)
    requires 0 <= code < 4
    ensures r == 1 || r == 2 || r == 4 || r == 8
    ensures CodeOfLength(r) == code
  {
    if code == 0 then 1 else if code == 1 then 2 else if code == 2 then 4 else 8
  }

  /** write's len_of_len for a header of `size` octets. */
  function CodeOfLength(size: nat): (code: int)
    requires size == 1 || size == 2 || size == 4 || size == 8
    ensures 0 <= code < 4
  {
    if size == 1 then 0 else if size == 2 then 1 else if size == 4 then 2 else 3
  }

  /** size(): the smallest header the fields fit, by the ladder of the
      source, whose 4-octet step reaches up to 0xFFFFFF. */
  function HeaderSize(f: HeaderFields): (r: nat)
    ensures r == 1 || r == 2 || r == 4 || r == 8
    ensures r == 2 ==> 0 < f.packetSize <= 0xFF
  {
    if f.ccsdsField.Some? || f.packetSize > 0xFF_FFFF then 8
    else if f.protocolId == PROTOCOL_EXTENDED || f.protocolIdExtension.Some?
         || f.userDefinedField.Some? || f.packetSize > 0xFF then 4
    else if f.packetSize > 0 then 2
    else 1
  }

  /** Whether a header of h octets is the one a packet of the payload and that
      header calls for: a fixed point of accomodate_to_payload_size. */
  predicate FitsPayload(f: HeaderFields, payloadSize: int, h: int) {
    HeaderSize(f.(packetSize := payloadSize + h - 1)) == h
  }

  /** When header g calls for a longer one n, no size from g up to n fits. */
  lemma NoFitBelowNext(f: HeaderFields, payloadSize: int, g: int)
    requires g < HeaderSize(f.(packetSize := payloadSize + g - 1))
    ensures forall h :: g <= h < HeaderSize(f.(packetSize := payloadSize + g - 1)) ==> !FitsPayload(f, payloadSize, h)
  {
    forall h | g <= h < HeaderSize(f.(packetSize := payloadSize + g - 1))
      ensures !FitsPayload(f, payloadSize, h)
    {
      HeaderSizeMonotone(f, payloadSize + g - 1, payloadSize + h - 1);
    }
  }

  /** When header g calls for a shorter one n, no size above n up to g fits. */
  lemma NoFitAboveNext(f: HeaderFields, payloadSize: int, g: int)
    requires HeaderSize(f.(packetSize := payloadSize + g - 1)) < g
    ensures forall h :: HeaderSize(f.(packetSize := payloadSize + g - 1)) < h <= g ==> !FitsPayload(f, payloadSize, h)
  {
    forall h | HeaderSize(f.(packetSize := payloadSize + g - 1)) < h <= g
      ensures !FitsPayload(f, payloadSize, h)
    {
      HeaderSizeMonotone(f, payloadSize + h - 1, payloadSize + g - 1);
    }
  }

  /** A header with no optional field, accommodated from one octet to a
      payload of 1 to 0xFD octets, settles on two octets: one is too short
      and two fit. */
  lemma SmallPayloadFitsTwoOctets(f: HeaderFields, payloadSize: int)
    requires f.protocolId != PROTOCOL_EXTENDED && f.userDefinedField.None?
    requires f.protocolIdExtension.None? && f.ccsdsField.None?
    requires 1 <= payloadSize <= 0xFD
    ensures !FitsPayload(f, payloadSize, 1) && FitsPayload(f, payloadSize, 2)
  {
  }

  /** A longer packet never asks for a shorter header. */
  lemma HeaderSizeMonotone(f: HeaderFields, a: int, b: int)
    requires a <= b
    ensures HeaderSize(f.(packetSize := a)) <= HeaderSize(f.(packetSize := b))
  {
  }

  /** Where each header length is chosen. */
  lemma HeaderSizeLadder(f: HeaderFields)
    ensures HeaderSize(f) == 8 <==> f.ccsdsField.Some? || f.packetSize > 0xFF_FFFF
    ensures HeaderSize(f) == 1 <==>
      f.ccsdsField.None? && f.protocolIdExtension.None? && f.userDefinedField.None?
      && f.protocolId != PROTOCOL_EXTENDED && f.packetSize <= 0
    ensures HeaderSize(f) == 4 ==> f.packetSize <= 0xFF_FFFF
  {
  }

  /** _make_second_byte: the protocol id extension in the low nibble, the
      user defined field in the high nibble, absent ones as 0. */
  function SecondByte(f: HeaderFields): (b: byte)
    ensures b % 16 == OrZero(f.protocolIdExtension) % 16
    ensures b / 16 == OrZero(f.userDefinedField) % 16
  {
    OrZero(f.protocolIdExtension) % 16 + OrZero(f.userDefinedField) % 16 * 16
  }

  /** Loading the second byte of a header made from nibble-sized fields gives
      the fields back. */
  lemma SecondByteRoundTrip(f: HeaderFields)
    requires f.protocolIdExtension.Some? && 0 <= f.protocolIdExtension.value < 16
    requires f.userDefinedField.Some? && 0 <= f.userDefinedField.value < 16
    ensures SecondByte(f) % 16 == f.protocolIdExtension.value
    ensures SecondByte(f) / 16 % 16 == f.userDefinedField.value
  {
  }

  /** And every octet is the second byte of the fields loaded from it. */
  lemma SecondByteOfLoaded(f: HeaderFields, b: byte)
    ensures SecondByte(f.(protocolIdExtension := Some(b % 16),
                          userDefinedField := Some(b / 16 % 16))) == b
  {
  }

  /** The first octet: the version number in the top three bits, the low
      three bits of the protocol id, the length code in the low two bits. */
  function FirstByte(protocolId: int, code: int): (b: byte)
    requires 0 <= code < 4
    ensures b / 32 == PVN && b / 4 % 8 == protocolId % 8 && b % 4 == code
  {
    PVN * 32 + protocolId % 8 * 4 + code
  }

  /** struct.pack(">H", x). */
  function BigEndian16(x: uint16): (r: seq<byte>)
    ensures |r| == 2 && r[0] as int * 256 + r[1] == x
  {
    [x / 256, x % 256]
  }

  /** struct.pack(">L", x). */
  function BigEndian32(x: int): (r: seq<byte>)
    requires 0 <= x < TWO_TO_THE_32
    ensures |r| == 4 && ((r[0] as int * 256 + r[1]) * 256 + r[2]) * 256 + r[3] == x
  {
    var high, low := x / 0x1_0000, x % 0x1_0000;
    assert high * 0x1_0000 + low == x;
    var r := BigEndian16(high) + BigEndian16(low);
    assert (r[0] as int * 256 + r[1]) * 0x1_0000 + (r[2] as int * 256 + r[3]) == x;
    r
  }

  /** write(), as written: the 8-octet branch calls struct.packet, which does
      not exist, and the 4-octet branch packs the length with `>H`. */
  function Encode(f: HeaderFields): Result<seq<byte>, EppError>
  {
    var size := HeaderSize(f);
    if size == 8 then Failure(NoStructPacket)
    else if size == 4 && !(0 <= f.packetSize <= 0xFFFF) then Failure(StructPackRange)
    else
      var tail: seq<byte> :=
        if size == 1 then []
        else if size == 2 then [f.packetSize]
        else [SecondByte(f)] + BigEndian16(f.packetSize);
      Success([FirstByte(f.protocolId, CodeOfLength(size))] + tail)
  }

  /** When write fails, and what a written header holds: as many octets as
      size() says, a first octet that probes back to that size, and the
      length and second byte at their places. */
  lemma EncodeFacts(f: HeaderFields)
    ensures Encode(f).Failure? <==>
      HeaderSize(f) == 8 || (HeaderSize(f) == 4 && !(0 <= f.packetSize <= 0xFFFF))
    ensures Encode(f).Success? ==>
      var out := Encode(f).value;
      && |out| == HeaderSize(f)
      && out[0] == 0xE0 + f.protocolId % 8 * 4 + CodeOfLength(HeaderSize(f))
      && ProbeHeaderSize(out[0]) == HeaderSize(f)
      && (|out| == 2 ==> out[1] == f.packetSize)
      && (|out| == 4 ==> out[1] == SecondByte(f) && out[2] as int * 256 + out[3] == f.packetSize)
  {
    var size := HeaderSize(f);
    if Encode(f).Success? {
      var b := FirstByte(f.protocolId, CodeOfLength(size));
      assert Encode(f).value[0] == b;
      assert ProbeHeaderSize(b) == LengthOfCode(CodeOfLength(size));
    }
  }

  /** The 4-octet overflow: a packet size of 0x10000 gets a 4-octet header,
      whose 16-bit length field cannot hold it, so write raises. */
  lemma FourOctetOverflow()
    ensures var f := HeaderFields(0, 0x1_0000, None, None, None);
      HeaderSize(f) == 4 && Encode(f) == Failure(StructPackRange)
  {
  }

  /** The 8-octet header is never written. */
  lemma EightOctetNeverWritten(f: HeaderFields)
    requires f.ccsdsField.Some?
    ensures Encode(f) == Failure(NoStructPacket)
  {
  }

  /** The ladder the header format calls for: the 4-octet header carries a
      16-bit length, so longer packets take the 8-octet header. */
  function CorrectedHeaderSize(f: HeaderFields): (r: nat)
    ensures r == 1 || r == 2 || r == 4 || r == 8
    ensures r == 2 ==> 0 < f.packetSize <= 0xFF
    ensures r == 4 ==> f.packetSize <= 0xFFFF
  {
    if f.ccsdsField.Some? || f.packetSize > 0xFFFF then 8
    else if f.protocolId == PROTOCOL_EXTENDED || f.protocolIdExtension.Some?
         || f.userDefinedField.Some? || f.packetSize > 0xFF then 4
    else if f.packetSize > 0 then 2
    else 1
  }

  /** write() with the corrected ladder and with struct.pack in the 8-octet
      branch. */
  function CorrectedEncode(f: HeaderFields): Result<seq<byte>, EppError>
  {
    var size := CorrectedHeaderSize(f);
    if !(0 <= f.packetSize < TWO_TO_THE_32) || !(0 <= OrZero(f.ccsdsField) <= 0xFFFF) then
      Failure(StructPackRange)
    else
      var tail: seq<byte> :=
        if size == 1 then []
        else if size == 2 then [f.packetSize]
        else if size == 4 then [SecondByte(f)] + BigEndian16(f.packetSize)
        else [SecondByte(f)] + BigEndian16(OrZero(f.ccsdsField)) + BigEndian32(f.packetSize);
      Success([FirstByte(f.protocolId, CodeOfLength(size))] + tail)
  }

  /** Every packet size a real size set through set_real_packet_size can give
      is written, in as many octets as the corrected ladder says, with a
      first octet that probes back to that size and the length at its place. */
  lemma CorrectedEncodeFacts(f: HeaderFields)
    requires 0 <= f.packetSize < TWO_TO_THE_32
    requires 0 <= OrZero(f.ccsdsField) <= 0xFFFF
    ensures CorrectedEncode(f).Success?
    ensures var out := CorrectedEncode(f).value;
      && |out| == CorrectedHeaderSize(f)
      && ProbeHeaderSize(out[0]) == CorrectedHeaderSize(f)
      && (|out| == 2 ==> out[1] == f.packetSize)
      && (|out| == 4 ==> out[2] as int * 256 + out[3] == f.packetSize)
      && (|out| == 8 ==> ((out[4] as int * 256 + out[5]) * 256 + out[6]) * 256 + out[7] == f.packetSize)
  {
    var size := CorrectedHeaderSize(f);
    var out := CorrectedEncode(f).value;
    var b := FirstByte(f.protocolId, CodeOfLength(size));
    assert out[0] == b;
    assert ProbeHeaderSize(b) == LengthOfCode(CodeOfLength(size));
    if size == 8 {
      var l := BigEndian32(f.packetSize);
      assert out[4..] == l;
    }
  }

  /** The corrected ladder differs from the source's only on packet sizes
      from 0x10000 to 0xFFFFFF, exactly those the source cannot write. */
  lemma CorrectedAgreesOutsideOverflow(f: HeaderFields)
    ensures CorrectedHeaderSize(f) != HeaderSize(f) <==>
      f.ccsdsField.None? && 0xFFFF < f.packetSize <= 0xFF_FFFF
    ensures (CorrectedHeaderSize(f) == HeaderSize(f) && HeaderSize(f) != 8 && 0 <= f.packetSize)
      ==> Encode(f) == CorrectedEncode(f)
  {
  }

  class EppHeader {
    var protocolId: int
    var packetSize: int
    var userDefinedField: Option<int>
    var protocolIdExtension: Option<int>
    var ccsdsField: Option<int>

    /** The fields, as a value. */
    function Fields(): HeaderFields
      reads this
    {
      HeaderFields(protocolId, packetSize, userDefinedField, protocolIdExtension, ccsdsField)
    }

    /** size(). */
    function Size(): (r: nat)
      reads this
      ensures r == HeaderSize(Fields())
    {
      HeaderSize(Fields())
    }

    /** real_packet_size(): the packet size field counts from zero, so a
        field that is not negative gives a real size of one octet or more, and
        the field is one less than the real size. */
    function RealPacketSize(): (r: int)
      reads this
      ensures packetSize >= 0 ==> r >= 1
      ensures r - 1 == packetSize
    {
      packetSize + 1
    }

    /** A header with protocol id 0, packet size 0 and no optional field. */
    constructor()
      ensures Fields() == HeaderFields(0, 0, None, None, None)
      ensures Size() == 1 && RealPacketSize() == 1
    {
      protocolId := 0;
      packetSize := 0;
      userDefinedField := None;
      protocolIdExtension := None;
      ccsdsField := None;
    }

    /** set_real_packet_size: refuses 0 and anything above 2^32, otherwise
        the real packet size becomes the value. */
    method SetRealPacketSize(value: int) returns (r: Result<(), EppError>)
      modifies this`packetSize
      ensures value == 0 ==> r == Failure(ZeroRealPacketSize)
      ensures value != 0 && value > MAX_REAL_PACKET_SIZE ==> r == Failure(RealPacketSizeTooBig(value))
      ensures r.Success? <==> value != 0 && value <= MAX_REAL_PACKET_SIZE
      ensures r.Success? ==> RealPacketSize() == value
      ensures r.Failure? ==> packetSize == old(packetSize)
    {
      if value == 0 {
        return Failure(ZeroRealPacketSize);
      }
      var maxSize := 0xFFFF_FFFF + 1;
      if value > maxSize {
        return Failure(RealPacketSizeTooBig(value));
      }
      packetSize := value - 1;
      r := Success(());
    }

    /** accomodate_to_payload_size: sets the packet size to the payload plus
        the header that packet size calls for, by iterating header guesses
        to a fixed point, and returns the real packet size. */
    method AccomodateToPayloadSize(payloadSize: int) returns (r: int)
      modifies this`packetSize
      ensures packetSize + 1 == payloadSize + Size()
      ensures r == RealPacketSize()
      // The fixed point reached is the one nearest the header size the old
      // packet size called for: no header size between the two fits.
      ensures forall h :: old(Size()) <= h < Size() ==> !FitsPayload(old(Fields()), payloadSize, h)
      ensures forall h :: Size() < h <= old(Size()) ==> !FitsPayload(old(Fields()), payloadSize, h)
    {
      ghost var f := Fields();
      var headerSize := Size();
      packetSize := payloadSize + headerSize - 1;
      // The guesses move in one direction: the first step decides which,
      // and monotonicity of the ladder keeps them going that way.
      ghost var up := HeaderSize(f.(packetSize := payloadSize + headerSize - 1)) >= headerSize;
      ghost var h0 := headerSize;
      while true
        invariant headerSize == 1 || headerSize == 2 || headerSize == 4 || headerSize == 8
        invariant Fields() == f.(packetSize := packetSize)
        invariant up ==> h0 <= headerSize && forall h :: h0 <= h < headerSize ==> !FitsPayload(f, payloadSize, h)
        invariant !up ==> headerSize <= h0 && forall h :: headerSize < h <= h0 ==> !FitsPayload(f, payloadSize, h)
        invariant up ==> HeaderSize(f.(packetSize := payloadSize + headerSize - 1)) >= headerSize
        invariant !up ==> HeaderSize(f.(packetSize := payloadSize + headerSize - 1)) <= headerSize
        decreases if up then 8 - headerSize else headerSize
      {
        packetSize := payloadSize + headerSize - 1;
        var headerSize2 := Size();
        if headerSize == headerSize2 {
          break;
        }
        if headerSize < headerSize2 {
          HeaderSizeMonotone(f, payloadSize + headerSize - 1, payloadSize + headerSize2 - 1);
          NoFitBelowNext(f, payloadSize, headerSize);
        } else {
          HeaderSizeMonotone(f, payloadSize + headerSize2 - 1, payloadSize + headerSize - 1);
          NoFitAboveNext(f, payloadSize, headerSize);
        }
        headerSize := headerSize2;
      }
      r := RealPacketSize();
    }

    /** write(): the first octet goes in front of the octets the header
        length calls for. */
    method Write() returns (r: Result<seq<byte>, EppError>)
      ensures r == Encode(Fields())
    {
      var out: seq<byte> := [];
      var headerSize := Size();
      var code := 0;
      if headerSize == 1 {
        code := 0;
      } else if headerSize == 2 {
        code := 1;
        out := out + [packetSize];
        assert out == [packetSize];
      } else if headerSize == 4 {
        code := 2;
        out := out + [SecondByte(Fields())];
        if !(0 <= packetSize <= 0xFFFF) {
          return Failure(StructPackRange);
        }
        out := out + BigEndian16(packetSize);
        assert out == [SecondByte(Fields())] + BigEndian16(packetSize);
      } else {
        return Failure(NoStructPacket);
      }
      var byte1: byte := PVN * 32 + protocolId % 8 * 4 + code;
      assert byte1 == FirstByte(protocolId, CodeOfLength(headerSize));
      r := Success([byte1] + out);
    }

    /** _load_second_byte: the low nibble becomes the protocol id extension,
        the high nibble the user defined field. */
    method LoadSecondByte(b: byte)
      modifies this`protocolIdExtension, this`userDefinedField
      ensures protocolIdExtension == Some(b % 16) && userDefinedField == Some(b / 16 % 16)
      ensures SecondByte(Fields()) == b
    {
      protocolIdExtension := Some(b % 16);
      userDefinedField := Some(b / 16 % 16);
    }
  }
}
