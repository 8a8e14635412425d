/** The ZBOSS NCP frame: low-level header, checks, high-level header and payload. */
module ZbossFrame {
  import opened Bytes
  import opened Crc
  import opened CrcTables
  import opened Outcomes

  const SIG0: byte := 0xDE
  const SIG1: byte := 0xAD
  const LL_HEADER_SIZE: nat := 7
  const LL_TYPE: byte := 0x06

  const HL_VERSION: byte := 0x00
  const HL_REQUEST: byte := 0x00
  const HL_RESPONSE: byte := 0x01
  const HL_INDICATION: byte := 0x02

  datatype LLHeader = LLHeader(length: nat, flags: bv8)

  datatype HLHeader =
    HLHeader(version: byte, packetType: byte, callID: u16, tsn: byte, statusCat: byte, statusCode: byte)

  datatype Frame = Frame(ll: LLHeader, hl: HLHeader, payload: seq<byte>)

  const NO_HL: HLHeader := HLHeader(0, 0, 0, 0, 0, 0)

  datatype DecodeError =
    | TooShort | BadSignature | HeaderCrcMismatch | BadType | Truncated
    | BodyTooShort | BodyCrcMismatch | HLTooShort | UnknownPacketType

  // Flags

  function PktSeq(flags: bv8): bv8 {
    (flags >> 2) & 0x03
  }

  function AckSeq(flags: bv8): bv8 {
    (flags >> 4) & 0x03
  }

  predicate IsAck(flags: bv8) {
    flags & 0x01 != 0
  }

  function DataFlags(pktSeq: bv8): bv8 {
    0xC0 | ((pktSeq << 2) & 0x0C)
  }

  function AckFlags(ackSeq: bv8): bv8 {
    0x01 | ((ackSeq << 4) & 0x30)
  }

  lemma DataFlagsMeaning(pktSeq: bv8)
    ensures !IsAck(DataFlags(pktSeq)) && PktSeq(DataFlags(pktSeq)) == pktSeq & 0x03
  {}

  lemma AckFlagsMeaning(ackSeq: bv8)
    ensures IsAck(AckFlags(ackSeq)) && AckSeq(AckFlags(ackSeq)) == ackSeq & 0x03
  {}

  /** Where the bits are in the flags of any frame received. */
  lemma FlagBits(flags: bv8)
    ensures PktSeq(flags) == (flags & 0x0C) >> 2 && AckSeq(flags) == (flags & 0x30) >> 4
    ensures IsAck(flags) <==> flags & 0x01 == 0x01
  {}

  // Encoding

  /** Size, type and flags, followed by the CRC-8 over them. */
  function CheckedHeader(size: u16, flags: bv8): (s: seq<byte>)
    ensures |s| == 5
  {
    var covered := PutLe16(size) + [LL_TYPE, FromBv(flags)];
    covered + [Crc8(covered)]
  }

  /** The size field of a data frame: uint16 arithmetic, so it wraps. */
  function SizeField(hlLen: nat): u16 {
    (7 + hlLen) % 0x1_0000
  }

  /** A data frame around hl, or nothing where filling the frame would index outside it. */
  function DataFrame(pktSeq: bv8, hl: seq<byte>): (r: Option<seq<byte>>) {
    var size := SizeField(|hl|);
    if size < 7 then None
    else Some([SIG0, SIG1] + CheckedHeader(size, DataFlags(pktSeq)) + CheckBytes(Crc16(hl)) + hl[..size - 7])
  }

  function RequestHL(callID: u16, tsn: byte, payload: seq<byte>): (s: seq<byte>)
    ensures |s| == 5 + |payload|
  {
    [HL_VERSION, HL_REQUEST] + PutLe16(callID) + [tsn] + payload
  }

  function RequestFrame(callID: u16, tsn: byte, pktSeq: bv8, payload: seq<byte>): Option<seq<byte>> {
    DataFrame(pktSeq, RequestHL(callID, tsn, payload))
  }

  function AckFrame(ackSeq: bv8): seq<byte> {
    [SIG0, SIG1] + CheckedHeader(5, AckFlags(ackSeq))
  }

  /** zbossEncodeDataFrame: fills a fresh frame in place; None stands for the panic on a wrapped size below 7. */
  method EncodeDataFrame(crc8Table: array<bv8>, pktSeq: bv8, hl: seq<byte>) returns (r: Option<seq<byte>>)
    requires IsCrc8Table(crc8Table[..])
    ensures r == DataFrame(pktSeq, hl)
  {
    hide IsCrc8Table, Crc8, Crc16, CheckBytes, FromBv, DataFlags;
    var bodyCrc := ComputeCrc16(hl);
    var size := SizeField(|hl|);
    if size < 7 {
      return None;
    }
    var flags := FromBv(DataFlags(pktSeq));
    var frame := new byte[2 + size];
    frame[0], frame[1] := SIG0, SIG1;
    var sizeBytes := PutLe16(size);
    frame[2], frame[3] := sizeBytes[0], sizeBytes[1];
    frame[4] := LL_TYPE;
    frame[5] := flags;
    var crc8 := ComputeCrc8(crc8Table, frame[2..6]);
    assert frame[2..6] == sizeBytes + [LL_TYPE, flags];
    frame[6] := crc8;
    var crcBytes := CheckBytes(bodyCrc);
    frame[7], frame[8] := crcBytes[0], crcBytes[1];
    forall i | 0 <= i < size - 7 {
      frame[9 + i] := hl[i];
    }
    assert frame[..] == [SIG0, SIG1] + CheckedHeader(size, DataFlags(pktSeq)) + crcBytes + hl[..size - 7];
    r := Some(frame[..]);
  }

  method EncodeRequest(crc8Table: array<bv8>, callID: u16, tsn: byte, pktSeq: bv8, payload: seq<byte>)
    returns (r: Option<seq<byte>>)
    requires IsCrc8Table(crc8Table[..])
    ensures r == RequestFrame(callID, tsn, pktSeq, payload)
  {
    var hl := new byte[5 + |payload|];
    hl[0], hl[1] := HL_VERSION, HL_REQUEST;
    var id := PutLe16(callID);
    hl[2], hl[3] := id[0], id[1];
    hl[4] := tsn;
    forall i | 0 <= i < |payload| {
      hl[5 + i] := payload[i];
    }
    assert hl[..] == RequestHL(callID, tsn, payload);
    r := EncodeDataFrame(crc8Table, pktSeq, hl[..]);
  }

  method EncodeAck(crc8Table: array<bv8>, ackSeq: bv8) returns (r: seq<byte>)
    requires IsCrc8Table(crc8Table[..])
    ensures r == AckFrame(ackSeq)
  {
    hide IsCrc8Table, Crc8, FromBv, AckFlags;
    var frame := new byte[LL_HEADER_SIZE];
    frame[0], frame[1] := SIG0, SIG1;
    var sizeBytes := PutLe16(5);
    frame[2], frame[3] := sizeBytes[0], sizeBytes[1];
    frame[4] := LL_TYPE;
    frame[5] := FromBv(AckFlags(ackSeq));
    var crc8 := ComputeCrc8(crc8Table, frame[2..6]);
    assert frame[2..6] == sizeBytes + [LL_TYPE, FromBv(AckFlags(ackSeq))];
    frame[6] := crc8;
    assert frame[..] == AckFrame(ackSeq);
    r := frame[..];
  }

  // Decoding

  /** zbossDecodeFrame. */
  function Decode(data: seq<byte>): (r: Outcome<Frame, DecodeError>) {
    if |data| < LL_HEADER_SIZE then Err(TooShort)
    else if data[0] != SIG0 || data[1] != SIG1 then Err(BadSignature)
    else if data[6] != Crc8(data[2..6]) then Err(HeaderCrcMismatch)
    else if data[4] != LL_TYPE then Err(BadType)
    else
      var size := Le16(data[2], data[3]);
      var ll := LLHeader(size, Bv(data[5]));
      if size + 2 > |data| then Err(Truncated)
      else if IsAck(ll.flags) then Ok(Frame(ll, NO_HL, []))
      // The slice bound is computed in uint16, and slicing panics where it lies below the header.
      else if (2 + size) % 0x1_0000 < LL_HEADER_SIZE then Panic
      else DecodeBody(ll, data[LL_HEADER_SIZE..2 + size])
  }

  function DecodeBody(ll: LLHeader, body: seq<byte>): Outcome<Frame, DecodeError> {
    if |body| < 2 then Err(BodyTooShort)
    else if CheckOf(body[0], body[1]) != Crc16(body[2..]) then Err(BodyCrcMismatch)
    else DecodeHL(ll, body[2..])
  }

  function DecodeHL(ll: LLHeader, hl: seq<byte>): Outcome<Frame, DecodeError> {
    if |hl| < 4 then Err(HLTooShort)
    else
      var callID := Le16(hl[2], hl[3]);
      if hl[1] == HL_REQUEST then
        if |hl| < 5 then Err(HLTooShort)
        else Ok(Frame(ll, HLHeader(hl[0], hl[1], callID, hl[4], 0, 0), hl[5..]))
      else if hl[1] == HL_RESPONSE then
        if |hl| < 7 then Err(HLTooShort)
        else Ok(Frame(ll, HLHeader(hl[0], hl[1], callID, hl[4], hl[5], hl[6]), hl[7..]))
      else if hl[1] == HL_INDICATION then
        Ok(Frame(ll, HLHeader(hl[0], hl[1], callID, 0, 0, 0), hl[4..]))
      else Err(UnknownPacketType)
  }
}
