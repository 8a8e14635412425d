/** What decoding guarantees about ZBOSS frames: no panic, round trips, and detected corruption. */
module ZbossIntegrity {
  import opened Bytes
  import opened Crc
  import opened Outcomes
  import opened ZbossFrame

  /** The size field of a frame long enough to hold one. */
  function SizeOf(data: seq<byte>): u16
    requires |data| >= LL_HEADER_SIZE
  {
    Le16(data[2], data[3])
  }

  predicate HeaderOk(data: seq<byte>) {
    && |data| >= LL_HEADER_SIZE
    && data[0] == SIG0 && data[1] == SIG1
    && data[6] == Crc8(data[2..6])
    && data[4] == LL_TYPE
    && SizeOf(data) + 2 <= |data|
  }

  /** Decoding panics exactly on a checked data frame whose size field is below 5 or within two of the uint16 limit. */
  lemma DecodePanicsIff(data: seq<byte>)
    ensures Decode(data).Panic?
       <==> HeaderOk(data) && !IsAck(Bv(data[5])) && (SizeOf(data) < 5 || SizeOf(data) >= 0xFFFE)
  {
    hide Crc8, Crc16, CheckOf, Bv, IsAck;
  }

  /** The reader's promise: the frame is as long as its size field says, and that is between 5 and 4098. */
  predicate WellSized(data: seq<byte>) {
    |data| >= LL_HEADER_SIZE && |data| == 2 + SizeOf(data) && 5 <= SizeOf(data) <= 4098
  }

  lemma WellSizedNeverPanics(data: seq<byte>)
    requires WellSized(data)
    ensures !Decode(data).Panic?
  {
    DecodePanicsIff(data);
    hide Decode, HeaderOk;
  }

  /** What is refused before the body is looked at, and how: the first of these that is so. */
  lemma RefusedHeader(data: seq<byte>)
    ensures Decode(data) == Err(TooShort) <==> |data| < 7
    ensures |data| >= 7 ==>
      && (Decode(data) == Err(BadSignature) <==> data[..2] != [0xDE, 0xAD])
      && (data[..2] == [0xDE, 0xAD] ==>
            && (Decode(data) == Err(HeaderCrcMismatch) <==> data[6] != Crc8(data[2..6]))
            && (data[6] == Crc8(data[2..6]) ==>
                  && (Decode(data) == Err(BadType) <==> data[4] != 0x06)
                  && (data[4] == 0x06 ==>
                        (Decode(data) == Err(Truncated) <==> data[2] as nat + 256 * data[3] as nat + 2 > |data|))))
  {
    hide Crc8, Crc16, CheckOf, Bv, IsAck;
  }

  /**
    * What an accepted header leads to: an acknowledgement is done, whatever follows; a body of under two bytes and one
    * whose first two are not its check are refused.
    */
  lemma AfterHeader(data: seq<byte>)
    requires HeaderOk(data)
    ensures Bv(data[5]) & 0x01 == 0x01 ==>
      Decode(data) == Ok(Frame(LLHeader(SizeOf(data), Bv(data[5])), HLHeader(0, 0, 0, 0, 0, 0), []))
    ensures Bv(data[5]) & 0x01 == 0x00 ==> (Decode(data) == Err(BodyTooShort) <==> SizeOf(data) in {5, 6})
    ensures Bv(data[5]) & 0x01 == 0x00 && 7 <= SizeOf(data) < 0xFFFE ==>
      (Decode(data) == Err(BodyCrcMismatch) <==> data[7..9] != CheckBytes(Crc16(data[9..2 + SizeOf(data)])))
  {
    assert Bv(data[5]) & 0x01 == 0x00 || Bv(data[5]) & 0x01 == 0x01;
    if !IsAck(Bv(data[5])) && 7 <= SizeOf(data) < 0xFFFE {
      var body := data[7..2 + SizeOf(data)];
      assert body[..2] == data[7..9] && body[2..] == data[9..2 + SizeOf(data)];
      var check := CheckBytes(Crc16(body[2..]));
      CheckOfCheckBytes(Crc16(body[2..]));
      if CheckOf(body[0], body[1]) == Crc16(body[2..]) {
        CheckOfInjective(body[0], body[1], check[0], check[1]);
      }
    }
    hide Crc8, Crc16, CheckOf, CheckBytes, Bv;
  }

  // Round trips

  lemma CheckedHeaderDecodes(rest: seq<byte>, size: u16, flags: bv8)
    ensures var data := [SIG0, SIG1] + CheckedHeader(size, flags) + rest;
            && |data| == 7 + |rest| && data[0] == SIG0 && data[1] == SIG1 && data[4] == LL_TYPE
            && data[6] == Crc8(data[2..6]) && Le16(data[2], data[3]) == size && Bv(data[5]) == flags
            && data[7..] == rest
  {
    hide Crc8, Bv, FromBv;
    FromBvBv(flags);
    var data := [SIG0, SIG1] + CheckedHeader(size, flags) + rest;
    assert data[2..6] == PutLe16(size) + [LL_TYPE, FromBv(flags)];
  }

  lemma AckRoundTrip(ackSeq: bv8)
    ensures WellSized(AckFrame(ackSeq))
    ensures Decode(AckFrame(ackSeq)) == Ok(Frame(LLHeader(5, AckFlags(ackSeq)), NO_HL, []))
    ensures IsAck(AckFlags(ackSeq)) && AckSeq(AckFlags(ackSeq)) == ackSeq & 0x03
  {
    AckFlagsMeaning(ackSeq);
    CheckedHeaderDecodes([], 5, AckFlags(ackSeq));
    hide Crc8, Crc16, CheckOf, Bv, IsAck, AckFlags, AckSeq, CheckedHeader;
    assert AckFrame(ackSeq) + [] == AckFrame(ackSeq);
  }

  lemma BodyDecodes(ll: LLHeader, hl: seq<byte>)
    ensures DecodeBody(ll, CheckBytes(Crc16(hl)) + hl) == DecodeHL(ll, hl)
  {
    CheckOfCheckBytes(Crc16(hl));
    hide Crc16, CheckOf, CheckBytes, DecodeHL;
    assert (CheckBytes(Crc16(hl)) + hl)[2..] == hl;
  }

  lemma CheckedFrameDecodes(f: seq<byte>)
    requires HeaderOk(f) && !IsAck(Bv(f[5])) && |f| == 2 + SizeOf(f) && 5 <= SizeOf(f) < 0xFFFE
    ensures Decode(f) == DecodeBody(LLHeader(SizeOf(f), Bv(f[5])), f[7..])
  {
    hide Crc8, Bv, IsAck, DecodeBody;
    assert f[7..2 + SizeOf(f)] == f[7..];
  }

  /** The fields of an encoded data frame; its body is cut short where the size field wrapped. */
  lemma DataFrameFields(pktSeq: bv8, hl: seq<byte>)
    requires SizeField(|hl|) >= 7
    ensures DataFrame(pktSeq, hl).Some?
    ensures var f := DataFrame(pktSeq, hl).value;
            && |f| == 2 + SizeField(|hl|) && SizeOf(f) == SizeField(|hl|) && HeaderOk(f)
            && Bv(f[5]) == DataFlags(pktSeq) && f[7..] == CheckBytes(Crc16(hl)) + hl[..SizeField(|hl|) - 7]
  {
    var size := SizeField(|hl|);
    var body := CheckBytes(Crc16(hl)) + hl[..size - 7];
    CheckedHeaderDecodes(body, size, DataFlags(pktSeq));
    hide Crc8, Crc16, CheckBytes, DataFlags, CheckedHeader, Bv;
    assert [SIG0, SIG1] + CheckedHeader(size, DataFlags(pktSeq)) + CheckBytes(Crc16(hl)) + hl[..size - 7]
        == [SIG0, SIG1] + CheckedHeader(size, DataFlags(pktSeq)) + body;
  }

  lemma DropDrop(f: seq<byte>, crc: seq<byte>, hl: seq<byte>)
    requires |crc| == 2 && |f| == 9 + |hl| && f[7..] == crc + hl[..|hl|]
    ensures f[7..] == crc + hl && f[9..] == hl
  {
    assert hl[..|hl|] == hl;
    assert f[9..] == f[7..][2..];
  }

  lemma DataFrameDecodes(pktSeq: bv8, hl: seq<byte>)
    requires 7 + |hl| < 0xFFFE
    ensures DataFrame(pktSeq, hl).Some?
    ensures var f := DataFrame(pktSeq, hl).value;
            |f| == 9 + |hl| && SizeOf(f) == 7 + |hl| && f[9..] == hl
            && Decode(f) == DecodeHL(LLHeader(7 + |hl|, DataFlags(pktSeq)), hl)
  {
    assert SizeField(|hl|) == 7 + |hl|;
    DataFrameFields(pktSeq, hl);
    DataFlagsMeaning(pktSeq);
    BodyDecodes(LLHeader(7 + |hl|, DataFlags(pktSeq)), hl);
    hide Decode, DecodeBody, DecodeHL, DataFrame, HeaderOk, DataFlags, IsAck, PktSeq, CheckBytes, Crc16, Bv, SizeField;
    var f := DataFrame(pktSeq, hl).value;
    CheckedFrameDecodes(f);
    DropDrop(f, CheckBytes(Crc16(hl)), hl);
  }

  lemma RequestHLDecodes(ll: LLHeader, callID: u16, tsn: byte, payload: seq<byte>)
    ensures DecodeHL(ll, RequestHL(callID, tsn, payload))
         == Ok(Frame(ll, HLHeader(HL_VERSION, HL_REQUEST, callID, tsn, 0, 0), payload))
  {
    assert RequestHL(callID, tsn, payload)[5..] == payload;
  }

  /** The frame a decoder should see for a request. */
  function RequestAsSent(callID: u16, tsn: byte, pktSeq: bv8, payload: seq<byte>): Frame {
    Frame(LLHeader(12 + |payload|, DataFlags(pktSeq)), HLHeader(HL_VERSION, HL_REQUEST, callID, tsn, 0, 0), payload)
  }

  /** A request decodes to itself exactly when its size field stays below 0xFFFE. */
  lemma RequestRoundTrip(callID: u16, tsn: byte, pktSeq: bv8, payload: seq<byte>)
    ensures var r := RequestFrame(callID, tsn, pktSeq, payload);
            (r.Some? && Decode(r.value) == Ok(RequestAsSent(callID, tsn, pktSeq, payload))) <==> 12 + |payload| < 0xFFFE
    ensures PktSeq(DataFlags(pktSeq)) == pktSeq & 0x03 && !IsAck(DataFlags(pktSeq))
  {
    DataFlagsMeaning(pktSeq);
    var hl := RequestHL(callID, tsn, payload);
    if 12 + |payload| < 0xFFFE {
      DataFrameDecodes(pktSeq, hl);
      RequestHLDecodes(LLHeader(7 + |hl|, DataFlags(pktSeq)), callID, tsn, payload);
    } else {
      OversizedFrame(pktSeq, hl);
    }
    hide DataFrame, Decode, DecodeHL, RequestHL;
  }

  lemma OversizedFrame(pktSeq: bv8, hl: seq<byte>)
    requires 7 + |hl| >= 0xFFFE
    ensures var r := DataFrame(pktSeq, hl);
            || r.None? || Decode(r.value).Panic?
            || (Decode(r.value).Ok? ==> Decode(r.value).value.ll.length < 7 + |hl|)
  {
    var size := SizeField(|hl|);
    if size >= 7 {
      DataFrameFields(pktSeq, hl);
      DataFlagsMeaning(pktSeq);
      var f := DataFrame(pktSeq, hl).value;
      hide Decode, CheckBytes, Crc16, Crc8, DataFlags, DataFrame, IsAck;
      DecodedLength(f);
      DecodePanicsIff(f);
    }
  }

  /** Responses from the NCP: sequence number, status category and status code in this order, then the payload. */
  lemma ResponseRoundTrip(callID: u16, tsn: byte, cat: byte, code: byte, pktSeq: bv8, payload: seq<byte>)
    ensures var r := DataFrame(pktSeq, [0x00, 0x01] + PutLe16(callID) + [tsn, cat, code] + payload);
            (r.Some? && Decode(r.value) == Ok(Frame(LLHeader(14 + |payload|, DataFlags(pktSeq)),
                                                    HLHeader(0x00, 0x01, callID, tsn, cat, code), payload)))
            <==> 14 + |payload| < 0xFFFE
  {
    var hl := [0x00, 0x01] + PutLe16(callID) + [tsn, cat, code] + payload;
    assert hl[7..] == payload && hl[0] == 0x00 && hl[1] == 0x01 && hl[4] == tsn && hl[5] == cat && hl[6] == code;
    assert Le16(hl[2], hl[3]) == callID;
    if 7 + |hl| < 0xFFFE {
      DataFrameDecodes(pktSeq, hl);
    } else {
      OversizedFrame(pktSeq, hl);
    }
    hide DataFrame, Decode, DataFlags, PutLe16, Le16;
  }

  /** Indications from the NCP: no sequence number and no status, the payload right behind the call. */
  lemma IndicationRoundTrip(callID: u16, pktSeq: bv8, payload: seq<byte>)
    ensures var r := DataFrame(pktSeq, [0x00, 0x02] + PutLe16(callID) + payload);
            (r.Some? && Decode(r.value) == Ok(Frame(LLHeader(11 + |payload|, DataFlags(pktSeq)),
                                                    HLHeader(0x00, 0x02, callID, 0, 0, 0), payload)))
            <==> 11 + |payload| < 0xFFFE
  {
    var hl := [0x00, 0x02] + PutLe16(callID) + payload;
    assert hl[4..] == payload && hl[0] == 0x00 && hl[1] == 0x02 && Le16(hl[2], hl[3]) == callID;
    if 7 + |hl| < 0xFFFE {
      DataFrameDecodes(pktSeq, hl);
    } else {
      OversizedFrame(pktSeq, hl);
    }
    hide DataFrame, Decode, DataFlags, PutLe16, Le16;
  }

  /**
    * Exactly which high-level data is refused, and how: too short for its type, or of a type above 2. All other starts
    * with version, type and call.
    */
  lemma RefusedData(pktSeq: bv8, hl: seq<byte>)
    requires 7 + |hl| < 0xFFFE
    ensures DataFrame(pktSeq, hl).Some?
    ensures var d := Decode(DataFrame(pktSeq, hl).value);
            && (d == Err(HLTooShort) <==>
                 |hl| < 4 || (hl[1] == 0x00 && |hl| < 5) || (hl[1] == 0x01 && |hl| < 7))
            && (d == Err(UnknownPacketType) <==> |hl| >= 4 && hl[1] > 0x02)
            && (d.Ok? <==> d != Err(HLTooShort) && d != Err(UnknownPacketType))
            && (d.Ok? ==> d.value.hl.version == hl[0] && d.value.hl.packetType == hl[1]
                          && d.value.hl.callID == hl[2] as nat + 256 * hl[3] as nat)
  {
    DataFrameDecodes(pktSeq, hl);
    hide DataFrame, Decode, DataFlags, Le16;
  }

  /** The bytes of an encoded request: signature, size, type 6, both fragment bits and the sequence, checks, header. */
  lemma RequestBytes(callID: u16, tsn: byte, pktSeq: bv8, payload: seq<byte>)
    requires 12 + |payload| < 0xFFFE
    ensures var hl := [0x00, 0x00] + PutLe16(callID) + [tsn] + payload;
            var covered := PutLe16(12 + |payload|) + [0x06, FromBv(0xC0 | ((pktSeq & 0x03) << 2))];
            RequestFrame(callID, tsn, pktSeq, payload)
              == Some([0xDE, 0xAD] + covered + [Crc8(covered)] + CheckBytes(Crc16(hl)) + hl)
  {
    var hl := [0x00, 0x00] + PutLe16(callID) + [tsn] + payload;
    DataFlagsBits(pktSeq);
    assert RequestHL(callID, tsn, payload) == hl && hl[..|hl|] == hl;
    assert SizeField(|hl|) == 12 + |payload|;
    var covered := PutLe16(12 + |payload|) + [0x06, FromBv(DataFlags(pktSeq))];
    assert CheckedHeader(12 + |payload|, DataFlags(pktSeq)) == covered + [Crc8(covered)];
    assert RequestFrame(callID, tsn, pktSeq, payload)
      == Some([0xDE, 0xAD] + (covered + [Crc8(covered)]) + CheckBytes(Crc16(hl)) + hl);
    hide *;
    assert [0xDE, 0xAD] + (covered + [Crc8(covered)]) == [0xDE, 0xAD] + covered + [Crc8(covered)];
  }

  lemma DataFlagsBits(pktSeq: bv8)
    ensures DataFlags(pktSeq) == 0xC0 | ((pktSeq & 0x03) << 2)
  {}

  /** The bytes of an acknowledgement. */
  lemma AckBytes(ackSeq: bv8)
    ensures var covered := [0x05, 0x00, 0x06, FromBv(0x01 | ((ackSeq & 0x03) << 4))];
            AckFrame(ackSeq) == [0xDE, 0xAD] + covered + [Crc8(covered)]
  {
    AckFlagsBits(ackSeq);
    var covered := [0x05, 0x00, 0x06, FromBv(AckFlags(ackSeq))];
    assert PutLe16(5) + [0x06, FromBv(AckFlags(ackSeq))] == covered;
    assert AckFrame(ackSeq) == [0xDE, 0xAD] + (covered + [Crc8(covered)]);
    hide *;
    assert [0xDE, 0xAD] + (covered + [Crc8(covered)]) == [0xDE, 0xAD] + covered + [Crc8(covered)];
  }

  lemma AckFlagsBits(ackSeq: bv8)
    ensures AckFlags(ackSeq) == 0x01 | ((ackSeq & 0x03) << 4)
  {}

  lemma DecodedLength(data: seq<byte>)
    ensures Decode(data).Ok? ==> |data| >= 7 && Decode(data).value.ll.length == SizeOf(data)
  {
    hide Crc8, Crc16, CheckOf, Bv, IsAck;
  }

  // Corruption

  /** The header check holds exactly when the CRC-8 register over bytes 2 to 6 ends at the residue. */
  lemma HeaderResidue(f: seq<byte>)
    requires |f| >= 7
    ensures f[6] == Crc8(f[2..6]) <==> Divide(POLY8, 0xFF, BitsOf(f[2..7])) == Shifts(POLY8, 0xFF, 8)
  {
    hide Crc8, BitsOf, Divide, Shifts;
    Crc8Residue(f[2..6], f[6]);
    assert f[2..7] == f[2..6] + [f[6]];
  }

  /** Any error burst of at most 8 bits in size, type, flags and CRC-8 makes decoding fail. */
  lemma HeaderBurstRejected(f: seq<byte>, g: seq<byte>, at: nat, len: nat)
    requires HeaderOk(f) && |g| == |f|
    requires Burst(BitsOf(f[2..7]), BitsOf(g[2..7]), at, len) && len <= 8
    ensures Decode(g).Err?
  {
    HeaderResidue(f);
    HeaderResidue(g);
    BurstDetected(POLY8, 0xFF, BitsOf(f[2..7]), BitsOf(g[2..7]), at, len);
    hide Crc8, BitsOf, Divide, Shifts, Burst, DecodeBody;
  }

  /** A decoded data frame without trailing bytes. */
  predicate ExactDataFrame(f: seq<byte>) {
    && HeaderOk(f) && |f| == 2 + SizeOf(f) && 7 <= SizeOf(f) < 0xFFFE && !IsAck(Bv(f[5]))
    && CheckOf(f[7], f[8]) == Crc16(f[9..])
  }

  lemma ExactDataFrameDecodes(f: seq<byte>)
    requires HeaderOk(f) && |f| == 2 + SizeOf(f) && 7 <= SizeOf(f) < 0xFFFE && !IsAck(Bv(f[5]))
    ensures Decode(f) == if CheckOf(f[7], f[8]) == Crc16(f[9..]) then DecodeHL(LLHeader(SizeOf(f), Bv(f[5])), f[9..])
                         else Err(BodyCrcMismatch)
  {
    CheckedFrameDecodes(f);
    hide Crc16, CheckOf, Bv, IsAck, HeaderOk, Decode, DecodeHL;
    assert f[7..][2..] == f[9..];
  }

  /** Any error burst of at most 16 bits in the high-level data makes decoding fail. */
  lemma BodyBurstRejected(f: seq<byte>, g: seq<byte>, at: nat, len: nat)
    requires ExactDataFrame(f) && |g| == |f| && g[..9] == f[..9]
    requires Burst(BitsOf(f[9..]), BitsOf(g[9..]), at, len) && len <= 16
    ensures Decode(g) == Err(BodyCrcMismatch)
  {
    SameHeader(f, g, 9);
    BurstDetected(POLY16, 0, BitsOf(f[9..]), BitsOf(g[9..]), at, len);
    hide CheckOf, Bv, IsAck, HeaderOk, Decode, DecodeHL, BitsOf, Divide, Burst;
    assert f[7] == f[..9][7] && f[8] == f[..9][8];
    assert g[7] == g[..9][7] && g[8] == g[..9][8];
    ExactDataFrameDecodes(g);
  }

  lemma SameHeader(f: seq<byte>, g: seq<byte>, n: nat)
    requires 7 <= n <= |f| == |g| && f[..n] == g[..n] && HeaderOk(f)
    ensures HeaderOk(g) && SizeOf(g) == SizeOf(f) && g[5] == f[5]
  {
    hide Crc8;
    assert forall i | 0 <= i < 7 :: f[i] == f[..n][i] == g[i];
    assert f[2..6] == g[2..6];
  }

  /** Replacing the CRC-16 field by any other makes decoding fail. */
  lemma CheckFieldRejected(f: seq<byte>, g: seq<byte>)
    requires ExactDataFrame(f) && |g| == |f| && g[..7] == f[..7] && g[9..] == f[9..] && g[7..9] != f[7..9]
    ensures Decode(g) == Err(BodyCrcMismatch)
  {
    SameHeader(f, g, 7);
    ExactDataFrameDecodes(g);
    assert f[7..9] == [f[7], f[8]] && g[7..9] == [g[7], g[8]];
    if CheckOf(f[7], f[8]) == CheckOf(g[7], g[8]) {
      CheckOfInjective(f[7], f[8], g[7], g[8]);
    }
    hide CheckOf, Crc16, Decode;
  }

  lemma ByteBurst(s: seq<byte>, i: nat, b: byte)
    requires i < |s| && b != s[i]
    ensures Burst(BitsOf(s), BitsOf(s[i := b]), 8 * i, 8)
  {
    hide BitsOf, Burst;
    assert s == s[..i] + [s[i]] + s[i + 1..] && s[i := b] == s[..i] + [b] + s[i + 1..];
    BytesBurst(s[..i], [s[i]], [b], s[i + 1..]);
  }

  /** Replacing any one byte of a decodable frame by another makes decoding fail, wherever it is. */
  lemma ByteRejected(f: seq<byte>, i: nat, b: byte)
    requires ExactDataFrame(f) || (HeaderOk(f) && |f| == 7)
    requires i < |f| && b != f[i]
    ensures Decode(f[i := b]).Err?
  {
    var g := f[i := b];
    hide BitsOf, Burst, Crc8, Crc16, CheckOf, Bv, IsAck, DecodeBody;
    if i < 2 {
    } else if i < 7 {
      assert g[2..7] == f[2..7][i - 2 := b];
      ByteBurst(f[2..7], i - 2, b);
      HeaderBurstRejected(f, g, 8 * (i - 2), 8);
    } else if i < 9 {
      assert g[7..9][i - 7] == b;
      assert g[..7] == f[..7] && g[9..] == f[9..];
      CheckFieldRejected(f, g);
    } else {
      assert g[9..] == f[9..][i - 9 := b];
      assert g[..9] == f[..9];
      ByteBurst(f[9..], i - 9, b);
      BodyBurstRejected(f, g, 8 * (i - 9), 8);
    }
  }

  /** So does any change confined to two adjacent bytes of the high-level data. */
  lemma TwoBytesRejected(f: seq<byte>, i: nat, b: byte, c: byte)
    requires ExactDataFrame(f) && 9 <= i && i + 1 < |f| && (b != f[i] || c != f[i + 1])
    ensures Decode(f[i := b][i + 1 := c]) == Err(BodyCrcMismatch)
  {
    var g := f[i := b][i + 1 := c];
    hide ExactDataFrame, BitsOf, Burst, Decode;
    assert f[9..] == f[9..i] + [f[i], f[i + 1]] + f[i + 2..];
    assert g[9..] == f[9..i] + [b, c] + f[i + 2..];
    assert [f[i], f[i + 1]] != [b, c] by { assert [b, c][0] == b && [b, c][1] == c; }
    BytesBurst(f[9..i], [f[i], f[i + 1]], [b, c], f[i + 2..]);
    assert g[..9] == f[..9];
    BodyBurstRejected(f, g, 8 * (i - 9), 16);
  }

  /** Every encoded request is covered by the corruption results... */
  lemma RequestFrameExact(callID: u16, tsn: byte, pktSeq: bv8, payload: seq<byte>)
    requires 12 + |payload| < 0xFFFE
    ensures var r := RequestFrame(callID, tsn, pktSeq, payload); r.Some? && ExactDataFrame(r.value)
  {
    var hl := RequestHL(callID, tsn, payload);
    assert SizeField(|hl|) == 7 + |hl|;
    DataFlagsMeaning(pktSeq);
    DataFrameFields(pktSeq, hl);
    CheckOfCheckBytes(Crc16(hl));
    hide RequestHL, HeaderOk, Bv, IsAck, PktSeq, DataFlags, DataFrame, CheckOf, CheckBytes, Crc16, SizeField;
    var f := DataFrame(pktSeq, hl).value;
    DropDrop(f, CheckBytes(Crc16(hl)), hl);
    assert f[7] == f[7..][0] && f[8] == f[7..][1];
  }

  /** ... and so is every acknowledgement. */
  lemma AckFrameExact(ackSeq: bv8)
    ensures HeaderOk(AckFrame(ackSeq)) && |AckFrame(ackSeq)| == 7
  {
    CheckedHeaderDecodes([], 5, AckFlags(ackSeq));
    hide Crc8, Bv, AckFlags, CheckedHeader;
    assert AckFrame(ackSeq) + [] == AckFrame(ackSeq);
  }
}
