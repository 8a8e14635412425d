/** The wire end to end: requests encoded, mixed with junk, damaged, scanned and decoded. */
module WireTheorem {
  import opened Bytes
  import opened Crc
  import opened Outcomes
  import opened ZbossFrame
  import opened ZbossIntegrity
  import opened RawReader

  /** A byte of the frame replaced on the way. */
  datatype Damage = Intact | Changed(at: nat, to: byte)

  datatype Sent =
    Sent(junk: seq<byte>, callID: u16, tsn: byte, pktSeq: bv8, payload: seq<byte>, damage: Damage)

  /** Requests that fit the reader, after junk that clears, damaged only behind the size field. */
  predicate Sendable(s: Sent) {
    && Clears(s.junk) && 12 + |s.payload| <= 4098
    && match s.damage
       case Intact => true
       case Changed(at, to) =>
         var r := RequestFrame(s.callID, s.tsn, s.pktSeq, s.payload);
         r.Some? && 4 <= at < |r.value| && to != r.value[at]
  }

  function OnWire(s: Sent): seq<byte>
    requires Sendable(s)
  {
    RequestFrameExact(s.callID, s.tsn, s.pktSeq, s.payload);
    var f := RequestFrame(s.callID, s.tsn, s.pktSeq, s.payload).value;
    if s.damage.Intact? then f else f[s.damage.at := s.damage.to]
  }

  function Items(ss: seq<Sent>): (items: seq<Item>)
    requires forall s | s in ss :: Sendable(s)
    ensures |items| == |ss|
  {
    if |ss| == 0 then [] else [Item(ss[0].junk, OnWire(ss[0]))] + Items(ss[1..])
  }

  /** What was sent and not damaged. */
  function Undamaged(ss: seq<Sent>): seq<Frame> {
    if |ss| == 0 then []
    else if ss[0].damage.Changed? then Undamaged(ss[1..])
    else [RequestAsSent(ss[0].callID, ss[0].tsn, ss[0].pktSeq, ss[0].payload)] + Undamaged(ss[1..])
  }

  lemma OnWireIsCut(s: Sent)
    requires Sendable(s)
    ensures Signed(OnWire(s)) && WellSized(OnWire(s))
  {
    RequestFrameExact(s.callID, s.tsn, s.pktSeq, s.payload);
    RequestLength(s);
    hide RequestFrame, Crc8, Crc16, CheckOf, Bv, IsAck;
  }

  lemma RequestLength(s: Sent)
    requires 12 + |s.payload| <= 4098
    ensures var r := RequestFrame(s.callID, s.tsn, s.pktSeq, s.payload);
            r.Some? && |r.value| == 14 + |s.payload|
  {
    var hl := RequestHL(s.callID, s.tsn, s.payload);
    assert SizeField(|hl|) == 7 + |hl|;
    DataFrameFields(s.pktSeq, hl);
    hide DataFrame, RequestHL, HeaderOk, DataFlags, CheckBytes, Crc16, Bv;
  }

  lemma OnWireDecodes(s: Sent)
    requires Sendable(s)
    ensures if s.damage.Intact? then Decode(OnWire(s)) == Ok(RequestAsSent(s.callID, s.tsn, s.pktSeq, s.payload))
            else Decode(OnWire(s)).Err?
  {
    RequestRoundTrip(s.callID, s.tsn, s.pktSeq, s.payload);
    RequestFrameExact(s.callID, s.tsn, s.pktSeq, s.payload);
    hide Decode, RequestFrame, ExactDataFrame, PktSeq, IsAck, RequestAsSent;
    if s.damage.Changed? {
      ByteRejected(RequestFrame(s.callID, s.tsn, s.pktSeq, s.payload).value, s.damage.at, s.damage.to);
    }
  }

  lemma {:induction false} ItemsFrames(ss: seq<Sent>)
    requires forall s | s in ss :: Sendable(s)
    ensures forall it | it in Items(ss) :: GoodItem(it)
    ensures Received(FramesOf(Items(ss))) == Undamaged(ss)
  {
    hide OnWire, Decode, Clears, WellSized, Signed, RequestAsSent;
    if |ss| > 0 {
      assert Sendable(ss[0]);
      OnWireIsCut(ss[0]);
      OnWireDecodes(ss[0]);
      ItemsFrames(ss[1..]);
      assert Items(ss)[1..] == Items(ss[1..]);
      assert FramesOf(Items(ss))[1..] == FramesOf(Items(ss[1..]));
    }
  }

  lemma {:induction false} ReceivedAppend(a: seq<seq<byte>>, b: seq<seq<byte>>)
    ensures Received(a + b) == Received(a) + Received(b)
  {
    hide Decode;
    if a == [] {
      assert a + b == b;
    } else {
      assert (a + b)[1..] == a[1..] + b;
      ReceivedAppend(a[1..], b);
    }
  }

  /** Whatever was sent arrives complete, unchanged and in order; a damaged frame costs only itself. */
  lemma WireRoundTrip(ss: seq<Sent>, tail: seq<byte>)
    requires forall s | s in ss :: Sendable(s)
    ensures Received(ScanAll(Stream(Items(ss), tail))) == Undamaged(ss) + Received(ScanAll(tail))
  {
    ItemsFrames(ss);
    ScanAllFrames(Items(ss), tail);
    ReceivedAppend(FramesOf(Items(ss)), ScanAll(tail));
  }
}
