/** Finding ZBOSS frames in a byte stream: scanning for the signature, cutting by the size field. */
module RawReader {
  import opened Bytes
  import opened Crc
  import opened Outcomes
  import opened ByteReader
  import opened ZbossFrame
  import opened ZbossIntegrity

  const MAX_REMAINING: nat := 4096

  datatype Scanned = Found(frame: seq<byte>, rest: seq<byte>) | Exhausted

  predicate GoodSize(size: nat) {
    3 <= size as int - 2 <= MAX_REMAINING
  }

  /** What the reader makes of the bytes s: the next frame and what follows it. */
  function Scan(s: seq<byte>): Scanned {
    if |s| == 0 then Exhausted
    else if s[0] != SIG0 then Scan(s[1..])
    else if |s| == 1 then Exhausted
    else if s[1] == SIG0 then Scan(s[1..])
    else if s[1] != SIG1 then Scan(s[2..])
    else if |s| < 4 then Exhausted
    else
      var size := Le16(s[2], s[3]);
      if !GoodSize(size) then Scan(s[4..])
      else if |s| < 2 + size then Exhausted
      else Found(s[..2 + size], s[2 + size..])
  }

  /** readRawZBOSSFrame. */
  method ReadRawFrame(r: Reader) returns (f: Option<seq<byte>>)
    requires r.Valid()
    modifies r
    ensures r.Valid()
    ensures match Scan(old(r.Rest()))
            case Found(frame, rest) => f == Some(frame) && r.Rest() == rest
            case Exhausted => f == None && r.Rest() == []
  {
    hide Scan, Le16;
    while true
      invariant r.Valid() && Scan(r.Rest()) == Scan(old(r.Rest()))
      decreases |r.Rest()|
    {
      ghost var s := r.Rest();
      ScanSteps(s);
      var b := r.ReadByte();
      if b.None? {
        return None;
      }
      if b.value != SIG0 {
        continue;
      }
      var b2 := r.ReadByte();
      if b2.None? {
        return None;
      }
      assert s[1..][1..] == s[2..];
      if b2.value != SIG1 {
        if b2.value == SIG0 {
          r.UnreadByte();
          assert r.Rest() == s[1..];
        }
        continue;
      }
      var sizeBuf := r.ReadFull(2);
      if sizeBuf.None? {
        return None;
      }
      assert r.Rest() == s[4..] && sizeBuf.value == s[2..4];
      var size := Le16(sizeBuf.value[0], sizeBuf.value[1]);
      var remaining := size as int - 2;
      if remaining < 3 || remaining > MAX_REMAINING {
        continue;
      }
      var body := r.ReadFull(remaining);
      if body.None? {
        return None;
      }
      f := Some([SIG0, SIG1] + sizeBuf.value + body.value);
      assert f.value == s[..2 + size] && r.Rest() == s[2 + size..];
      return;
    }
  }

  /** The cases of Scan, one for each way through the loop body. */
  lemma ScanSteps(s: seq<byte>)
    ensures |s| == 0 || (|s| == 1 && s[0] == SIG0) ==> Scan(s) == Exhausted
    ensures |s| > 0 && s[0] != SIG0 ==> Scan(s) == Scan(s[1..])
    ensures |s| > 1 && s[0] == SIG0 && s[1] == SIG0 ==> Scan(s) == Scan(s[1..])
    ensures |s| > 1 && s[0] == SIG0 && s[1] != SIG0 && s[1] != SIG1 ==> Scan(s) == Scan(s[2..])
    ensures |s| > 1 && s[0] == SIG0 && s[1] == SIG1 ==>
              Scan(s) == if |s| < 4 then Exhausted
                         else if !GoodSize(Le16(s[2], s[3])) then Scan(s[4..])
                         else if |s| < 2 + Le16(s[2], s[3]) then Exhausted
                         else Found(s[..2 + Le16(s[2], s[3])], s[2 + Le16(s[2], s[3])..])
  {}

  /** All frames of a stream, in order. */
  function ScanAll(s: seq<byte>): seq<seq<byte>>
    decreases |s|
  {
    match Scan(s)
    case Exhausted => []
    case Found(frame, rest) =>
      ScanSound(s);
      [frame] + ScanAll(rest)
  }

  // What the reader guarantees for every stream

  predicate Signed(f: seq<byte>) {
    |f| >= 2 && f[0] == SIG0 && f[1] == SIG1
  }

  /** A frame the reader returns lies in the stream, is signed, and is exactly as long as its size field says. */
  lemma {:induction false} ScanSound(s: seq<byte>)
    ensures match Scan(s)
            case Exhausted => true
            case Found(frame, rest) =>
              && Signed(frame) && WellSized(frame)
              && |frame| + |rest| <= |s| && s[|s| - |frame| - |rest|..] == frame + rest
    decreases |s|
  {
    if |s| == 0 || (s[0] == SIG0 && |s| == 1) {
    } else if s[0] != SIG0 || s[1] == SIG0 {
      ScanSound(s[1..]);
    } else if s[1] != SIG1 {
      ScanSound(s[2..]);
    } else if |s| >= 4 {
      if !GoodSize(Le16(s[2], s[3])) {
        ScanSound(s[4..]);
      }
    }
  }

  /** Whatever the port delivers, decoding what the reader returns does not panic. */
  lemma ReaderNeverPanics(s: seq<byte>, i: nat)
    requires i < |ScanAll(s)|
    ensures !Decode(ScanAll(s)[i]).Panic?
    decreases |s|
  {
    ScanSound(s);
    if i == 0 {
      WellSizedNeverPanics(Scan(s).frame);
    } else {
      ReaderNeverPanics(Scan(s).rest, i - 1);
    }
  }

  // Resynchronisation

  /**
    * Every signature the reader sees in the bytes is followed, still inside them, by a size out of range. They may end
    * in the first byte of a signature.
    */
  predicate Clears(junk: seq<byte>)
    decreases |junk|
  {
    if |junk| == 0 then true
    else if junk[0] != SIG0 then Clears(junk[1..])
    else if |junk| == 1 then true
    else if junk[1] == SIG0 then Clears(junk[1..])
    else if junk[1] != SIG1 then Clears(junk[2..])
    else |junk| >= 4 && !GoodSize(Le16(junk[2], junk[3])) && Clears(junk[4..])
  }

  /** Bytes in which the signature does not occur. */
  predicate NoSignature(junk: seq<byte>) {
    forall i | 0 <= i < |junk| - 1 :: !SignatureAt(junk, i)
  }

  predicate SignatureAt(s: seq<byte>, i: nat)
    requires i + 1 < |s|
  {
    s[i] == SIG0 && s[i + 1] == SIG1
  }

  lemma {:induction false} NoSignatureClears(junk: seq<byte>)
    requires NoSignature(junk)
    ensures Clears(junk)
    decreases |junk|
  {
    if |junk| > 1 {
      assert !SignatureAt(junk, 0);
      var n := if junk[0] != SIG0 || junk[1] == SIG0 then 1 else 2;
      assert forall i | 0 <= i < |junk| - n - 1 :: SignatureAt(junk[n..], i) == SignatureAt(junk, i + n);
      NoSignatureClears(junk[n..]);
    } else if |junk| == 1 && junk[0] != SIG0 {
      NoSignatureClears(junk[1..]);
    }
  }

  /** The reader comes out of such bytes exactly at their end. */
  lemma {:induction false} SkipsJunk(junk: seq<byte>, s: seq<byte>)
    requires Clears(junk) && (s == [] || Signed(s))
    ensures Scan(junk + s) == Scan(s)
    decreases |junk|
  {
    hide Le16;
    var t := junk + s;
    if |junk| == 0 {
      assert t == s;
    } else if |junk| == 1 || junk[0] != SIG0 || junk[1] == SIG0 {
      assert t[1..] == junk[1..] + s;
      SkipsJunk(junk[1..], s);
    } else if junk[1] != SIG1 {
      assert t[2..] == junk[2..] + s;
      SkipsJunk(junk[2..], s);
    } else {
      assert t[4..] == junk[4..] + s && t[2] == junk[2] && t[3] == junk[3];
      SkipsJunk(junk[4..], s);
    }
  }

  /** Other bytes do not end where the reader looks for the next frame: what it returns starts or ends elsewhere. */
  lemma {:induction false} MissesFrame(junk: seq<byte>, f: seq<byte>, rest: seq<byte>)
    requires Signed(f) && WellSized(f) && !Clears(junk)
    ensures Scan(junk + (f + rest)) != Found(f, rest)
    decreases |junk|
  {
    hide Le16, WellSized;
    var t := junk + (f + rest);
    if junk[0] != SIG0 || junk[1] == SIG0 {
      assert t[1..] == junk[1..] + (f + rest);
      MissesFrame(junk[1..], f, rest);
    } else if junk[1] != SIG1 {
      assert t[2..] == junk[2..] + (f + rest);
      MissesFrame(junk[2..], f, rest);
    } else if |junk| >= 4 && !GoodSize(Le16(t[2], t[3])) {
      assert t[4..] == junk[4..] + (f + rest);
      MissesFrame(junk[4..], f, rest);
    } else {
      ScanSound(t[4..]);
    }
  }

  /** A frame with a signature is returned whole, whatever follows it. */
  lemma CutsFrame(f: seq<byte>, rest: seq<byte>)
    requires Signed(f) && WellSized(f)
    ensures Scan(f + rest) == Found(f, rest)
  {
    assert (f + rest)[..|f|] == f && (f + rest)[|f|..] == rest;
  }

  /** The frame behind some junk is the next one found, whatever follows it, exactly when the junk clears. */
  lemma FindsFrame(junk: seq<byte>, f: seq<byte>, rest: seq<byte>)
    requires Signed(f) && WellSized(f)
    ensures Scan(junk + f + rest) == Found(f, rest) <==> Clears(junk)
  {
    assert junk + f + rest == junk + (f + rest);
    if Clears(junk) {
      SkipsJunk(junk, f + rest);
      CutsFrame(f, rest);
    } else {
      MissesFrame(junk, f, rest);
    }
  }

  /** A signature alone in front of a frame costs it its own: that is read as a size field. */
  lemma FalseSignatureEatsFrame(f: seq<byte>, rest: seq<byte>)
    requires Signed(f)
    ensures !Clears([SIG0, SIG1]) && Scan([SIG0, SIG1] + f + rest) == Scan(f[2..] + rest)
  {
    var s := [SIG0, SIG1] + f + rest;
    assert s[2] == SIG0 && s[3] == SIG1 && Le16(s[2], s[3]) == 0xADDE;
    assert s[4..] == f[2..] + rest;
  }

  // Whole streams

  datatype Item = Item(junk: seq<byte>, frame: seq<byte>)

  predicate GoodItem(it: Item) {
    Clears(it.junk) && Signed(it.frame) && WellSized(it.frame)
  }

  function Stream(items: seq<Item>, tail: seq<byte>): seq<byte> {
    if |items| == 0 then tail else items[0].junk + items[0].frame + Stream(items[1..], tail)
  }

  function FramesOf(items: seq<Item>): (fs: seq<seq<byte>>)
    ensures |fs| == |items|
  {
    if |items| == 0 then [] else [items[0].frame] + FramesOf(items[1..])
  }

  /** Frames separated by junk that clears come back exactly, in order, before whatever the rest of the stream holds. */
  lemma {:induction false} ScanAllFrames(items: seq<Item>, tail: seq<byte>)
    requires forall it | it in items :: GoodItem(it)
    ensures ScanAll(Stream(items, tail)) == FramesOf(items) + ScanAll(tail)
  {
    if |items| > 0 {
      assert GoodItem(items[0]);
      FindsFrame(items[0].junk, items[0].frame, Stream(items[1..], tail));
      ScanAllFrames(items[1..], tail);
    }
  }

  /** Junk that clears holds no frame. */
  lemma NothingInJunk(junk: seq<byte>)
    requires Clears(junk)
    ensures ScanAll(junk) == []
  {
    SkipsJunk(junk, []);
    assert junk + [] == junk;
  }

  /** The frames the read loop hands on: those that decode. */
  function Received(frames: seq<seq<byte>>): seq<Frame> {
    if |frames| == 0 then []
    else (match Decode(frames[0]) case Ok(f) => [f] case _ => []) + Received(frames[1..])
  }

  /** The reading part of readLoop: read, decode, drop what does not decode, until the port ends. */
  method ReadLoop(r: Reader) returns (got: seq<Frame>)
    requires r.Valid()
    modifies r
    ensures r.Valid() && r.Rest() == []
    ensures got == Received(ScanAll(old(r.Rest())))
  {
    hide Decode;
    got := [];
    while true
      invariant r.Valid() && got + Received(ScanAll(r.Rest())) == Received(ScanAll(old(r.Rest())))
      decreases |r.Rest()|
    {
      ghost var s := r.Rest();
      ScanSound(s);
      var f := ReadRawFrame(r);
      if f.None? {
        return;
      }
      assert ScanAll(s)[1..] == ScanAll(r.Rest());
      var d := Decode(f.value);
      if d.Ok? {
        got := got + [d.value];
      }
    }
  }
}
