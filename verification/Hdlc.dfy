/** HDLC-Lite framing: byte stuffing and FCS-16 as in RFC 1662, and the flag-delimited reader. */
module Hdlc {
  import opened Bytes
  import opened Crc
  import opened CrcTables
  import opened Outcomes
  import opened ByteReader

  const FLAG: byte := 0x7E
  const ESCAPE: byte := 0x7D
  const MAX_FRAME: nat := 4096

  datatype HdlcError = Empty | TooShort | BadFcs

  function Flip(b: byte): byte {
    FromBv(Bv(b) ^ 0x20)
  }

  lemma FlipTwice(b: byte)
    ensures Flip(Flip(b)) == b
  {
    FromBvBv(Bv(b) ^ 0x20);
    BvFromBv(b);
    FlipBv(Bv(b));
    hide Bv, FromBv;
  }

  lemma FlipBv(v: bv8)
    ensures (v ^ 0x20) ^ 0x20 == v
  {}

  lemma FlipSpecials()
    ensures Flip(FLAG) == 0x5E && Flip(ESCAPE) == 0x5D
  {}

  // Byte stuffing (RFC 1662, section 4.2)

  function Escape(s: seq<byte>): seq<byte> {
    if |s| == 0 then []
    else (if s[0] == FLAG || s[0] == ESCAPE then [ESCAPE, Flip(s[0])] else [s[0]]) + Escape(s[1..])
  }

  function Unescape(s: seq<byte>, escaped: bool): seq<byte> {
    if |s| == 0 then []
    else if escaped then [Flip(s[0])] + Unescape(s[1..], false)
    else if s[0] == ESCAPE then Unescape(s[1..], true)
    else [s[0]] + Unescape(s[1..], false)
  }

  lemma {:induction false} UnescapeEscape(s: seq<byte>)
    ensures Unescape(Escape(s), false) == s
  {
    hide Flip;
    if |s| > 0 {
      UnescapeEscape(s[1..]);
      FlipTwice(s[0]);
      var e := Escape(s);
      if s[0] == FLAG || s[0] == ESCAPE {
        assert e[1..][1..] == Escape(s[1..]);
      } else {
        assert e[1..] == Escape(s[1..]);
      }
      assert s == [s[0]] + s[1..];
    }
  }

  lemma {:induction false} EscapeAppend(a: seq<byte>, b: seq<byte>)
    ensures Escape(a + b) == Escape(a) + Escape(b)
  {
    hide Flip;
    if |a| == 0 {
      assert a + b == b;
    } else {
      assert (a + b)[1..] == a[1..] + b;
      EscapeAppend(a[1..], b);
    }
  }

  lemma {:induction false} UnescapeAppend(a: seq<byte>, b: byte)
    ensures Unescape(a + [b], false) ==
              if EndsEscaped(a, false) then Unescape(a, false) + [Flip(b)]
              else if b == ESCAPE then Unescape(a, false)
              else Unescape(a, false) + [b]
    ensures EndsEscaped(a + [b], false) == (!EndsEscaped(a, false) && b == ESCAPE)
  {
    UnescapeAppendFrom(a, b, false);
  }

  /** Whether the unescaping loop ends with an escape it has not applied yet. */
  predicate EndsEscaped(s: seq<byte>, escaped: bool) {
    if |s| == 0 then escaped else EndsEscaped(s[1..], !escaped && s[0] == ESCAPE)
  }

  lemma {:induction false} UnescapeAppendFrom(a: seq<byte>, b: byte, escaped: bool)
    ensures Unescape(a + [b], escaped) ==
              if EndsEscaped(a, escaped) then Unescape(a, escaped) + [Flip(b)]
              else if b == ESCAPE then Unescape(a, escaped)
              else Unescape(a, escaped) + [b]
    ensures EndsEscaped(a + [b], escaped) == (!EndsEscaped(a, escaped) && b == ESCAPE)
    decreases |a|
  {
    hide Flip;
    if |a| == 0 {
      assert a + [b] == [b] && [b][1..] == [];
    } else {
      assert (a + [b])[1..] == a[1..] + [b];
      UnescapeAppendFrom(a[1..], b, !escaped && a[0] == ESCAPE);
    }
  }

  lemma {:induction false} EscapeHasNoFlag(s: seq<byte>)
    ensures FLAG !in Escape(s)
  {
    hide Flip;
    FlipSpecials();
    if |s| > 0 {
      EscapeHasNoFlag(s[1..]);
    }
  }

  // Encoding and decoding

  /** What hdlcEncode puts between the two flags. */
  function Inside(data: seq<byte>): seq<byte> {
    Escape(data + CheckBytes(Fcs16(data)))
  }

  function Encoded(data: seq<byte>): seq<byte> {
    [FLAG] + Inside(data) + [FLAG]
  }

  method Encode(data: seq<byte>) returns (frame: seq<byte>)
    ensures frame == Encoded(data)
  {
    hide Flip, Fcs16, Low, High;
    var fcs := ComputeFcs16(data);
    var withFcs := data + [FromBv(Low(fcs)), FromBv(High(fcs))];
    assert withFcs == data + CheckBytes(fcs);
    frame := [FLAG];
    for i := 0 to |withFcs|
      invariant frame == [FLAG] + Escape(withFcs[..i])
    {
      var b := withFcs[i];
      assert withFcs[..i + 1] == withFcs[..i] + [b];
      EscapeAppend(withFcs[..i], [b]);
      assert [b][1..] == [];
      if b == FLAG || b == ESCAPE {
        frame := frame + [ESCAPE];
        frame := frame + [Flip(b)];
      } else {
        frame := frame + [b];
      }
    }
    assert withFcs[..|withFcs|] == withFcs;
    frame := frame + [FLAG];
  }

  /** hdlcDecode on the unescaped bytes. */
  function Check(raw: seq<byte>): Outcome<seq<byte>, HdlcError> {
    var n := |raw|;
    if n < 2 then Err(TooShort)
    else if CheckOf(raw[n - 2], raw[n - 1]) != Fcs16(raw[..n - 2]) then Err(BadFcs)
    else Ok(raw[..n - 2])
  }

  function Decoded(data: seq<byte>): Outcome<seq<byte>, HdlcError> {
    if |data| == 0 then Err(Empty) else Check(Unescape(data, false))
  }

  method Decode(data: seq<byte>) returns (r: Outcome<seq<byte>, HdlcError>)
    ensures r == Decoded(data)
  {
    hide Flip, Fcs16, CheckOf;
    if |data| == 0 {
      return Err(Empty);
    }
    var raw: seq<byte> := [];
    var escaped := false;
    for i := 0 to |data|
      invariant raw == Unescape(data[..i], false) && escaped == EndsEscaped(data[..i], false)
    {
      var b := data[i];
      assert data[..i + 1] == data[..i] + [b];
      UnescapeAppend(data[..i], b);
      if escaped {
        raw := raw + [Flip(b)];
        escaped := false;
        continue;
      }
      if b == ESCAPE {
        escaped := true;
        continue;
      }
      raw := raw + [b];
    }
    assert data[..|data|] == data;
    var n := |raw|;
    if n < 2 {
      return Err(TooShort);
    }
    var payload := raw[..n - 2];
    var expected := ComputeFcs16(payload);
    if CheckOf(raw[n - 2], raw[n - 1]) != expected {
      return Err(BadFcs);
    }
    r := Ok(payload);
  }

  /** Stuffing byte by byte: the two special bytes become two each, and every other stays. */
  lemma EscapedBytes(b: byte, s: seq<byte>)
    ensures Escape([b] + s) ==
      (if b == 0x7E then [0x7D, 0x5E] else if b == 0x7D then [0x7D, 0x5D] else [b]) + Escape(s)
    ensures Escape([]) == []
  {
    FlipSpecials();
    assert ([b] + s)[1..] == s;
    hide Flip;
  }

  /** The bytes of a frame: a flag, the stuffed data and complemented FCS, low byte first, and a flag. */
  lemma FrameBytes(data: seq<byte>)
    ensures Encoded(data) == [0x7E] + Escape(data + [FromBv(Low(Fcs16(data))), FromBv(High(Fcs16(data)))]) + [0x7E]
  {
    hide Escape, Fcs16, Low, High;
  }

  lemma DecodeInside(data: seq<byte>)
    ensures Decoded(Inside(data)) == Ok(data)
    ensures FLAG !in Inside(data)
  {
    var raw := data + CheckBytes(Fcs16(data));
    CheckOfCheckBytes(Fcs16(data));
    hide Fcs16, CheckOf, CheckBytes;
    EscapeHasNoFlag(raw);
    UnescapeEscape(raw);
    assert raw[..|raw| - 2] == data;
  }

  /** Unescaped bytes are accepted exactly when the FCS register over all of them ends at 0xF0B8. */
  lemma AcceptsExactlyGoodFcs(raw: seq<byte>)
    ensures Check(raw).Ok? <==> |raw| >= 2 && FcsRegister(raw) == GOOD_FCS
  {
    hide Fcs16, CheckOf, FcsRegister;
    var n := |raw|;
    if n >= 2 {
      FcsResidue(raw[..n - 2], raw[n - 2], raw[n - 1]);
      assert raw[..n - 2] + [raw[n - 2]] + [raw[n - 1]] == raw;
    }
  }

  /** The error of whatever is not accepted: nothing at all, fewer than two bytes unescaped, a wrong FCS. */
  lemma Refused(data: seq<byte>)
    ensures Decoded(data) == Err(Empty) <==> data == []
    ensures Decoded(data) == Err(TooShort) <==> data != [] && |Unescape(data, false)| < 2
    ensures Decoded(data) == Err(BadFcs)
       <==> |Unescape(data, false)| >= 2 && FcsRegister(Unescape(data, false)) != GOOD_FCS
  {
    AcceptsExactlyGoodFcs(Unescape(data, false));
    hide Fcs16, CheckOf, FcsRegister;
  }

  /** A burst of at most 16 bits in accepted bytes, check value included, makes them rejected. */
  lemma BurstRejected(raw: seq<byte>, bad: seq<byte>, at: nat, len: nat)
    requires Check(raw).Ok? && |bad| == |raw| && Burst(BitsOf(raw), BitsOf(bad), at, len) && len <= 16
    ensures Check(bad) == Err(BadFcs)
  {
    hide BitsOf, Burst, Divide, Fcs16, CheckOf;
    AcceptsExactlyGoodFcs(raw);
    AcceptsExactlyGoodFcs(bad);
    BurstDetected(POLY16, 0xFFFF, BitsOf(raw), BitsOf(bad), at, len);
  }

  // The reader

  datatype Scanned = Found(frame: seq<byte>, rest: seq<byte>) | Exhausted

  /** The reader's state machine: outside or inside a frame, with the bytes gathered so far. */
  function Scan(s: seq<byte>, inFrame: bool, frame: seq<byte>): Scanned
    decreases |s|
  {
    if |s| == 0 then Exhausted
    else if s[0] == FLAG then
      if inFrame && |frame| > 0 then Found(frame, s[1..]) else Scan(s[1..], true, [])
    else if !inFrame then Scan(s[1..], false, frame)
    else if |frame| >= MAX_FRAME then Scan(s[1..], false, [])
    else Scan(s[1..], true, frame + [s[0]])
  }

  /** readHDLCFrame. */
  method ReadFrame(r: Reader) returns (f: Option<seq<byte>>)
    requires r.Valid()
    modifies r
    ensures r.Valid()
    ensures match Scan(old(r.Rest()), false, [])
            case Found(frame, rest) => f == Some(frame) && r.Rest() == rest
            case Exhausted => f == None && r.Rest() == []
  {
    var frame: seq<byte> := [];
    var inFrame := false;
    while true
      invariant r.Valid() && Scan(r.Rest(), inFrame, frame) == Scan(old(r.Rest()), false, [])
      decreases |r.Rest()|
    {
      var b := r.ReadByte();
      if b.None? {
        return None;
      }
      if b.value == FLAG {
        if inFrame && |frame| > 0 {
          return Some(frame);
        }
        inFrame, frame := true, [];
        continue;
      }
      if inFrame {
        if |frame| >= MAX_FRAME {
          inFrame, frame := false, [];
          continue;
        }
        frame := frame + [b.value];
      }
    }
  }

  /** Inside a frame, flag-free bytes are gathered up to the closing flag, unless there are too many. */
  lemma {:induction false} ScanInside(body: seq<byte>, rest: seq<byte>, frame: seq<byte>)
    requires FLAG !in body && |frame| <= MAX_FRAME
    ensures Scan(body + [FLAG] + rest, true, frame) ==
              if |frame| + |body| > MAX_FRAME then Scan(rest, true, [])
              else if |frame| + |body| > 0 then Found(frame + body, rest)
              else Scan(rest, true, [])
    decreases |body|
  {
    var s := body + [FLAG] + rest;
    if |body| == 0 {
      assert s[1..] == rest && frame + body == frame;
    } else {
      assert s[1..] == body[1..] + [FLAG] + rest;
      if |frame| >= MAX_FRAME {
        ScanOutside(body[1..], rest, []);
      } else {
        ScanInside(body[1..], rest, frame + [body[0]]);
        assert frame + [body[0]] + body[1..] == frame + body;
      }
    }
  }

  lemma {:induction false} ScanOutside(body: seq<byte>, rest: seq<byte>, frame: seq<byte>)
    requires FLAG !in body
    ensures Scan(body + [FLAG] + rest, false, frame) == Scan(rest, true, [])
    decreases |body|
  {
    var s := body + [FLAG] + rest;
    if |body| == 0 {
      assert s[1..] == rest;
    } else {
      assert s[1..] == body[1..] + [FLAG] + rest;
      ScanOutside(body[1..], rest, frame);
    }
  }

  predicate EndsWith(s: seq<byte>, t: seq<byte>) {
    |t| <= |s| && s[|s| - |t|..] == t
  }

  lemma EndsWithTail(s: seq<byte>, t: seq<byte>)
    requires |s| > 0 && EndsWith(s[1..], t)
    ensures EndsWith(s, t)
  {}

  /** A returned frame is non-empty, flag-free, within the limit, and stands between two flags of the stream. */
  lemma {:induction false} ScanSound(s: seq<byte>, inFrame: bool, frame: seq<byte>)
    requires FLAG !in frame && |frame| <= MAX_FRAME
    ensures match Scan(s, inFrame, frame)
            case Exhausted => true
            case Found(f, rest) =>
              && 0 < |f| <= MAX_FRAME && FLAG !in f && |rest| < |s|
              && ((inFrame && frame + s == f + [FLAG] + rest) || EndsWith(s, [FLAG] + f + [FLAG] + rest))
    decreases |s|, 0
  {
    if |s| == 0 {
    } else if s[0] == FLAG {
      assert s == [FLAG] + s[1..];
      if inFrame && |frame| > 0 {
        assert frame + s == frame + [FLAG] + s[1..];
      } else {
        ScanSoundFrom(s, true, []);
      }
    } else if !inFrame {
      ScanSoundFrom(s, false, frame);
    } else if |frame| >= MAX_FRAME {
      ScanSoundFrom(s, false, []);
    } else {
      ScanSoundFrom(s, true, frame + [s[0]]);
      assert frame + [s[0]] + s[1..] == frame + s;
    }
  }

  /** The same after one byte, from the state that byte leads to. */
  lemma ScanSoundFrom(s: seq<byte>, inFrame: bool, frame: seq<byte>)
    requires |s| > 0 && FLAG !in frame && |frame| <= MAX_FRAME
    ensures match Scan(s[1..], inFrame, frame)
            case Exhausted => true
            case Found(f, rest) =>
              && 0 < |f| <= MAX_FRAME && FLAG !in f && |rest| < |s| - 1
              && ((inFrame && frame + s[1..] == f + [FLAG] + rest) || EndsWith(s, [FLAG] + f + [FLAG] + rest))
              && (inFrame && frame == [] && s[0] == FLAG ==> EndsWith(s, [FLAG] + f + [FLAG] + rest))
    decreases |s| - 1, 1
  {
    ScanSound(s[1..], inFrame, frame);
    match Scan(s[1..], inFrame, frame)
    case Exhausted =>
    case Found(f, rest) =>
      var t := [FLAG] + f + [FLAG] + rest;
      if EndsWith(s[1..], t) {
        EndsWithTail(s, t);
      } else if inFrame && frame == [] && s[0] == FLAG {
        assert s == [FLAG] + s[1..] && [] + s[1..] == s[1..];
        assert s == [FLAG] + (f + [FLAG] + rest) == t;
      }
  }

  // Whole streams

  function ScanAll(s: seq<byte>): seq<seq<byte>>
    decreases |s|
  {
    match Scan(s, false, [])
    case Exhausted => []
    case Found(frame, rest) =>
      ScanSound(s, false, []);
      [frame] + ScanAll(rest)
  }

  function EncodedAll(ds: seq<seq<byte>>): seq<byte> {
    if |ds| == 0 then [] else Encoded(ds[0]) + EncodedAll(ds[1..])
  }

  /** The payloads whose stuffed form fits the reader. */
  function Fitting(ds: seq<seq<byte>>): seq<seq<byte>> {
    if |ds| == 0 then []
    else if |Inside(ds[0])| > 4096 then Fitting(ds[1..])
    else [ds[0]] + Fitting(ds[1..])
  }

  function DecodedAll(fs: seq<seq<byte>>): seq<Outcome<seq<byte>, HdlcError>> {
    if |fs| == 0 then [] else [Decoded(fs[0])] + DecodedAll(fs[1..])
  }

  function OkAll(ds: seq<seq<byte>>): seq<Outcome<seq<byte>, HdlcError>> {
    if |ds| == 0 then [] else [Ok(ds[0])] + OkAll(ds[1..])
  }

  lemma InsideNotEmpty(data: seq<byte>)
    ensures |Inside(data)| > 0
  {
    var raw := data + CheckBytes(Fcs16(data));
    hide Fcs16, CheckBytes, Flip;
    assert |raw| >= 2;
  }

  /** One encoding in front of a stream, from outside a frame or just after a flag. */
  lemma ScanEncoded(data: seq<byte>, rest: seq<byte>, inFrame: bool)
    ensures Scan(Encoded(data) + rest, inFrame, []) ==
              if |Inside(data)| > MAX_FRAME then Scan(rest, true, []) else Found(Inside(data), rest)
  {
    DecodeInside(data);
    InsideNotEmpty(data);
    hide Inside, Decoded;
    var s := Encoded(data) + rest;
    assert s[1..] == Inside(data) + [FLAG] + rest;
    ScanInside(Inside(data), rest, []);
    assert [] + Inside(data) == Inside(data);
  }

  /** Before a flag it makes no difference whether the reader is inside an empty frame. */
  lemma ScanBeforeFlag(ds: seq<seq<byte>>)
    ensures Scan(EncodedAll(ds), true, []) == Scan(EncodedAll(ds), false, [])
  {
    hide Inside;
    if |ds| > 0 {
      assert EncodedAll(ds)[0] == FLAG;
    }
  }

  /** Concatenated encodings are read and decoded in order; an oversized one is lost alone. */
  lemma {:induction false} StreamRoundTrip(ds: seq<seq<byte>>)
    ensures DecodedAll(ScanAll(EncodedAll(ds))) == OkAll(Fitting(ds))
  {
    hide Inside, Decoded, Encoded;
    if |ds| > 0 {
      ScanEncoded(ds[0], EncodedAll(ds[1..]), false);
      DecodeInside(ds[0]);
      StreamRoundTrip(ds[1..]);
      if |Inside(ds[0])| > MAX_FRAME {
        ScanBeforeFlag(ds[1..]);
        ScanAllSame(EncodedAll(ds), EncodedAll(ds[1..]));
      } else {
        assert ScanAll(EncodedAll(ds))[1..] == ScanAll(EncodedAll(ds[1..]));
      }
    }
  }

  lemma ScanAllSame(s: seq<byte>, t: seq<byte>)
    requires Scan(s, false, []) == Scan(t, false, [])
    ensures ScanAll(s) == ScanAll(t)
  {}
}
