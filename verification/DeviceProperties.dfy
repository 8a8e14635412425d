/** The vendor property decoders: Xiaomi tag-type-value lists and Tuya data points. */
module DeviceProperties {
  import opened Bytes
  import opened Outcomes
  import Zcl
  import ZclRoundTrip

  /** What a decoder returns: the values found, and whether it gave up with an error. */
  datatype Found<V> = Found(values: map<byte, V>, failed: bool)

  /** Values found first, then those of a later part, which win. */
  function Then<V>(first: map<byte, V>, later: Found<V>): Found<V> {
    Found(first + later.values, later.failed)
  }

  // Xiaomi

  function Tlv(data: seq<byte>): Found<Zcl.Value> {
    if |data| < 2 then Found(map[], false)
    else
      match Zcl.DecodeValue(data[1], data[2..])
      case Ok((v, n)) =>
        ZclRoundTrip.DecodeStable(data[1], data[2..], []);
        Then(map[data[0] := v], Tlv(data[2 + n..]))
      case _ => Found(map[], true)
  }

  /** Every byte belongs to a decoded entry. */
  predicate FullyConsumed(data: seq<byte>) {
    |data| == 0 ||
    (|data| >= 2 &&
     match Zcl.DecodeValue(data[1], data[2..])
     case Ok((v, n)) =>
       ZclRoundTrip.DecodeStable(data[1], data[2..], []);
       FullyConsumed(data[2 + n..])
     case _ => false)
  }

  lemma TlvStep(data: seq<byte>, v: Zcl.Value, n: nat, rest: seq<byte>)
    requires |data| >= 2 && Zcl.DecodeValue(data[1], data[2..]) == Ok((v, n))
    requires 2 + n <= |data| && data[2 + n..] == rest
    ensures Tlv(data) == Then(map[data[0] := v], Tlv(rest))
    ensures FullyConsumed(data) == FullyConsumed(rest)
  {
    hide Zcl.DecodeValue;
  }

  lemma MapAssoc<V>(a: map<byte, V>, b: map<byte, V>, c: map<byte, V>)
    ensures (a + b) + c == a + (b + c)
  {}

  lemma ThenThen<V>(x: map<byte, V>, y: map<byte, V>, f: Found<V>)
    ensures Then(x, Then(y, f)) == Then(x + y, f)
    ensures Then(x, Found(y, f.failed)) == Found(x + y, f.failed)
  {
    MapAssoc(x, y, f.values);
  }

  lemma TlvStop(result: map<byte, Zcl.Value>, rest: seq<byte>)
    ensures |rest| < 2 ==> Then(result, Tlv(rest)) == Found(result, false)
    ensures |rest| >= 2 && !Zcl.DecodeValue(rest[1], rest[2..]).Ok? ==> Then(result, Tlv(rest)) == Found(result, true)
  {
    hide Zcl.DecodeValue;
    assert result + map[] == result;
  }

  lemma TlvContinue(result: map<byte, Zcl.Value>, rest: seq<byte>, v: Zcl.Value, n: nat)
    requires |rest| >= 2 && Zcl.DecodeValue(rest[1], rest[2..]) == Ok((v, n)) && 2 + n <= |rest|
    ensures Then(result, Tlv(rest)) == Then(result[rest[0] := v], Tlv(rest[2 + n..]))
  {
    hide Zcl.DecodeValue, Tlv;
    TlvStep(rest, v, n, rest[2 + n..]);
    ThenThen(result, map[rest[0] := v], Tlv(rest[2 + n..]));
    assert result + map[rest[0] := v] == result[rest[0] := v];
  }

  /** decodeXiaomiTLV. */
  method DecodeXiaomiTlv(data: seq<byte>) returns (r: Found<Zcl.Value>)
    ensures r == Tlv(data)
  {
    var result: map<byte, Zcl.Value> := map[];
    var pos := 0;
    assert data[0..] == data && Then(map[], Tlv(data)) == Tlv(data);
    hide Zcl.DecodeValue, Tlv, Then;
    while pos < |data|
      invariant pos <= |data| && Tlv(data) == Then(result, Tlv(data[pos..]))
    {
      ghost var rest := data[pos..];
      TlvStop(result, rest);
      if pos + 2 > |data| {
        return Found(result, false);
      }
      var tag, typeID := data[pos], data[pos + 1];
      pos := pos + 2;
      assert rest[2..] == data[pos..];
      var d := Zcl.DecodeValue(typeID, data[pos..]);
      if !d.Ok? {
        return Found(result, true);
      }
      var (val, consumed) := d.value;
      ZclRoundTrip.DecodeStable(typeID, data[pos..], []);
      TlvContinue(result, rest, val, consumed);
      pos := pos + consumed;
      assert rest[2 + consumed..] == data[pos..];
      result := result[tag := val];
    }
    TlvStop(result, data[pos..]);
    r := Found(result, false);
  }

  lemma TlvEmpty()
    ensures Tlv([]) == Found(map[], false)
  {}

  /** The first entry of a fully consumed list, alone and with more behind it. */
  lemma TlvHead(a: seq<byte>, b: seq<byte>) returns (v: Zcl.Value, n: nat)
    requires FullyConsumed(a) && |a| > 0
    ensures 2 + n <= |a| && FullyConsumed(a[2 + n..])
    ensures Tlv(a) == Then(map[a[0] := v], Tlv(a[2 + n..]))
    ensures Tlv(a + b) == Then(map[a[0] := v], Tlv(a[2 + n..] + b))
  {
    hide Zcl.DecodeValue, Tlv;
    ZclRoundTrip.DecodeStable(a[1], a[2..], b);
    v, n := Zcl.DecodeValue(a[1], a[2..]).value.0, Zcl.DecodeValue(a[1], a[2..]).value.1;
    assert (a + b)[2..] == a[2..] + b && (a + b)[2 + n..] == a[2 + n..] + b;
    TlvStep(a, v, n, a[2 + n..]);
    TlvStep(a + b, v, n, a[2 + n..] + b);
  }

  /** Decoding a fully consumed list in front of another overrides its values by those of the other. */
  lemma {:induction false} TlvAppend(a: seq<byte>, b: seq<byte>)
    requires FullyConsumed(a)
    ensures Tlv(a + b) == Then(Tlv(a).values, Tlv(b)) && !Tlv(a).failed
    decreases |a|
  {
    if |a| == 0 {
      TlvEmpty();
      assert a + b == b;
    } else {
      var v, n := TlvHead(a, b);
      TlvAppend(a[2 + n..], b);
      hide *;
      MapAssoc(map[a[0] := v], Tlv(a[2 + n..]).values, Tlv(b).values);
      ThenThen(map[a[0] := v], Tlv(a[2 + n..]).values, Tlv(b));
    }
  }

  datatype Entry = Entry(tag: byte, t: byte, v: Zcl.Value)

  function PrintEntries(fl: Zcl.Floats, es: seq<Entry>): seq<byte>
    requires forall e | e in es :: Zcl.EncodeValue(fl, e.t, e.v).Ok?
  {
    if |es| == 0 then []
    else [es[0].tag, es[0].t] + Zcl.EncodeValue(fl, es[0].t, es[0].v).value + PrintEntries(fl, es[1..])
  }

  /** The entries as a map in which a later entry of the same tag wins. */
  function EntryMap(fl: Zcl.Floats, es: seq<Entry>): map<byte, Zcl.Value>
    requires forall e | e in es :: Zcl.EncodeValue(fl, e.t, e.v).Ok?
  {
    if |es| == 0 then map[]
    else
      assert Zcl.EncodeValue(fl, es[0].t, es[0].v).Ok?;
      map[es[0].tag := ZclRoundTrip.Canonical(fl, Zcl.EncodeLayout(es[0].t), es[0].v)] + EntryMap(fl, es[1..])
  }

  lemma {:induction false} TlvRoundTrip(fl: Zcl.Floats, es: seq<Entry>)
    requires Zcl.GoFloats(fl) && forall e | e in es :: Zcl.GoValue(e.v)
    requires forall e | e in es :: Zcl.EncodeValue(fl, e.t, e.v).Ok?
    ensures Tlv(PrintEntries(fl, es)) == Found(EntryMap(fl, es), false)
    ensures FullyConsumed(PrintEntries(fl, es))
  {
    hide Zcl.EncodeValue, Zcl.DecodeValue, Zcl.EncodeLayout, ZclRoundTrip.Canonical, Zcl.GoFloats, Zcl.GoValue;
    if |es| > 0 {
      var e := Zcl.EncodeValue(fl, es[0].t, es[0].v).value;
      var rest := PrintEntries(fl, es[1..]);
      ZclRoundTrip.DecodeEncode(fl, es[0].t, es[0].v, rest);
      TlvRoundTrip(fl, es[1..]);
      var data := PrintEntries(fl, es);
      assert data[2..] == e + rest && data[2 + |e|..] == rest;
    }
  }

  /** How decoding ends behind printed entries: quietly with less than a header, with an error at a bad value. */
  lemma TlvEnds(fl: Zcl.Floats, es: seq<Entry>, tail: seq<byte>)
    requires Zcl.GoFloats(fl) && forall e | e in es :: Zcl.GoValue(e.v)
    requires forall e | e in es :: Zcl.EncodeValue(fl, e.t, e.v).Ok?
    ensures |tail| < 2 ==> Tlv(PrintEntries(fl, es) + tail) == Found(EntryMap(fl, es), false)
    ensures |tail| >= 2 && !Zcl.DecodeValue(tail[1], tail[2..]).Ok? ==>
      Tlv(PrintEntries(fl, es) + tail) == Found(EntryMap(fl, es), true)
  {
    TlvRoundTrip(fl, es);
    TlvAppend(PrintEntries(fl, es), tail);
    TlvStop(EntryMap(fl, es), tail);
    hide *;
  }

  // Tuya

  datatype DpValue = Raw(bytes: seq<byte>) | Flag(b: bool) | Number(n: nat) | Text(s: seq<byte>)

  function FromBe(s: seq<byte>): nat {
    if |s| == 0 then 0 else 256 * FromBe(s[..|s| - 1]) + s[|s| - 1] as nat
  }

  /** The value of a data point, where its data is long enough for its type. */
  function DpValueOf(dpType: byte, d: seq<byte>): Option<DpValue> {
    match dpType
    case 1 => if |d| >= 1 then Some(Flag(d[0] != 0)) else None
    case 2 => if |d| >= 4 then Some(Number(FromBe(d[..4]))) else None
    case 3 => Some(Text(d))
    case 4 => if |d| >= 1 then Some(Number(d[0] as nat)) else None
    case 5 => Some(Number(FromBe(d) % 0x1_0000_0000))
    case _ => Some(Raw(d))
  }

  function DpMap(id: byte, dpType: byte, d: seq<byte>): map<byte, DpValue> {
    match DpValueOf(dpType, d)
    case None => map[]
    case Some(v) => map[id := v]
  }

  function Dps(data: seq<byte>): Found<DpValue> {
    if |data| < 4 then Found(map[], false)
    else
      var n := FromBe(data[2..4]);
      if 4 + n > |data| then Found(map[], true)
      else Then(DpMap(data[0], data[1], data[4..4 + n]), Dps(data[4 + n..]))
  }

  /** The payload of a Tuya command: a two-byte sequence number, then data points. */
  function TuyaPayload(data: seq<byte>): Found<DpValue> {
    if |data| < 2 then Found(map[], false) else Dps(data[2..])
  }

  lemma ModUnique(z: nat, k: nat, r: nat)
    requires z == 0x1_0000_0000 * k + r && r < 0x1_0000_0000
    ensures z % 0x1_0000_0000 == r
  {
  }

  lemma FoldMod(x: nat, b: nat)
    ensures (256 * (x % 0x1_0000_0000) + b) % 0x1_0000_0000 == (256 * x + b) % 0x1_0000_0000
  {
    var q, r := x / 0x1_0000_0000, x % 0x1_0000_0000;
    var y := 256 * r + b;
    ModUnique(256 * x + b, 256 * q + y / 0x1_0000_0000, y % 0x1_0000_0000);
  }

  /** The uint32 fold of a bitmap. */
  method FoldBitmap(d: seq<byte>) returns (val: nat)
    ensures val == FromBe(d) % 0x1_0000_0000
  {
    val := 0;
    for i := 0 to |d|
      invariant val == FromBe(d[..i]) % 0x1_0000_0000
    {
      assert d[..i + 1][..i] == d[..i];
      FoldMod(FromBe(d[..i]), d[i] as nat);
      val := (256 * val + d[i] as nat) % 0x1_0000_0000;
    }
    assert d[..|d|] == d;
  }

  lemma DpsStep(data: seq<byte>, d: seq<byte>, rest: seq<byte>)
    requires |data| >= 4
    ensures 4 + FromBe(data[2..4]) > |data| ==> Dps(data) == Found(map[], true)
    ensures FromBe(data[2..4]) == |d| && data[4..] == d + rest ==>
              Dps(data) == Then(DpMap(data[0], data[1], d), Dps(rest))
  {
    hide FromBe, DpMap;
    if FromBe(data[2..4]) == |d| && data[4..] == d + rest {
      assert data[4..][..|d|] == d && data[4..][|d|..] == rest;
      assert data[4..4 + |d|] == d && data[4 + |d|..] == rest;
    }
  }

  /** Storing one data point, by its type. */
  method StoreDp(result: map<byte, DpValue>, dpID: byte, dpType: byte, dpData: seq<byte>)
    returns (r: map<byte, DpValue>)
    ensures r == result + DpMap(dpID, dpType, dpData)
  {
    hide FromBe;
    r := result;
    match dpType {
      case 1 =>
        if |dpData| >= 1 {
          r := result[dpID := Flag(dpData[0] != 0)];
        }
      case 2 =>
        if |dpData| >= 4 {
          r := result[dpID := Number(FromBe(dpData[..4]))];
        }
      case 3 =>
        r := result[dpID := Text(dpData)];
      case 4 =>
        if |dpData| >= 1 {
          r := result[dpID := Number(dpData[0] as nat)];
        }
      case 5 =>
        var val := FoldBitmap(dpData);
        r := result[dpID := Number(val)];
      case _ =>
        r := result[dpID := Raw(dpData)];
    }
  }

  /** decodeTuyaDPs. */
  method DecodeTuyaDps(data: seq<byte>) returns (r: Found<DpValue>)
    ensures r == TuyaPayload(data)
  {
    hide FromBe, DpMap, Dps;
    var result: map<byte, DpValue> := map[];
    if |data| < 2 {
      return Found(result, false);
    }
    var pos := 2;
    while pos + 4 <= |data|
      invariant 2 <= pos <= |data| && TuyaPayload(data) == Then(result, Dps(data[pos..]))
      decreases |data| - pos
    {
      ghost var rest, before := data[pos..], result;
      var dpID, dpType := data[pos], data[pos + 1];
      var dataLen := FromBe(data[pos + 2..pos + 4]);
      assert rest[2..4] == data[pos + 2..pos + 4];
      DpsStep(rest, [], []);
      ghost var at := pos + 4;
      assert rest[4..] == data[at..];
      pos := pos + 4;
      if pos + dataLen > |data| {
        return Found(result, true);
      }
      var dpData := data[pos..pos + dataLen];
      pos := pos + dataLen;
      assert data[at..] == dpData + data[pos..];
      DpsStep(rest, dpData, data[pos..]);
      result := StoreDp(result, dpID, dpType, dpData);
      MapAssoc(before, DpMap(dpID, dpType, dpData), Dps(data[pos..]).values);
    }
    DpsShort(data[pos..]);
    r := Found(result, false);
  }

  lemma DpsShort(data: seq<byte>)
    requires |data| < 4
    ensures Dps(data) == Found(map[], false)
  {}

  datatype DataPoint = DataPoint(id: byte, dpType: byte, d: seq<byte>)

  function PrintDp(p: DataPoint): seq<byte>
    requires |p.d| < 0x1_0000
  {
    [p.id, p.dpType, (|p.d| / 256) as byte, (|p.d| % 256) as byte] + p.d
  }

  function PrintDps(ps: seq<DataPoint>): seq<byte>
    requires forall p | p in ps :: |p.d| < 0x1_0000
  {
    if |ps| == 0 then [] else PrintDp(ps[0]) + PrintDps(ps[1..])
  }

  function DpsMap(ps: seq<DataPoint>): map<byte, DpValue> {
    if |ps| == 0 then map[] else DpMap(ps[0].id, ps[0].dpType, ps[0].d) + DpsMap(ps[1..])
  }

  lemma BigEndianPair(hi: byte, lo: byte)
    ensures FromBe([hi, lo]) == 256 * hi as nat + lo as nat
  {
    assert FromBe([]) == 0;
    assert [hi][..0] == [] && FromBe([hi]) == hi as nat;
    assert [hi, lo][..1] == [hi];
  }

  lemma DpRoundTrip(p: DataPoint, rest: seq<byte>)
    requires |p.d| < 0x1_0000
    ensures Dps(PrintDp(p) + rest) == Then(DpMap(p.id, p.dpType, p.d), Dps(rest))
  {
    hide DpMap, Dps, FromBe;
    var data := PrintDp(p) + rest;
    BigEndianPair(data[2], data[3]);
    assert data[2..4] == [data[2], data[3]];
    assert data[4..] == p.d + rest;
    DpsStep(data, p.d, rest);
  }

  /** A printed list of data points decodes to its values, a later one of the same number winning, whatever follows. */
  lemma {:induction false} DpsRoundTrip(ps: seq<DataPoint>, tail: seq<byte>)
    requires forall p | p in ps :: |p.d| < 0x1_0000
    ensures Dps(PrintDps(ps) + tail) == Then(DpsMap(ps), Dps(tail))
  {
    hide DpMap, Dps, PrintDp;
    if |ps| == 0 {
      assert PrintDps(ps) + tail == tail;
    } else {
      var rest := PrintDps(ps[1..]) + tail;
      assert PrintDps(ps) + tail == PrintDp(ps[0]) + rest;
      DpRoundTrip(ps[0], rest);
      DpsRoundTrip(ps[1..], tail);
      MapAssoc(DpMap(ps[0].id, ps[0].dpType, ps[0].d), DpsMap(ps[1..]), Dps(tail).values);
    }
  }
}
