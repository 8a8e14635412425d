/** The ZCL value codec in both directions, and its stability under trailing bytes. */
module ZclRoundTrip {
  import opened Bytes
  import opened Outcomes
  import opened Zcl

  // Little-endian fields in front of other bytes

  lemma UintField(n: nat, k: nat, rest: seq<byte>)
    requires n < Pow256(k)
    ensures FromLe((ToLe(n, k) + rest)[..k]) == n
  {
    FromLeToLe(n, k);
    assert (ToLe(n, k) + rest)[..k] == ToLe(n, k);
  }

  lemma IntField(i: int, k: nat, rest: seq<byte>)
    requires -(Pow256(k) as int) <= 2 * i < Pow256(k)
    ensures Signed(FromLe((ToLe(if i < 0 then i + Pow256(k) else i, k) + rest)[..k]), k) == i
  {
    UintField(if i < 0 then i + Pow256(k) else i, k, rest);
  }

  lemma FieldUint(data: seq<byte>, k: nat)
    requires k <= |data|
    ensures FromLe(data[..k]) < Pow256(k) && ToLe(FromLe(data[..k]), k) == data[..k]
  {
    ToLeFromLe(data[..k]);
  }

  lemma LowTwoBytes(n: nat)
    ensures ToLe(n, 2) == ToLe(n % 0x1_0000, 2)
  {
    var m := n % 0x1_0000;
    assert m % 256 == n % 256 && m / 256 % 256 == n / 256 % 256;
    assert ToLe(n, 2) == [(n % 256) as byte] + ToLe(n / 256, 1);
    assert ToLe(m, 2) == [(m % 256) as byte] + ToLe(m / 256, 1);
  }

  // Encoding, then decoding

  /** Wherever EncodeValue has a branch, DecodeValue lays the same bytes out the same way and the size table agrees. */
  lemma LayoutsAgree(t: byte)
    ensures EncodeLayout(t) != NoBranch ==>
              DecodeLayout(t) == if EncodeLayout(t).AsRaw16? then AsUint(16, 2) else EncodeLayout(t)
    ensures TypeSize(t) == FixedSize(DecodeLayout(t)) || t == 0
    ensures t == 0 ==> DecodeLayout(t) == NoBranch
    ensures DecodeLayout(t).AsString? ==> DecodeLayout(t).prefix in {1, 2}
  {}

  function FixedSize(layout: Layout): int {
    match layout
    case AsBool => 1
    case AsUint(_, k) => k
    case AsInt(_, k) => k
    case AsRaw16 => 2
    case AsFloat32 => 4
    case AsFloat64 | AsEui64 => 8
    case _ => -1
  }

  lemma EncodeWidths(t: byte)
    ensures EncodeLayout(t).AsUint? ==> 1 <= EncodeLayout(t).k <= 8
    ensures EncodeLayout(t).AsInt? ==> 1 <= EncodeLayout(t).k <= 4
    ensures EncodeLayout(t).AsBool? ==> t == 0x10
    ensures EncodeLayout(t).AsFloat32? ==> t == 0x39
  {}

  /** The decoded form of a value that is encoded in the given layout. */
  function Canonical(fl: Floats, layout: Layout, v: Value): Value
    requires EncodeAs(fl, layout, v).Ok?
  {
    match layout
    case AsBool => Bool(ToBool(fl, v).value)
    case AsUint(bits, _) => Uint(bits, ToUint64(fl, v).value)
    case AsInt(bits, _) => Int(bits, ToInt64(fl, v).value)
    case AsRaw16 => Uint(16, ToUint64(fl, v).value % 0x1_0000)
    case AsFloat32 => Float32(fl.narrow(ToFloat64(fl, v).value))
    case AsFloat64 => Float64(ToFloat64(fl, v).value)
    case AsEui64 => Eui64(v.s)
    case _ => v
  }

  lemma Pow256Values()
    ensures Pow256(1) == 0x100 && Pow256(2) == 0x1_0000 && Pow256(4) == 0x1_0000_0000
  {}

  lemma Pow2Of64()
    ensures Pow2(64) == Pow256(8)
  {
    assert Pow2(8) == 256;
    assert Pow2(16) == 256 * Pow2(8);
    assert Pow2(24) == 256 * Pow2(16);
    assert Pow2(32) == 256 * Pow2(24);
    assert Pow2(40) == 256 * Pow2(32);
    assert Pow2(48) == 256 * Pow2(40);
    assert Pow2(56) == 256 * Pow2(48);
    assert Pow2(64) == 256 * Pow2(56);
  }

  lemma StringRoundTrip(text: bool, s: seq<byte>, prefix: nat, rest: seq<byte>)
    requires prefix == 1 || prefix == 2
    requires EncodeString(s, prefix).Ok?
    ensures var e := EncodeString(s, prefix).value;
            |e| == prefix + |s|
            && DecodeString(text, prefix, e + rest) == Ok((if text then Text(s) else Octets(s), |e|))
  {
    Pow256Values();
    var e := EncodeString(s, prefix).value;
    assert e + rest == ToLe(|s|, prefix) + (s + rest);
    UintField(|s|, prefix, s + rest);
    assert (e + rest)[prefix..prefix + |s|] == s;
  }

  /** A number field of k bytes in front of other bytes decodes to the number. */
  lemma FieldRoundTrip(layout: Layout, n: nat, k: nat, rest: seq<byte>)
    requires n < Pow256(k) && (layout.AsUint? || layout.AsFloat32? || layout.AsFloat64?)
    ensures var v :=
              if layout.AsUint? then Uint(layout.bits, n)
              else if layout.AsFloat32? then Float32(n)
              else Float64(n);
            DecodeFixed(layout, k, ToLe(n, k) + rest) == Ok((v, k))
  {
    UintField(n, k, rest);
    hide ToLe, FromLe, Pow256;
  }

  lemma SignedRoundTrip(bits: nat, i: int, k: nat, rest: seq<byte>)
    requires -(Pow256(k) as int) <= 2 * i < Pow256(k)
    ensures DecodeFixed(AsInt(bits, k), k, ToLe(if i < 0 then i + Pow256(k) else i, k) + rest) == Ok((Int(bits, i), k))
  {
    IntField(i, k, rest);
    hide ToLe, FromLe, Pow256, Signed;
  }

  lemma FixedRoundTrip(fl: Floats, layout: Layout, v: Value, rest: seq<byte>)
    requires GoValue(v) && GoFloats(fl) && EncodeAs(fl, layout, v).Ok? && !layout.AsString?
    ensures var e := EncodeAs(fl, layout, v).value;
            |e| == FixedSize(layout)
            && DecodeFixed(if layout.AsRaw16? then AsUint(16, 2) else layout, |e|, e + rest)
               == Ok((Canonical(fl, layout, v), |e|))
  {
    var e := EncodeAs(fl, layout, v).value;
    FloatBounds(fl, v);
    hide ToLe, Pow256, GoValue, GoFloats, Signed;
    match layout
    case AsBool => BoolRoundTrip(ToBool(fl, v).value, rest);
    case AsUint(_, k) => FieldRoundTrip(layout, ToUint64(fl, v).value, k, rest);
    case AsInt(bits, k) => SignedRoundTrip(bits, ToInt64(fl, v).value, k, rest);
    case AsRaw16 =>
      var n := ToUint64(fl, v).value;
      Pow256Values();
      LowTwoBytes(n);
      FieldRoundTrip(AsUint(16, 2), n % 0x1_0000, 2, rest);
    case AsFloat32 => FieldRoundTrip(layout, fl.narrow(ToFloat64(fl, v).value), 4, rest);
    case AsFloat64 => FieldRoundTrip(layout, ToFloat64(fl, v).value, 8, rest);
    case AsEui64 =>
      if v.Eui64? { EuiLength(v); }
      assert (e + rest)[..8] == e;
  }

  lemma BoolRoundTrip(b: bool, rest: seq<byte>)
    ensures DecodeFixed(AsBool, 1, [if b then 1 else 0] + rest) == Ok((Bool(b), 1))
  {
    var e: seq<byte> := [if b then 1 else 0];
    assert (e + rest)[..1] == e && FromLe(e[1..]) == 0;
  }

  lemma EuiLength(v: Value)
    requires GoValue(v) && v.Eui64?
    ensures |v.s| == 8
  {}

  lemma FloatBounds(fl: Floats, v: Value)
    requires GoValue(v) && GoFloats(fl)
    ensures ToFloat64(fl, v).Some? ==>
              ToFloat64(fl, v).value < Pow256(8) && fl.narrow(ToFloat64(fl, v).value) < Pow256(4)
  {
    Pow2Of64();
    hide Pow2, Pow256;
  }

  /** Decoding an encoding, with anything behind it, gives the value back and consumes exactly the encoding. */
  lemma DecodeEncode(fl: Floats, t: byte, v: Value, rest: seq<byte>)
    requires GoValue(v) && GoFloats(fl) && EncodeValue(fl, t, v).Ok?
    ensures var e := EncodeValue(fl, t, v).value;
            DecodeValue(t, e + rest) == Ok((Canonical(fl, EncodeLayout(t), v), |e|))
  {
    LayoutsAgree(t);
    EncodeWidths(t);
    var layout := EncodeLayout(t);
    hide EncodeLayout, DecodeLayout, TypeSize, DecodeString, EncodeString, GoValue, GoFloats;
    if layout.AsString? {
      StringRoundTrip(layout.text, v.s, layout.prefix, rest);
    } else {
      FixedRoundTrip(fl, layout, v, rest);
    }
  }

  /** The integer a value stands for. */
  function Number(v: Value): Option<int> {
    match v
    case Uint(_, n) => Some(n)
    case Int(_, i) => Some(i)
    case GoInt(i) => Some(i)
    case _ => None
  }

  /** Integers keep their value through the wire; only half floats too big for two bytes do not. */
  lemma NumbersSurvive(fl: Floats, layout: Layout, v: Value)
    requires GoValue(v) && EncodeAs(fl, layout, v).Ok? && Number(v).Some?
    requires layout.AsUint? || layout.AsInt? || layout.AsRaw16?
    ensures Number(Canonical(fl, layout, v)) == Number(v)
       <==> (layout.AsRaw16? ==> Number(v).value < 0x1_0000)
  {
    hide ToLe, Pow256, Pow2;
    match layout
    case AsUint(_, _) => assert ToUint64(fl, v) == Some(Number(v).value);
    case AsInt(_, _) => assert ToInt64(fl, v) == Some(Number(v).value);
    case AsRaw16 => assert ToUint64(fl, v) == Some(Number(v).value);
  }

  // Decoding, then encoding

  lemma IntFieldBack(data: seq<byte>, k: nat)
    requires k <= |data|
    ensures var i := Signed(FromLe(data[..k]), k);
            -(Pow256(k) as int) <= 2 * i < Pow256(k)
            && ToLe(if i < 0 then i + Pow256(k) else i, k) == data[..k]
  {
    FieldUint(data, k);
  }

  lemma StringBack(text: bool, prefix: nat, data: seq<byte>)
    requires prefix == 1 || prefix == 2
    requires DecodeString(text, prefix, data).Ok? && !DecodeString(text, prefix, data).value.0.Nil?
    ensures var (v, n) := DecodeString(text, prefix, data).value;
            n <= |data| && (if text then v.Text? else v.Octets?) && EncodeString(v.s, prefix) == Ok(data[..n])
  {
    Pow256Values();
    FieldUint(data, prefix);
    var (v, n) := DecodeString(text, prefix, data).value;
    assert data[..n] == data[..prefix] + v.s;
  }

  /** Widening to double and back leaves this single-precision pattern alone: every one but a signalling NaN. */
  predicate WidensExactly(fl: Floats, pattern: nat) {
    fl.narrow(fl.widen(pattern)) == pattern
  }

  /** The bytes of a fixed-size value that encode back as themselves: the two kinds that need not are named. */
  predicate Faithful(fl: Floats, layout: Layout, data: seq<byte>)
    requires FixedSize(layout) <= |data|
  {
    && (layout.AsBool? ==> data[0] <= 1)
    && (layout.AsFloat32? ==> WidensExactly(fl, FromLe(data[..4])))
  }

  lemma FixedBack(fl: Floats, layout: Layout, data: seq<byte>)
    requires 0 < FixedSize(layout) <= |data| && GoFloats(fl)
    requires layout.AsUint? ==> layout.k <= 8
    requires layout.AsInt? ==> layout.k <= 4
    ensures var d := DecodeFixed(if layout.AsRaw16? then AsUint(16, 2) else layout, FixedSize(layout), data);
            d.Ok? && (EncodeAs(fl, layout, d.value.0) == Ok(data[..FixedSize(layout)]) <==> Faithful(fl, layout, data))
  {
    var size := FixedSize(layout);
    FieldUint(data, size);
    match layout
    case AsBool => assert data[..1] == [data[0]] && FromLe([data[0]][1..]) == 0;
    case AsInt(_, k) => IntFieldBack(data, k);
    case AsFloat32 => FloatBack(fl, data[..4]);
    case _ =>
      hide Pow2;
  }

  lemma FloatBack(fl: Floats, field: seq<byte>)
    requires |field| == 4 && GoFloats(fl)
    ensures ToLe(fl.narrow(fl.widen(FromLe(field))), 4) == field <==> WidensExactly(fl, FromLe(field))
  {
    FromLeToLe(fl.narrow(fl.widen(FromLe(field))), 4);
    ToLeFromLe(field);
  }

  /** What a decoded value must be to encode back: one with a branch, not an "invalid" string, and faithful. */
  predicate EncodesBack(fl: Floats, t: byte, data: seq<byte>)
    requires DecodeValue(t, data).Ok?
  {
    && EncodeLayout(t) != NoBranch && !DecodeValue(t, data).value.0.Nil?
    && (t == 0x10 ==> |data| >= 1 && data[0] <= 1)
    && (t == 0x39 ==> |data| >= 4 && WidensExactly(fl, FromLe(data[..4])))
  }

  lemma NilHasNoEncoding(fl: Floats, t: byte)
    ensures EncodeValue(fl, t, Nil).Err?
  {
  }

  /** Encoding what was decoded gives the consumed bytes back exactly then. */
  lemma EncodeDecode(fl: Floats, t: byte, data: seq<byte>)
    requires DecodeValue(t, data).Ok? && GoFloats(fl)
    ensures DecodeValue(t, data).value.1 <= |data|
    ensures var (v, n) := DecodeValue(t, data).value;
            EncodeValue(fl, t, v) == Ok(data[..n]) <==> EncodesBack(fl, t, data)
  {
    DecodeStable(t, data, []);
    LayoutsAgree(t);
    EncodeWidths(t);
    NilHasNoEncoding(fl, t);
    var layout := EncodeLayout(t);
    hide EncodeLayout, DecodeLayout, TypeSize, DecodeString, EncodeString;
    if layout.NoBranch? || DecodeValue(t, data).value.0.Nil? {
    } else if layout.AsString? {
      StringBack(layout.text, layout.prefix, data);
    } else {
      FixedBack(fl, layout, data);
    }
  }

  // Stability: a decoded value does not depend on what follows it

  lemma DecodeStable(t: byte, data: seq<byte>, more: seq<byte>)
    requires DecodeValue(t, data).Ok?
    ensures DecodeValue(t, data).value.1 <= |data|
    ensures DecodeValue(t, data + more) == DecodeValue(t, data)
  {
    LayoutsAgree(t);
    hide EncodeLayout, DecodeLayout;
    var size, layout := TypeSize(t), DecodeLayout(t);
    if size > 0 {
      assert (data + more)[..size] == data[..size];
    } else if size < 0 {
      var p := layout.prefix;
      assert (data + more)[..p] == data[..p];
      var n := FromLe(data[..p]);
      if n != Pow256(p) - 1 {
        assert (data + more)[p..p + n] == data[p..p + n];
      }
    }
  }
}
