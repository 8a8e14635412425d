/** What EncodeValue makes of every kind of Go value, and DecodeValue of every type, said by type code and kind. */
module ZclConversions {
  import opened Bytes
  import opened Outcomes
  import opened Zcl

  // Encoding

  /** uint8 to uint48, with the enumerations, bitmaps and UTC time of the same width. */
  predicate UnsignedType(t: byte, k: nat) {
    || (k == 1 && t in {0x20, 0x30, 0x18})
    || (k == 2 && t in {0x21, 0x31, 0x19})
    || (k == 3 && t in {0x22, 0x1A})
    || (k == 4 && t in {0x23, 0x1B, 0xE2})
    || (k == 5 && t == 0x24)
    || (k == 6 && t == 0x25)
  }

  predicate SignedType(t: byte, k: nat) {
    (k == 1 && t == 0x28) || (k == 2 && t == 0x29) || (k == 3 && t == 0x2A) || (k == 4 && t == 0x2B)
  }

  /** A number written to an unsigned type of k bytes. */
  function Written(n: nat, k: nat): Encoding {
    if n >= Pow256(k) then Err(Overflow) else Ok(ToLe(n, k))
  }

  /** A number written to a signed type of k bytes, in two's complement. */
  function WrittenSigned(i: int, k: nat): Encoding {
    if 2 * i < -(Pow256(k) as int) || 2 * i >= Pow256(k) then Err(Overflow)
    else Ok(ToLe(i % Pow256(k), k))
  }

  /** Unsigned types take every unsigned kind, and the others as long as they are not negative. */
  lemma UnsignedFrom(fl: Floats, t: byte, k: nat, v: Value)
    requires UnsignedType(t, k)
    ensures v.Float64? ==>
      EncodeValue(fl, t, v) ==
        if fl.isNegative(v.pattern) then Err(NotConvertible) else Written(fl.toUint64(v.pattern), k)
    ensures v.Uint? ==> EncodeValue(fl, t, v) == Written(v.n, k)
    ensures v.GoInt? || (v.Int? && v.bits == 64) ==>
      EncodeValue(fl, t, v) == if v.i < 0 then Err(NotConvertible) else Written(v.i, k)
    ensures !v.Float64? && !v.Uint? && !v.GoInt? && !(v.Int? && v.bits == 64) ==>
      EncodeValue(fl, t, v) == Err(NotConvertible)
  {
    hide ToLe;
  }

  lemma IntWritten(fl: Floats, v: Value, k: nat)
    ensures EncodeInt(fl, v, k) ==
      match ToInt64(fl, v) case None => Err(NotConvertible) case Some(i) => WrittenSigned(i, k)
  {
    var p := Pow256(k);
    if ToInt64(fl, v).Some? && -(p as int) <= 2 * ToInt64(fl, v).value < p {
      Residue(ToInt64(fl, v).value, p);
    }
    hide ToLe, Pow256, ToInt64;
  }

  /** Signed types take every integer kind, and doubles within the range of an int64. */
  lemma SignedFrom(fl: Floats, t: byte, k: nat, v: Value)
    requires SignedType(t, k)
    ensures v.Float64? ==>
      EncodeValue(fl, t, v) ==
        if fl.fitsInt64(v.pattern) then WrittenSigned(fl.toInt64(v.pattern), k) else Err(NotConvertible)
    ensures v.Uint? ==>
      EncodeValue(fl, t, v) ==
        if v.bits == 64 && v.n > 0x7FFF_FFFF_FFFF_FFFF then Err(NotConvertible) else WrittenSigned(v.n, k)
    ensures v.GoInt? || v.Int? ==> EncodeValue(fl, t, v) == WrittenSigned(v.i, k)
    ensures !v.Float64? && !v.Uint? && !v.GoInt? && !v.Int? ==> EncodeValue(fl, t, v) == Err(NotConvertible)
  {
    assert EncodeValue(fl, t, v) == EncodeInt(fl, v, k);
    IntWritten(fl, v, k);
    hide EncodeValue, EncodeInt, WrittenSigned;
  }

  lemma Residue(i: int, p: nat)
    requires -(p as int) <= 2 * i < p
    ensures p > 0 && i % p == if i < 0 then i + p else i
  {
    if i < 0 {
      assert (i + p) % p == i + p;
      assert i == p * (-1) + (i + p);
    }
  }

  /** Boolean takes a bool, a double and a plain int; zero is false and anything else true. */
  lemma BooleanFrom(fl: Floats, v: Value)
    ensures v.Bool? ==> EncodeValue(fl, 0x10, v) == Ok([if v.b then 1 else 0])
    ensures v.Float64? ==> EncodeValue(fl, 0x10, v) == Ok([if fl.isZero(v.pattern) then 0 else 1])
    ensures v.GoInt? ==> EncodeValue(fl, 0x10, v) == Ok([if v.i == 0 then 0 else 1])
    ensures !v.Bool? && !v.Float64? && !v.GoInt? ==> EncodeValue(fl, 0x10, v) == Err(NotConvertible)
  {
  }

  /** The half float takes what unsigned types take, as a bit pattern of which it sends the low two bytes. */
  lemma HalfFloatFrom(fl: Floats, v: Value)
    ensures v.Float64? ==>
      EncodeValue(fl, 0x38, v) ==
        if fl.isNegative(v.pattern) then Err(NotConvertible) else Ok(ToLe(fl.toUint64(v.pattern), 2))
    ensures v.Uint? ==> EncodeValue(fl, 0x38, v) == Ok(ToLe(v.n, 2))
    ensures v.GoInt? || (v.Int? && v.bits == 64) ==>
      EncodeValue(fl, 0x38, v) == if v.i < 0 then Err(NotConvertible) else Ok(ToLe(v.i, 2))
    ensures !v.Float64? && !v.Uint? && !v.GoInt? && !(v.Int? && v.bits == 64) ==>
      EncodeValue(fl, 0x38, v) == Err(NotConvertible)
  {
    hide ToLe;
  }

  /** The floats take both floats, plain ints and 64-bit integers; the single one is narrowed from a double. */
  lemma FloatsFrom(fl: Floats, v: Value)
    ensures v.Float64? ==>
      && EncodeValue(fl, 0x39, v) == Ok(ToLe(fl.narrow(v.pattern), 4))
      && EncodeValue(fl, 0x3A, v) == Ok(ToLe(v.pattern, 8))
    ensures v.Float32? ==>
      && EncodeValue(fl, 0x39, v) == Ok(ToLe(fl.narrow(fl.widen(v.pattern)), 4))
      && EncodeValue(fl, 0x3A, v) == Ok(ToLe(fl.widen(v.pattern), 8))
    ensures v.GoInt? || (v.Int? && v.bits == 64) ==>
      && EncodeValue(fl, 0x39, v) == Ok(ToLe(fl.narrow(fl.fromInt(v.i)), 4))
      && EncodeValue(fl, 0x3A, v) == Ok(ToLe(fl.fromInt(v.i), 8))
    ensures v.Uint? && v.bits == 64 ==>
      && EncodeValue(fl, 0x39, v) == Ok(ToLe(fl.narrow(fl.fromInt(v.n)), 4))
      && EncodeValue(fl, 0x3A, v) == Ok(ToLe(fl.fromInt(v.n), 8))
    ensures !v.Float64? && !v.Float32? && !v.GoInt? && !((v.Int? || v.Uint?) && v.bits == 64) ==>
      EncodeValue(fl, 0x39, v) == EncodeValue(fl, 0x3A, v) == Err(NotConvertible)
  {
    hide ToLe;
  }

  /** Addresses take an address or eight octets; character strings a string, octet strings octets, up to their limit. */
  lemma BytesFrom(fl: Floats, v: Value)
    ensures EncodeValue(fl, 0xF0, v) ==
      if v.Eui64? then Ok(v.s)
      else if !v.Octets? then Err(NotConvertible)
      else if |v.s| == 8 then Ok(v.s)
      else Err(BadLength)
    ensures EncodeValue(fl, 0x42, v) == if v.Text? then ShortString(v.s) else Err(NotConvertible)
    ensures EncodeValue(fl, 0x41, v) == if v.Octets? then ShortString(v.s) else Err(NotConvertible)
    ensures EncodeValue(fl, 0x44, v) == if v.Text? then LongString(v.s) else Err(NotConvertible)
    ensures EncodeValue(fl, 0x43, v) == if v.Octets? then LongString(v.s) else Err(NotConvertible)
  {
    if v.Text? || v.Octets? { StringsPrinted(v.s); }
    hide EncodeString, ShortString, LongString;
  }

  lemma StringsPrinted(s: seq<byte>)
    ensures EncodeString(s, 1) == ShortString(s) && EncodeString(s, 2) == LongString(s)
  {
    assert Pow256(1) == 256 && Pow256(2) == 0x1_0000;
    if |s| < 0x1_0000 { StringPrefix(|s|); }
    hide ToLe, PutLe16;
  }

  lemma StringPrefix(n: nat)
    requires n < 0x1_0000
    ensures n < 0x100 ==> ToLe(n, 1) == [n as byte]
    ensures ToLe(n, 2) == PutLe16(n)
  {
    LowByteWrittenFirst(n);
    if n < 0x100 {
      assert ToLe(n, 1) == [(n % 256) as byte] + ToLe(n / 256, 0);
    }
  }

  function ShortString(s: seq<byte>): Encoding {
    if |s| > 254 then Err(TooLong) else Ok([|s| as byte] + s)
  }

  function LongString(s: seq<byte>): Encoding {
    if |s| > 65534 then Err(TooLong) else Ok(PutLe16(|s|) + s)
  }

  /** No other type has an encoding. */
  lemma NothingElse(fl: Floats, t: byte, v: Value)
    requires t !in {0x20, 0x30, 0x18, 0x21, 0x31, 0x19, 0x22, 0x1A, 0x23, 0x1B, 0xE2, 0x24, 0x25}
    requires t !in {0x28, 0x29, 0x2A, 0x2B, 0x10, 0x38, 0x39, 0x3A, 0xF0, 0x41, 0x42, 0x43, 0x44}
    ensures EncodeValue(fl, t, v) == Err(Unsupported)
  {
  }

  // Decoding

  /** The types read as an unsigned number: the Go width it is given, and its bytes. */
  predicate ReadUnsigned(t: byte, bits: nat, k: nat) {
    || (bits == 8 && k == 1 && t in {0x20, 0x30, 0x18})
    || (bits == 16 && k == 2 && t in {0x21, 0x31, 0x19, 0xE8, 0xE9, 0x38})
    || (bits == 32 && k == 3 && t in {0x22, 0x1A})
    || (bits == 32 && k == 4 && t in {0x23, 0x1B, 0xE2, 0xE0, 0xE1})
    || (bits == 64 && k == 5 && t == 0x24)
    || (bits == 64 && k == 6 && t == 0x25)
  }

  predicate ReadSigned(t: byte, bits: nat, k: nat) {
    || (bits == 8 && k == 1 && t == 0x28)
    || (bits == 16 && k == 2 && t == 0x29)
    || (bits == 32 && k == 3 && t == 0x2A)
    || (bits == 32 && k == 4 && t == 0x2B)
  }

  lemma ReadsUnsigned(t: byte, bits: nat, k: nat, data: seq<byte>)
    requires ReadUnsigned(t, bits, k)
    ensures DecodeValue(t, data) ==
      if |data| < k then Err(NotEnoughData) else Ok((Uint(bits, FromLe(data[..k])), k))
  {
    hide FromLe;
  }

  /** A signed number is the one in range with the same bytes. */
  lemma ReadsSigned(t: byte, bits: nat, k: nat, data: seq<byte>)
    requires ReadSigned(t, bits, k)
    ensures |data| < k <==> DecodeValue(t, data) == Err(NotEnoughData)
    ensures |data| >= k ==>
      && DecodeValue(t, data).Ok? && DecodeValue(t, data).value.1 == k
      && DecodeValue(t, data).value.0.Int? && DecodeValue(t, data).value.0.bits == bits
      && var i := DecodeValue(t, data).value.0.i;
        -(Pow256(k) as int) <= 2 * i < Pow256(k) && i % Pow256(k) == FromLe(data[..k])
  {
    if |data| >= k {
      ToLeFromLe(data[..k]);
      var i := DecodeValue(t, data).value.0.i;
      hide FromLe, Pow256, ToLe;
      assert -(Pow256(k) as int) <= 2 * i < Pow256(k);
      Residue(i, Pow256(k));
    }
  }

  /** The other types of fixed size: Boolean, the floats as they are, and addresses; and the one without data. */
  lemma ReadsOthers(data: seq<byte>)
    ensures DecodeValue(0x00, data) == Ok((Nil, 0))
    ensures DecodeValue(0x10, data) == if |data| < 1 then Err(NotEnoughData) else Ok((Bool(data[0] != 0), 1))
    ensures DecodeValue(0x39, data) == if |data| < 4 then Err(NotEnoughData) else Ok((Float32(FromLe(data[..4])), 4))
    ensures DecodeValue(0x3A, data) == if |data| < 8 then Err(NotEnoughData) else Ok((Float64(FromLe(data[..8])), 8))
    ensures DecodeValue(0xF0, data) == if |data| < 8 then Err(NotEnoughData) else Ok((Eui64(data[..8]), 8))
  {
    if |data| >= 1 {
      assert data[..1] == [data[0]] && FromLe([data[0]][1..]) == 0;
    }
  }

  /** Strings with one length byte, of which 0xFF means invalid. */
  lemma ReadsShortString(t: byte, data: seq<byte>)
    requires t == 0x41 || t == 0x42
    ensures DecodeValue(t, data) ==
      if |data| < 1 then Err(NotEnoughData)
      else if data[0] == 0xFF then Ok((Nil, 1))
      else if |data| < 1 + data[0] as nat then Err(NotEnoughData)
      else
        var s := data[1..1 + data[0] as nat];
        Ok((if t == 0x42 then Text(s) else Octets(s), 1 + data[0] as nat))
  {
    assert Pow256(1) == 256;
    if |data| >= 1 {
      assert data[..1] == [data[0]] && [data[0]][1..] == [] && FromLe([]) == 0;
      assert FromLe(data[..1]) == data[0] as nat;
    }
  }

  /** And with two, of which 0xFFFF does. */
  lemma ReadsLongString(t: byte, data: seq<byte>)
    requires t == 0x43 || t == 0x44
    ensures |data| < 2 ==> DecodeValue(t, data) == Err(NotEnoughData)
    ensures |data| >= 2 ==>
      var n: nat := Le16(data[0], data[1]);
      DecodeValue(t, data) ==
        if n == 0xFFFF then Ok((Nil, 2))
        else if |data| < 2 + n then Err(NotEnoughData)
        else Ok((if t == 0x44 then Text(data[2..2 + n]) else Octets(data[2..2 + n]), 2 + n))
  {
    assert DecodeValue(t, data) == DecodeString(t == 0x44, 2, data);
    hide DecodeValue;
    if |data| >= 2 {
      TwoByteLength(data);
      hide FromLe, Le16, Pow256;
    }
  }

  lemma TwoByteLength(data: seq<byte>)
    requires |data| >= 2
    ensures FromLe(data[..2]) == Le16(data[0], data[1]) && Pow256(2) == 0x1_0000
  {
    assert data[..2] == [data[0], data[1]];
    LowByteFirst(data[0], data[1]);
  }

  /** No other type is decoded. */
  lemma ReadsNothingElse(t: byte, data: seq<byte>)
    requires t !in {0x20, 0x30, 0x18, 0x21, 0x31, 0x19, 0xE8, 0xE9, 0x38, 0x22, 0x1A, 0x23, 0x1B, 0xE2, 0xE0, 0xE1}
    requires t !in {0x24, 0x25, 0x28, 0x29, 0x2A, 0x2B, 0x00, 0x10, 0x39, 0x3A, 0xF0, 0x41, 0x42, 0x43, 0x44}
    ensures DecodeValue(t, data) == Err(Unsupported)
  {
  }
}
