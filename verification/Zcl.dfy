/** ZCL typed values: decoding from and encoding to wire bytes. */
module Zcl {
  import opened Bytes
  import opened Outcomes

  /** The Go values that cross the codec. Widths are in bits; floats are their bit patterns. */
  datatype Value =
    | Nil
    | Bool(b: bool)
    | Uint(bits: nat, n: nat)
    | Int(bits: nat, i: int)
    | GoInt(i: int)
    | Float32(pattern: nat)
    | Float64(pattern: nat)
    | Text(s: seq<byte>)
    | Octets(s: seq<byte>)
    | Eui64(s: seq<byte>)

  datatype ZclError = NotEnoughData | Unsupported | NotConvertible | Overflow | TooLong | BadLength

  /** The conversions of the floating-point unit, kept abstract. */
  datatype Floats = Floats(
    isZero: nat -> bool,
    isNegative: nat -> bool,
    fitsInt64: nat -> bool,
    toUint64: nat -> nat,
    toInt64: nat -> int,
    widen: nat -> nat,
    narrow: nat -> nat,
    fromInt: int -> nat)

  function Pow2(bits: nat): nat {
    if bits == 0 then 1 else 2 * Pow2(bits - 1)
  }

  /** The size table of the zcl package: bytes, or -1 for everything of variable or unknown size. */
  function TypeSize(t: byte): int {
    match t
    case 0x00 => 0
    case 0x10 | 0x20 | 0x28 | 0x30 | 0x18 => 1
    case 0x21 | 0x29 | 0x31 | 0x19 | 0xE8 | 0xE9 => 2
    case 0x22 | 0x2A | 0x1A => 3
    case 0x38 => 2
    case 0x23 | 0x2B | 0x1B | 0x39 | 0xE0 | 0xE1 | 0xE2 => 4
    case 0x24 => 5
    case 0x25 => 6
    case 0x3A | 0xF0 => 8
    case _ => -1
  }

  /** What a switch branch does with a value: how the bytes are laid out and which Go type holds them. */
  datatype Layout =
    | AsBool
    | AsUint(bits: nat, k: nat)
    | AsInt(bits: nat, k: nat)
    | AsRaw16
    | AsFloat32
    | AsFloat64
    | AsEui64
    | AsString(text: bool, prefix: nat)
    | NoBranch

  // Decoding

  type Result = Outcome<(Value, nat), ZclError>

  /** The branches of DecodeValue and decodeVariableValue. */
  function DecodeLayout(t: byte): Layout {
    match t
    case 0x10 => AsBool
    case 0x20 | 0x30 | 0x18 => AsUint(8, 1)
    case 0x21 | 0x31 | 0x19 | 0xE8 | 0xE9 | 0x38 => AsUint(16, 2)
    case 0x22 | 0x1A => AsUint(32, 3)
    case 0x2A => AsInt(32, 3)
    case 0x23 | 0x1B | 0xE2 => AsUint(32, 4)
    case 0x24 => AsUint(64, 5)
    case 0x25 => AsUint(64, 6)
    case 0x28 => AsInt(8, 1)
    case 0x29 => AsInt(16, 2)
    case 0x2B => AsInt(32, 4)
    case 0x39 => AsFloat32
    case 0x3A => AsFloat64
    case 0xF0 => AsEui64
    case 0xE0 | 0xE1 => AsUint(32, 4)
    case 0x41 => AsString(false, 1)
    case 0x42 => AsString(true, 1)
    case 0x43 => AsString(false, 2)
    case 0x44 => AsString(true, 2)
    case _ => NoBranch
  }

  /** A number as the two's complement of k bytes. */
  function Signed(n: nat, k: nat): int {
    if 2 * n >= Pow256(k) then n - Pow256(k) else n
  }

  /** Strings: a length prefix of one or two bytes, all ones meaning "invalid". */
  function DecodeString(text: bool, prefix: nat, data: seq<byte>): Result {
    if |data| < prefix then Err(NotEnoughData)
    else
      var length := FromLe(data[..prefix]);
      if length == Pow256(prefix) - 1 then Ok((Nil, prefix))
      else if |data| < prefix + length then Err(NotEnoughData)
      else
        var s := data[prefix..prefix + length];
        Ok((if text then Text(s) else Octets(s), prefix + length))
  }

  function DecodeFixed(layout: Layout, size: nat, data: seq<byte>): Result {
    if |data| < size then Err(NotEnoughData)
    else
      var field := data[..size];
      match layout
      case AsBool => Ok((Bool(FromLe(field) != 0), size))
      case AsUint(bits, _) => Ok((Uint(bits, FromLe(field)), size))
      case AsInt(bits, _) => Ok((Int(bits, Signed(FromLe(field), size)), size))
      case AsFloat32 => Ok((Float32(FromLe(field)), size))
      case AsFloat64 => Ok((Float64(FromLe(field)), size))
      case AsEui64 => Ok((Eui64(field), size))
      case _ => Ok((Octets(field), size))
  }

  function DecodeValue(t: byte, data: seq<byte>): Result {
    var size := TypeSize(t);
    var layout := DecodeLayout(t);
    if size == 0 then Ok((Nil, 0))
    else if size > 0 then DecodeFixed(layout, size, data)
    else if layout.AsString? then DecodeString(layout.text, layout.prefix, data)
    else Err(Unsupported)
  }

  // Encoding

  function ToBool(fl: Floats, v: Value): Option<bool> {
    match v
    case Bool(b) => Some(b)
    case Float64(p) => Some(!fl.isZero(p))
    case GoInt(i) => Some(i != 0)
    case _ => None
  }

  function ToUint64(fl: Floats, v: Value): Option<nat> {
    match v
    case Uint(_, n) => Some(n)
    case GoInt(i) => if i < 0 then None else Some(i)
    case Int(bits, i) => if bits != 64 || i < 0 then None else Some(i)
    case Float64(p) => if fl.isNegative(p) then None else Some(fl.toUint64(p))
    case _ => None
  }

  function ToInt64(fl: Floats, v: Value): Option<int> {
    match v
    case Int(_, i) => Some(i)
    case GoInt(i) => Some(i)
    case Uint(bits, n) => if bits == 64 && n > 0x7FFF_FFFF_FFFF_FFFF then None else Some(n)
    case Float64(p) => if fl.fitsInt64(p) then Some(fl.toInt64(p)) else None
    case _ => None
  }

  function ToFloat64(fl: Floats, v: Value): Option<nat> {
    match v
    case Float32(p) => Some(fl.widen(p))
    case Float64(p) => Some(p)
    case GoInt(i) => Some(fl.fromInt(i))
    case Int(bits, i) => if bits == 64 then Some(fl.fromInt(i)) else None
    case Uint(bits, n) => if bits == 64 then Some(fl.fromInt(n)) else None
    case _ => None
  }

  type Encoding = Outcome<seq<byte>, ZclError>

  function EncodeUint(fl: Floats, v: Value, k: nat): Encoding {
    match ToUint64(fl, v)
    case None => Err(NotConvertible)
    case Some(n) => if n >= Pow256(k) then Err(Overflow) else Ok(ToLe(n, k))
  }

  function EncodeInt(fl: Floats, v: Value, k: nat): Encoding {
    match ToInt64(fl, v)
    case None => Err(NotConvertible)
    case Some(i) =>
      if 2 * i < -(Pow256(k) as int) || 2 * i >= Pow256(k) then Err(Overflow)
      else Ok(ToLe(if i < 0 then i + Pow256(k) else i, k))
  }

  function EncodeString(s: seq<byte>, prefix: nat): Encoding {
    if |s| > Pow256(prefix) - 2 then Err(TooLong) else Ok(ToLe(|s|, prefix) + s)
  }

  /** The branches of EncodeValue. */
  function EncodeLayout(t: byte): Layout {
    match t
    case 0x10 => AsBool
    case 0x20 | 0x30 | 0x18 => AsUint(8, 1)
    case 0x21 | 0x31 | 0x19 => AsUint(16, 2)
    case 0x23 | 0x1B | 0xE2 => AsUint(32, 4)
    case 0x28 => AsInt(8, 1)
    case 0x29 => AsInt(16, 2)
    case 0x2A => AsInt(32, 3)
    case 0x22 | 0x1A => AsUint(32, 3)
    case 0x2B => AsInt(32, 4)
    case 0x24 => AsUint(64, 5)
    case 0x25 => AsUint(64, 6)
    case 0x38 => AsRaw16
    case 0x39 => AsFloat32
    case 0x3A => AsFloat64
    case 0xF0 => AsEui64
    case 0x42 => AsString(true, 1)
    case 0x41 => AsString(false, 1)
    case 0x44 => AsString(true, 2)
    case 0x43 => AsString(false, 2)
    case _ => NoBranch
  }

  function EncodeAs(fl: Floats, layout: Layout, v: Value): Encoding {
    match layout
    case AsBool =>
      (match ToBool(fl, v)
       case None => Err(NotConvertible)
       case Some(b) => Ok([if b then 1 else 0]))
    case AsUint(_, k) => EncodeUint(fl, v, k)
    case AsInt(_, k) => EncodeInt(fl, v, k)
    case AsRaw16 =>
      // A raw half float. There is no overflow check: above 16 bits only the low two bytes are sent.
      (match ToUint64(fl, v)
       case None => Err(NotConvertible)
       case Some(n) => Ok(ToLe(n, 2)))
    case AsFloat32 =>
      (match ToFloat64(fl, v)
       case None => Err(NotConvertible)
       case Some(p) => Ok(ToLe(fl.narrow(p), 4)))
    case AsFloat64 =>
      (match ToFloat64(fl, v)
       case None => Err(NotConvertible)
       case Some(p) => Ok(ToLe(p, 8)))
    case AsEui64 =>
      (match v
       case Eui64(s) => Ok(s)
       case Octets(s) => if |s| != 8 then Err(BadLength) else Ok(s)
       case _ => Err(NotConvertible))
    case AsString(text, prefix) =>
      (match v
       case Text(s) => if text then EncodeString(s, prefix) else Err(NotConvertible)
       case Octets(s) => if text then Err(NotConvertible) else EncodeString(s, prefix)
       case _ => Err(NotConvertible))
    case NoBranch => Err(Unsupported)
  }

  function EncodeValue(fl: Floats, t: byte, v: Value): Encoding {
    EncodeAs(fl, EncodeLayout(t), v)
  }

  // The values Go can hold

  predicate GoValue(v: Value) {
    match v
    case Uint(bits, n) => bits in {8, 16, 32, 64} && n < Pow2(bits)
    case Int(bits, i) => bits in {8, 16, 32, 64} && -(Pow2(bits - 1) as int) <= i < Pow2(bits - 1)
    case GoInt(i) => -(Pow2(63) as int) <= i < Pow2(63)
    case Float32(p) => p < Pow2(32)
    case Float64(p) => p < Pow2(64)
    case Eui64(s) => |s| == 8
    case _ => true
  }

  ghost predicate GoFloats(fl: Floats) {
    && (forall p :: fl.toUint64(p) < Pow256(8))
    && (forall p :: fl.widen(p) < Pow256(8))
    && (forall p :: fl.narrow(p) < Pow256(4))
    && (forall i :: fl.fromInt(i) < Pow256(8))
  }
}
