/** CRC-8/KOOP, CRC-16 and FCS-16 as bit-serial division, and what such a check detects. */
module Crc {
  import opened Bytes

  // The bit-serial definition

  const POLY16: bv16 := 0x8408
  const POLY8: bv16 := 0x00B2

  // The three bit-vector operations of the register, named so that proofs can hide them.

  function Xor(a: bv16, b: bv16): bv16 {
    a ^ b
  }

  function Half(c: bv16): bv16 {
    c >> 1
  }

  predicate Odd(c: bv16) {
    c & 1 != 0
  }

  /** One step of reflected division by x^w + poly: multiply by x and reduce. */
  function Shift(poly: bv16, c: bv16): bv16 {
    Xor(Half(c), if Odd(c) then poly else 0)
  }

  /** The register after dividing in one more message bit. */
  function Feed(poly: bv16, c: bv16, bit: bool): bv16 {
    Shift(poly, if bit then Xor(c, 1) else c)
  }

  function Divide(poly: bv16, c: bv16, bits: seq<bool>): bv16
    decreases |bits|
  {
    if |bits| == 0 then c else Divide(poly, Feed(poly, c, bits[0]), bits[1..])
  }

  /** The bits of a byte in transmission order, least significant first. */
  function BitsOfByte(v: bv8): (s: seq<bool>)
    ensures |s| == 8
  {
    [v & 1 != 0, v & 2 != 0, v & 4 != 0, v & 8 != 0, v & 16 != 0, v & 32 != 0, v & 64 != 0, v & 128 != 0]
  }

  function BitsOf(data: seq<byte>): (s: seq<bool>)
    ensures |s| == 8 * |data|
  {
    if |data| == 0 then [] else BitsOfByte(Bv(data[0])) + BitsOf(data[1..])
  }

  function Low(c: bv16): bv8 {
    (c & 0xFF) as bv8
  }

  function High(c: bv16): bv8 {
    (c >> 8) as bv8
  }

  function Join(lo: bv8, hi: bv8): bv16 {
    (lo as bv16) | ((hi as bv16) << 8)
  }

  /** A check value as the two bytes that carry it, low byte first. */
  function CheckBytes(c: bv16): (s: seq<byte>)
    ensures |s| == 2
  {
    [FromBv(Low(c)), FromBv(High(c))]
  }

  function CheckOf(lo: byte, hi: byte): bv16 {
    Join(Bv(lo), Bv(hi))
  }

  function Crc16(data: seq<byte>): bv16 {
    Divide(POLY16, 0, BitsOf(data))
  }

  /** The un-complemented FCS-16 register of Appendix C.2 of RFC 1662. */
  function FcsRegister(data: seq<byte>): bv16 {
    Divide(POLY16, 0xFFFF, BitsOf(data))
  }

  function Fcs16(data: seq<byte>): bv16 {
    Xor(FcsRegister(data), 0xFFFF)
  }

  function Crc8(data: seq<byte>): byte {
    FromBv(Low(Xor(Divide(POLY8, 0xFF, BitsOf(data)), 0xFF)))
  }

  // Register algebra

  // One bit-vector fact a lemma, so that each stays small for the solver.

  lemma XorComm(a: bv16, b: bv16)
    ensures Xor(a, b) == Xor(b, a)
  {}

  lemma XorAssoc(a: bv16, b: bv16, c: bv16)
    ensures Xor(Xor(a, b), c) == Xor(a, Xor(b, c))
  {}

  lemma XorZero(a: bv16)
    ensures Xor(a, 0) == a
  {}

  lemma XorSelf(a: bv16)
    ensures Xor(a, a) == 0
  {}

  lemma XorHalf(c: bv16, d: bv16)
    ensures Half(Xor(c, d)) == Xor(Half(c), Half(d))
  {}

  lemma XorOdd(c: bv16, d: bv16)
    ensures Odd(Xor(c, d)) == (Odd(c) != Odd(d))
  {}

  /** Xor of two sums of two terms. */
  lemma XorFour(a: bv16, x: bv16, b: bv16, y: bv16)
    ensures Xor(Xor(a, x), Xor(b, y)) == Xor(Xor(a, b), Xor(x, y))
  {
    hide Xor;
    XorAssoc(a, x, Xor(b, y));
    XorAssoc(x, b, y);
    XorComm(x, b);
    XorAssoc(b, x, y);
    XorAssoc(a, b, Xor(x, y));
  }

  lemma ShiftLinear(poly: bv16, c: bv16, d: bv16)
    ensures Shift(poly, Xor(c, d)) == Xor(Shift(poly, c), Shift(poly, d))
  {
    hide Xor, Half, Odd;
    XorHalf(c, d);
    XorOdd(c, d);
    XorFour(Half(c), if Odd(c) then poly else 0, Half(d), if Odd(d) then poly else 0);
    XorZero(poly);
    XorZero(0);
    XorComm(0, poly);
    XorSelf(poly);
  }

  /** The register values a polynomial can produce: all 16 bits, or the low byte. */
  predicate InRange(poly: bv16, c: bv16) {
    poly == POLY16 || (poly == POLY8 && c < 0x100)
  }

  lemma ShiftInRange(poly: bv16, c: bv16)
    requires InRange(poly, c)
    ensures InRange(poly, Shift(poly, c))
  {}

  lemma ShiftInjective16(c: bv16, d: bv16)
    ensures Shift(POLY16, c) == Shift(POLY16, d) ==> c == d
  {}

  lemma ShiftInjective8(c: bv16, d: bv16)
    requires c < 0x100 && d < 0x100
    ensures Shift(POLY8, c) == Shift(POLY8, d) ==> c == d
  {}

  lemma FlipInRange(poly: bv16, c: bv16)
    requires InRange(poly, c)
    ensures InRange(poly, Xor(c, 1))
  {}

  lemma FeedInjective(poly: bv16, c: bv16, d: bv16, bit: bool)
    requires InRange(poly, c) && InRange(poly, d)
    ensures InRange(poly, Feed(poly, c, bit)) && InRange(poly, Feed(poly, d, bit))
    ensures Feed(poly, c, bit) == Feed(poly, d, bit) ==> c == d
  {
    hide Xor, Shift;
    FlipInRange(poly, c);
    FlipInRange(poly, d);
    XorAssoc(c, 1, 1);
    XorAssoc(d, 1, 1);
    XorSelf(1);
    XorZero(c);
    XorZero(d);
    var c', d' := if bit then Xor(c, 1) else c, if bit then Xor(d, 1) else d;
    ShiftInRange(poly, c');
    ShiftInRange(poly, d');
    if poly == POLY16 {
      ShiftInjective16(c', d');
    } else {
      ShiftInjective8(c', d');
    }
  }

  lemma {:induction false} DivideInjective(poly: bv16, c: bv16, d: bv16, bits: seq<bool>)
    requires InRange(poly, c) && InRange(poly, d)
    ensures InRange(poly, Divide(poly, c, bits))
    ensures Divide(poly, c, bits) == Divide(poly, d, bits) ==> c == d
    decreases |bits|
  {
    hide Feed;
    if |bits| > 0 {
      FeedInjective(poly, c, d, bits[0]);
      DivideInjective(poly, Feed(poly, c, bits[0]), Feed(poly, d, bits[0]), bits[1..]);
    }
  }

  lemma {:induction false} DivideAppend(poly: bv16, c: bv16, u: seq<bool>, v: seq<bool>)
    ensures Divide(poly, c, u + v) == Divide(poly, Divide(poly, c, u), v)
    decreases |u|
  {
    if |u| == 0 {
      assert u + v == v;
    } else {
      assert (u + v)[1..] == u[1..] + v;
      DivideAppend(poly, Feed(poly, c, u[0]), u[1..], v);
    }
  }

  lemma {:induction false} BitsOfAppend(a: seq<byte>, b: seq<byte>)
    ensures BitsOf(a + b) == BitsOf(a) + BitsOf(b)
  {
    if |a| == 0 {
      assert a + b == b;
    } else {
      assert (a + b)[1..] == a[1..] + b;
      BitsOfAppend(a[1..], b);
    }
  }

  // Feeding up to 16 bits at once

  function Shifts(poly: bv16, c: bv16, n: nat): bv16
    decreases n
  {
    if n == 0 then c else Shifts(poly, Shift(poly, c), n - 1)
  }

  function Pack(w: seq<bool>): bv16 {
    if |w| == 0 then 0 else Push(Pack(w[1..]), w[0])
  }

  function Bit(n: nat): bv16
    requires n < 16
  {
    match n
    case 0 => 0x1 case 1 => 0x2 case 2 => 0x4 case 3 => 0x8
    case 4 => 0x10 case 5 => 0x20 case 6 => 0x40 case 7 => 0x80
    case 8 => 0x100 case 9 => 0x200 case 10 => 0x400 case 11 => 0x800
    case 12 => 0x1000 case 13 => 0x2000 case 14 => 0x4000 case 15 => 0x8000
  }

  function Push(q: bv16, bit: bool): bv16 {
    (q << 1) | (if bit then 1 else 0)
  }

  lemma PushBound(q: bv16, n: nat, bit: bool)
    requires n < 15 && q < Bit(n)
    ensures Push(q, bit) < Bit(n + 1)
  {}

  lemma {:induction false} PackBound(w: seq<bool>)
    requires |w| < 16
    ensures Pack(w) < Bit(|w|)
  {
    hide Push;
    if |w| > 0 {
      PackBound(w[1..]);
      PushBound(Pack(w[1..]), |w| - 1, w[0]);
    }
  }

  lemma PushSplit(q: bv16, bit: bool)
    ensures Push(q, bit) == Xor(q << 1, if bit then 1 else 0)
  {}

  lemma ShiftDouble(poly: bv16, q: bv16)
    requires q < 0x8000
    ensures Shift(poly, q << 1) == q
  {}

  lemma FeedPush(poly: bv16, c: bv16, q: bv16, bit: bool)
    requires q < 0x8000
    ensures Shift(poly, Xor(c, Push(q, bit))) == Xor(Feed(poly, c, bit), q)
  {
    hide Xor, Shift, Push;
    var b: bv16 := if bit then 1 else 0;
    PushSplit(q, bit);
    XorComm(q << 1, b);
    XorAssoc(c, b, q << 1);
    ShiftLinear(poly, Xor(c, b), q << 1);
    ShiftDouble(poly, q);
    XorZero(c);
  }

  lemma {:induction false} DivideIsShifts(poly: bv16, c: bv16, w: seq<bool>)
    requires |w| <= 16
    ensures Divide(poly, c, w) == Shifts(poly, Xor(c, Pack(w)), |w|)
    decreases |w|
  {
    hide Xor, Shift, Push, Feed;
    if |w| > 0 {
      PackBound(w[1..]);
      FeedPush(poly, c, Pack(w[1..]), w[0]);
      DivideIsShifts(poly, Feed(poly, c, w[0]), w[1..]);
    } else {
      XorZero(c);
    }
  }

  // What a remainder detects

  function Width(poly: bv16): nat {
    if poly == POLY8 then 8 else 16
  }

  lemma {:induction false} ShiftsInjective(poly: bv16, c: bv16, d: bv16, n: nat)
    requires InRange(poly, c) && InRange(poly, d)
    ensures Shifts(poly, c, n) == Shifts(poly, d, n) ==> c == d
    decreases n
  {
    hide Shift;
    if n > 0 {
      ShiftInRange(poly, c);
      ShiftInRange(poly, d);
      if poly == POLY16 { ShiftInjective16(c, d); } else { ShiftInjective8(c, d); }
      ShiftsInjective(poly, Shift(poly, c), Shift(poly, d), n - 1);
    }
  }

  lemma PushInjective(p: bv16, q: bv16, x: bool, y: bool)
    requires p < 0x8000 && q < 0x8000 && Push(p, x) == Push(q, y)
    ensures p == q && x == y
  {}

  lemma {:induction false} PackInjective(u: seq<bool>, v: seq<bool>)
    requires |u| == |v| <= 16 && Pack(u) == Pack(v)
    ensures u == v
  {
    hide Push;
    if |u| > 0 {
      PackBound(u[1..]);
      PackBound(v[1..]);
      PushInjective(Pack(u[1..]), Pack(v[1..]), u[0], v[0]);
      PackInjective(u[1..], v[1..]);
      assert u == [u[0]] + u[1..] && v == [v[0]] + v[1..];
    }
  }

  lemma XorCancel(c: bv16, p: bv16, q: bv16)
    requires Xor(c, p) == Xor(c, q)
    ensures p == q
  {}

  lemma XorInRange(poly: bv16, c: bv16, q: bv16)
    requires InRange(poly, c) && InRange(poly, q)
    ensures InRange(poly, Xor(c, q))
  {}

  /** From one register value, windows no wider than the register lead to different values. */
  lemma WindowInjective(poly: bv16, c: bv16, u: seq<bool>, v: seq<bool>)
    requires InRange(poly, c) && |u| == |v| <= Width(poly)
    requires Divide(poly, c, u) == Divide(poly, c, v)
    ensures u == v
  {
    hide Xor;
    DivideIsShifts(poly, c, u);
    DivideIsShifts(poly, c, v);
    if |u| < 16 {
      PackBound(u);
      PackBound(v);
    }
    assert InRange(poly, Pack(u)) && InRange(poly, Pack(v));
    XorInRange(poly, c, Pack(u));
    XorInRange(poly, c, Pack(v));
    ShiftsInjective(poly, Xor(c, Pack(u)), Xor(c, Pack(v)), |u|);
    XorCancel(c, Pack(u), Pack(v));
    PackInjective(u, v);
  }

  /** Two strings that differ, and only in len bits from bit at on. */
  predicate Burst(u: seq<bool>, v: seq<bool>, at: nat, len: nat) {
    && |u| == |v| && at + len <= |u| && u != v
    && u[..at] == v[..at] && u[at + len..] == v[at + len..]
  }

  /** A remainder of w bits changes under every error burst of at most w bits. */
  lemma BurstDetected(poly: bv16, c: bv16, u: seq<bool>, v: seq<bool>, at: nat, len: nat)
    requires InRange(poly, c) && Burst(u, v, at, len) && len <= Width(poly)
    ensures Divide(poly, c, u) != Divide(poly, c, v)
  {
    hide InRange;
    var x, y := u[at..at + len], v[at..at + len];
    assert u == u[..at] + (x + u[at + len..]);
    assert v == v[..at] + (y + v[at + len..]);
    DivideAppend(poly, c, u[..at], x + u[at + len..]);
    DivideAppend(poly, c, v[..at], y + v[at + len..]);
    var d := Divide(poly, c, u[..at]);
    DivideInjective(poly, c, c, u[..at]);
    DivideAppend(poly, d, x, u[at + len..]);
    DivideAppend(poly, d, y, v[at + len..]);
    if Divide(poly, c, u) == Divide(poly, c, v) {
      DivideInjective(poly, d, d, x);
      DivideInjective(poly, d, d, y);
      DivideInjective(poly, Divide(poly, d, x), Divide(poly, d, y), u[at + len..]);
      WindowInjective(poly, d, x, y);
    }
  }

  // From bits to bytes

  lemma PackByte(v: bv8)
    ensures Pack(BitsOfByte(v)) == v as bv16
  {
    PushByte(v);
    hide Push;
    var b := BitsOfByte(v);
    assert Pack(b[8..]) == 0;
    assert Pack(b[7..]) == Push(Pack(b[8..]), b[7]) by { assert b[7..][1..] == b[8..]; }
    assert Pack(b[6..]) == Push(Pack(b[7..]), b[6]) by { assert b[6..][1..] == b[7..]; }
    assert Pack(b[5..]) == Push(Pack(b[6..]), b[5]) by { assert b[5..][1..] == b[6..]; }
    assert Pack(b[4..]) == Push(Pack(b[5..]), b[4]) by { assert b[4..][1..] == b[5..]; }
    assert Pack(b[3..]) == Push(Pack(b[4..]), b[3]) by { assert b[3..][1..] == b[4..]; }
    assert Pack(b[2..]) == Push(Pack(b[3..]), b[2]) by { assert b[2..][1..] == b[3..]; }
    assert Pack(b[1..]) == Push(Pack(b[2..]), b[1]) by { assert b[1..][1..] == b[2..]; }
  }

  /** The eight bits of v pushed one by one, the most significant first. */
  lemma PushByte(v: bv8)
    ensures Push(Push(Push(Push(Push(Push(Push(Push(0, v & 128 != 0), v & 64 != 0), v & 32 != 0), v & 16 != 0),
                 v & 8 != 0), v & 4 != 0), v & 2 != 0), v & 1 != 0) == v as bv16
  {}

  lemma BitsInjective(u: bv8, v: bv8)
    requires BitsOfByte(u) == BitsOfByte(v)
    ensures u == v
  {
    PackByte(u);
    PackByte(v);
    hide BitsOfByte, Push;
  }

  lemma {:induction false} BitsOfInjective(a: seq<byte>, b: seq<byte>)
    requires |a| == |b| && BitsOf(a) == BitsOf(b)
    ensures a == b
  {
    hide BitsOfByte;
    if |a| > 0 {
      var u, v := BitsOfByte(Bv(a[0])), BitsOfByte(Bv(b[0]));
      assert u == BitsOf(a)[..8] && v == BitsOf(b)[..8];
      assert BitsOf(a[1..]) == BitsOf(a)[8..] && BitsOf(b[1..]) == BitsOf(b)[8..];
      BitsInjective(Bv(a[0]), Bv(b[0]));
      BvFromBv(a[0]);
      BvFromBv(b[0]);
      BitsOfInjective(a[1..], b[1..]);
      assert a == [a[0]] + a[1..] && b == [b[0]] + b[1..];
    }
  }

  /** Changing n adjacent bytes is an error burst of 8n bits. */
  lemma BytesBurst(pre: seq<byte>, x: seq<byte>, y: seq<byte>, post: seq<byte>)
    requires |x| == |y| && x != y
    ensures Burst(BitsOf(pre + x + post), BitsOf(pre + y + post), 8 * |pre|, 8 * |x|)
  {
    hide BitsOfByte;
    BitsOfAppend(pre + x, post);
    BitsOfAppend(pre, x);
    BitsOfAppend(pre + y, post);
    BitsOfAppend(pre, y);
    if BitsOf(pre + x + post) == BitsOf(pre + y + post) {
      BitsOfInjective(pre + x + post, pre + y + post);
      MiddleOf(pre, x, post);
      MiddleOf(pre, y, post);
    }
    MiddleOf(BitsOf(pre), BitsOf(x), BitsOf(post));
    MiddleOf(BitsOf(pre), BitsOf(y), BitsOf(post));
  }

  lemma MiddleOf<T>(pre: seq<T>, x: seq<T>, post: seq<T>)
    ensures (pre + x + post)[..|pre|] == pre
    ensures (pre + x + post)[|pre|..|pre| + |x|] == x
    ensures (pre + x + post)[|pre| + |x|..] == post
  {}

  lemma {:induction false} ShiftsSplit(poly: bv16, c: bv16, m: nat, n: nat)
    ensures Shifts(poly, c, m + n) == Shifts(poly, Shifts(poly, c, m), n)
    decreases m
  {
    hide Shift;
    if m > 0 {
      ShiftsSplit(poly, Shift(poly, c), m - 1, n);
    }
  }

  /** Dividing in a byte: add it to the register, then reduce eight times. */
  lemma DivideByte(poly: bv16, c: bv16, v: bv8)
    ensures Divide(poly, c, BitsOfByte(v)) == Shifts(poly, Xor(c, v as bv16), 8)
  {
    PackByte(v);
    DivideIsShifts(poly, c, BitsOfByte(v));
    hide BitsOfByte, Xor, Shift, Push;
  }

  lemma DivideSnoc(poly: bv16, c: bv16, data: seq<byte>, b: byte)
    ensures Divide(poly, c, BitsOf(data + [b])) == Shifts(poly, Xor(Divide(poly, c, BitsOf(data)), Bv(b) as bv16), 8)
  {
    hide BitsOfByte, Xor, Shift, Feed;
    BitsOfAppend(data, [b]);
    assert BitsOf([b]) == BitsOfByte(Bv(b)) + BitsOf([]);
    assert BitsOf([b]) == BitsOfByte(Bv(b));
    DivideAppend(poly, c, BitsOf(data), BitsOfByte(Bv(b)));
    DivideByte(poly, Divide(poly, c, BitsOf(data)), Bv(b));
  }

  // The FCS residue (RFC 1662, Appendix C.2)

  const GOOD_FCS: bv16 := 0xF0B8

  lemma JoinLowHigh(c: bv16)
    ensures Join(Low(c), High(c)) == c
  {}

  lemma LowHighJoin(lo: bv8, hi: bv8)
    ensures Low(Join(lo, hi)) == lo && High(Join(lo, hi)) == hi
  {}

  lemma CheckOfCheckBytes(c: bv16)
    ensures CheckOf(CheckBytes(c)[0], CheckBytes(c)[1]) == c
  {
    hide Bv, FromBv, Low, High, Join;
    FromBvBv(Low(c));
    FromBvBv(High(c));
    JoinLowHigh(c);
  }

  lemma CheckOfInjective(lo: byte, hi: byte, lo': byte, hi': byte)
    requires CheckOf(lo, hi) == CheckOf(lo', hi')
    ensures lo == lo' && hi == hi'
  {
    LowHighJoin(Bv(lo), Bv(hi));
    LowHighJoin(Bv(lo'), Bv(hi'));
    BvFromBv(lo);
    BvFromBv(hi);
    BvFromBv(lo');
    BvFromBv(hi');
    hide Bv, FromBv, Low, High, Join;
  }

  /** The high byte of a register, shifted up k places. */
  function Up(hi: bv8, k: nat): bv16 {
    if k == 0 then hi as bv16 else Push(Up(hi, k - 1), false)
  }

  lemma ByteBound(v: bv8)
    ensures v as bv16 < 0x100
  {}

  lemma {:induction false} UpBound(hi: bv8, k: nat)
    requires k < 8
    ensures Up(hi, k) < Bit(8 + k)
  {
    hide Push;
    if k == 0 {
      ByteBound(hi);
    } else {
      UpBound(hi, k - 1);
      PushBound(Up(hi, k - 1), 7 + k, false);
    }
  }

  lemma UpEight(hi: bv8)
    ensures Up(hi, 8) == (hi as bv16) << 8
  {
    PushEight(hi);
    hide Push;
    var u := hi as bv16;
    assert Up(hi, 1) == Push(u, false);
    assert Up(hi, 2) == Push(Up(hi, 1), false);
    assert Up(hi, 3) == Push(Up(hi, 2), false);
    assert Up(hi, 4) == Push(Up(hi, 3), false);
    assert Up(hi, 5) == Push(Up(hi, 4), false);
    assert Up(hi, 6) == Push(Up(hi, 5), false);
    assert Up(hi, 7) == Push(Up(hi, 6), false);
  }

  lemma PushEight(hi: bv8)
    ensures Push(Push(Push(Push(Push(Push(Push(Push(hi as bv16, false), false), false), false), false), false),
                 false), false) == (hi as bv16) << 8
  {}

  lemma JoinIsXor(lo: bv8, hi: bv8)
    ensures Join(lo, hi) == Xor(lo as bv16, (hi as bv16) << 8)
  {}

  /** Reducing once takes the high byte down one place without touching the polynomial. */
  lemma ShiftPush(poly: bv16, q: bv16)
    requires q < 0x8000
    ensures Shift(poly, Push(q, false)) == q
  {}

  lemma {:induction false} ShiftsUp(poly: bv16, hi: bv8, k: nat)
    requires k <= 8
    ensures Shifts(poly, Up(hi, k), k) == hi as bv16
  {
    hide Shift, Push;
    if k > 0 {
      UpBound(hi, k - 1);
      ShiftPush(poly, Up(hi, k - 1));
      ShiftsUp(poly, hi, k - 1);
    }
  }

  lemma {:induction false} ShiftsLinear(poly: bv16, c: bv16, d: bv16, n: nat)
    ensures Shifts(poly, Xor(c, d), n) == Xor(Shifts(poly, c, n), Shifts(poly, d, n))
    decreases n
  {
    hide Xor, Shift;
    if n > 0 {
      ShiftLinear(poly, c, d);
      ShiftsLinear(poly, Shift(poly, c), Shift(poly, d), n - 1);
    }
  }

  /** Reducing a register by a byte: the low byte is reduced, the high byte only moves down. */
  lemma ShiftsByte(poly: bv16, c: bv16, lo: bv8, hi: bv8)
    ensures Shifts(poly, Xor(c, Join(lo, hi)), 8) == Xor(Shifts(poly, Xor(c, lo as bv16), 8), hi as bv16)
  {
    hide Xor, Shift, Join, Push;
    UpEight(hi);
    JoinIsXor(lo, hi);
    XorAssoc(c, lo as bv16, Up(hi, 8));
    ShiftsLinear(poly, Xor(c, lo as bv16), Up(hi, 8), 8);
    ShiftsUp(poly, hi, 8);
  }

  /** Dividing in a two-byte check value is adding it to the register and reducing sixteen times. */
  lemma DivideCheck(c: bv16, data: seq<byte>, lo: byte, hi: byte)
    ensures Divide(POLY16, c, BitsOf(data + [lo] + [hi]))
         == Shifts(POLY16, Xor(Divide(POLY16, c, BitsOf(data)), CheckOf(lo, hi)), 16)
  {
    hide BitsOfByte, Xor, Shift, Feed, Join, Bv;
    var d := Divide(POLY16, c, BitsOf(data));
    DivideSnoc(POLY16, c, data, lo);
    DivideSnoc(POLY16, c, data + [lo], hi);
    ShiftsByte(POLY16, d, Bv(lo), Bv(hi));
    ShiftsSplit(POLY16, Xor(d, CheckOf(lo, hi)), 8, 8);
  }

  lemma ResidueValue()
    ensures Shifts(POLY16, 0xFFFF, 16) == GOOD_FCS
  {
    assert Shifts(POLY16, 0xFFFF, 8) == 0x0F87;
    assert Shifts(POLY16, 0x0F87, 8) == GOOD_FCS;
    ShiftsSplit(POLY16, 0xFFFF, 8, 8);
  }

  lemma Complement(c: bv16, f: bv16)
    ensures f == Xor(c, 0xFFFF) <==> Xor(c, f) == 0xFFFF
  {
    hide Xor;
    XorAssoc(c, c, f);
    XorAssoc(c, c, 0xFFFF);
    XorSelf(c);
    XorComm(0, f);
    XorComm(0, 0xFFFF);
    XorZero(f);
    XorZero(0xFFFF);
  }

  /** The trailing check value is right exactly when the register over everything ends at GOOD_FCS. */
  lemma FcsResidue(data: seq<byte>, lo: byte, hi: byte)
    ensures CheckOf(lo, hi) == Fcs16(data) <==> FcsRegister(data + [lo] + [hi]) == GOOD_FCS
  {
    hide Xor, CheckOf, Shift, BitsOf, Divide;
    var d := FcsRegister(data);
    DivideCheck(0xFFFF, data, lo, hi);
    Complement(d, CheckOf(lo, hi));
    ResidueValue();
    ShiftsInjective(POLY16, Xor(d, CheckOf(lo, hi)), 0xFFFF, 16);
  }

  // Linearity

  function Xor8(u: bv8, v: bv8): bv8 {
    u ^ v
  }

  /** Byte-wise xor of two equally long messages. */
  function XorBytes(a: seq<byte>, b: seq<byte>): (s: seq<byte>)
    requires |a| == |b|
    ensures |s| == |a|
  {
    if |a| == 0 then []
    else XorBytes(a[..|a| - 1], b[..|b| - 1]) + [FromBv(Xor8(Bv(a[|a| - 1]), Bv(b[|b| - 1])))]
  }

  lemma Xor8Widens(u: bv8, v: bv8)
    ensures Xor8(u, v) as bv16 == Xor(u as bv16, v as bv16)
  {}

  lemma Crc16Snoc(data: seq<byte>, b: byte)
    ensures Crc16(data + [b]) == Shifts(POLY16, Xor(Crc16(data), Bv(b) as bv16), 8)
  {
    hide Shifts, Xor, Bv, BitsOf;
    DivideSnoc(POLY16, 0, data, b);
  }

  lemma Crc16Empty()
    ensures Crc16([]) == 0
  {
    assert BitsOf([]) == [];
  }

  /** CRC-16 without an initial value is linear over the bytes of equally long messages. */
  lemma {:induction false} Crc16Linear(a: seq<byte>, b: seq<byte>)
    requires |a| == |b|
    ensures Crc16(XorBytes(a, b)) == Xor(Crc16(a), Crc16(b))
  {
    hide Xor, Xor8, Shifts, Crc16, Bv, FromBv;
    if |a| == 0 {
      assert a == [] && b == [];
      Crc16Empty();
      XorZero(0);
    } else {
      var n := |a| - 1;
      var u, v := Bv(a[n]), Bv(b[n]);
      Crc16Linear(a[..n], b[..n]);
      assert a == a[..n] + [a[n]] && b == b[..n] + [b[n]];
      FromBvBv(Xor8(u, v));
      Crc16Snoc(a[..n], a[n]);
      Crc16Snoc(b[..n], b[n]);
      Crc16Snoc(XorBytes(a[..n], b[..n]), FromBv(Xor8(u, v)));
      Xor8Widens(u, v);
      XorFour(Crc16(a[..n]), u as bv16, Crc16(b[..n]), v as bv16);
      ShiftsLinear(POLY16, Xor(Crc16(a[..n]), u as bv16), Xor(Crc16(b[..n]), v as bv16), 8);
    }
  }

  // The CRC-8 residue: the check byte follows the bytes it covers

  lemma Crc8Complement(d: bv16, v: bv8)
    requires d < 0x100
    ensures v == Low(Xor(d, 0xFF)) <==> Xor(d, v as bv16) == 0xFF
  {}

  lemma Crc8Residue(data: seq<byte>, crc: byte)
    ensures crc == Crc8(data)
       <==> Divide(POLY8, 0xFF, BitsOf(data + [crc])) == Shifts(POLY8, 0xFF, 8)
  {
    var d := Divide(POLY8, 0xFF, BitsOf(data));
    hide Xor, Low, Shift, BitsOf, Bv, FromBv;
    DivideSnoc(POLY8, 0xFF, data, crc);
    DivideInjective(POLY8, 0xFF, 0xFF, BitsOf(data));
    BvFromBv(crc);
    FromBvBv(Low(Xor(d, 0xFF)));
    Crc8Complement(d, Bv(crc));
    CheckInRange(d, Bv(crc));
    ShiftsInjective(POLY8, Xor(d, Bv(crc) as bv16), 0xFF, 8);
  }

  lemma CheckInRange(d: bv16, v: bv8)
    requires d < 0x100
    ensures InRange(POLY8, Xor(d, v as bv16))
  {}
}
