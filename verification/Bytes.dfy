/** Bytes as numbers and as bit vectors, and the little-endian integers cut from them. */
module Bytes {
  newtype byte = x: int | 0 <= x < 256

  type u16 = n: nat | n < 0x1_0000

  // Little-endian integers

  /** The low k bytes of n, least significant first. */
  function ToLe(n: nat, k: nat): (s: seq<byte>)
    ensures |s| == k
  {
    if k == 0 then [] else [(n % 256) as byte] + ToLe(n / 256, k - 1)
  }

  function FromLe(s: seq<byte>): nat {
    if |s| == 0 then 0 else s[0] as nat + 256 * FromLe(s[1..])
  }

  function Pow256(k: nat): nat {
    if k == 0 then 1 else 256 * Pow256(k - 1)
  }

  lemma {:induction false} FromLeToLe(n: nat, k: nat)
    requires n < Pow256(k)
    ensures FromLe(ToLe(n, k)) == n
  {
    if k > 0 {
      FromLeToLe(n / 256, k - 1);
      assert ToLe(n, k)[1..] == ToLe(n / 256, k - 1);
    }
  }

  lemma {:induction false} ToLeFromLe(s: seq<byte>)
    ensures FromLe(s) < Pow256(|s|)
    ensures ToLe(FromLe(s), |s|) == s
  {
    if |s| > 0 {
      ToLeFromLe(s[1..]);
      assert s == [s[0]] + s[1..];
    }
  }

  /** A two-byte field as binary.LittleEndian.Uint16 reads it. */
  function Le16(lo: byte, hi: byte): u16 {
    lo as nat + 256 * hi as nat
  }

  /** A two-byte field as binary.LittleEndian.PutUint16 writes it. */
  function PutLe16(n: u16): (s: seq<byte>)
    ensures |s| == 2 && Le16(s[0], s[1]) == n
  {
    [(n % 256) as byte, (n / 256) as byte]
  }

  /** Two-byte fields have the low byte first, however they are read. */
  lemma LowByteFirst(lo: byte, hi: byte)
    ensures Le16(lo, hi) == lo as nat + 256 * hi as nat == FromLe([lo, hi])
  {
    assert [lo, hi][1..] == [hi] && [hi][1..] == [] && FromLe([]) == 0;
    assert FromLe([hi]) == hi as nat;
  }

  /** And however they are written. */
  lemma LowByteWrittenFirst(n: u16)
    ensures PutLe16(n) == ToLe(n, 2) && PutLe16(n)[0] as nat == n % 256 && PutLe16(n)[1] as nat == n / 256
  {
    assert ToLe(n / 256, 1) == [(n / 256 % 256) as byte] + ToLe(n / 256 / 256, 0);
  }

  lemma PutLe16Unique(lo: byte, hi: byte)
    ensures PutLe16(Le16(lo, hi)) == [lo, hi]
  {}

  // Bytes as bit vectors

  function Bv(b: byte): bv8 {
    b as bv8
  }

  function FromBv(v: bv8): byte {
    v as byte
  }

  lemma FromBvBv(v: bv8)
    ensures Bv(FromBv(v)) == v
  {}

  lemma BvSucc(v: bv8)
    requires v != 255
    ensures FromBv(v + 1) == FromBv(v) + 1
  {}

  lemma BvEnds()
    ensures FromBv(0) == 0 && FromBv(255) == 255
  {}

  lemma {:induction false} BvOnto(n: nat) returns (v: bv8)
    requires n < 256
    ensures FromBv(v) as nat == n
  {
    hide FromBv;
    BvEnds();
    if n == 0 {
      v := 0;
    } else {
      var u := BvOnto(n - 1);
      BvSucc(u);
      v := u + 1;
    }
  }

  lemma BvFromBv(b: byte)
    ensures FromBv(Bv(b)) == b
  {
    hide Bv, FromBv;
    var v := BvOnto(b as nat);
    FromBvBv(v);
  }
}
