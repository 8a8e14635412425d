/** The three checksums against the published check values of their parameters. */
module CrcAnswers {
  import opened Bytes
  import opened Crc

  /** The text "123456789", on which check values are given. */
  const DIGITS: seq<byte> := [0x31, 0x32, 0x33, 0x34, 0x35, 0x36, 0x37, 0x38, 0x39]

  lemma DigitBits()
    ensures Bv(0x31) == 0x31 && Bv(0x32) == 0x32 && Bv(0x33) == 0x33 && Bv(0x34) == 0x34 && Bv(0x35) == 0x35
    ensures Bv(0x36) == 0x36 && Bv(0x37) == 0x37 && Bv(0x38) == 0x38 && Bv(0x39) == 0x39
  {}

  /** The register after a byte is added and eight steps are taken. */
  function AfterByte(poly: bv16, c: bv16, v: bv8): bv16 {
    Shifts(poly, Xor(c, v as bv16), 8)
  }

  /** The register after all the bytes, one by one. */
  function AfterAll(poly: bv16, c: bv16, vs: seq<bv8>): bv16
    decreases |vs|
  {
    if vs == [] then c else AfterAll(poly, AfterByte(poly, c, vs[0]), vs[1..])
  }

  lemma {:induction false} DivideIsAfterAll(poly: bv16, c: bv16, data: seq<byte>, vs: seq<bv8>)
    requires |data| == |vs| && forall i | 0 <= i < |data| :: Bv(data[i]) == vs[i]
    ensures Divide(poly, c, BitsOf(data)) == AfterAll(poly, c, vs)
    decreases |data|
  {
    hide BitsOfByte, Xor, Shift, Feed, Bv, Shifts;
    if data != [] {
      DivideAppend(poly, c, BitsOfByte(Bv(data[0])), BitsOf(data[1..]));
      DivideByte(poly, c, Bv(data[0]));
      DivideIsAfterAll(poly, AfterByte(poly, c, vs[0]), data[1..], vs[1..]);
    }
  }

  lemma OneMore(poly: bv16, c: bv16, v: bv8, rest: seq<bv8>)
    ensures AfterAll(poly, c, [v] + rest) == AfterAll(poly, AfterByte(poly, c, v), rest)
  {
    assert ([v] + rest)[1..] == rest;
  }

  lemma DoneAll(poly: bv16, c: bv16)
    ensures AfterAll(poly, c, []) == c
  {}

  lemma FcsEnd()
    ensures Xor(0x6F91, 0xFFFF) == 0x906E
  {}

  lemma Crc8End()
    ensures FromBv(Low(Xor(0x0027, 0xFF))) == 0xD8
  {}

  lemma Crc16AnswerPart1(rest: seq<bv8>)
    ensures AfterAll(POLY16, 0x0000, [0x31, 0x32, 0x33, 0x34, 0x35] + rest) == AfterAll(POLY16, 0x7437, rest)
  {
    Crc16AnswerSteps();
    hide AfterByte, AfterAll;
    OneMore(POLY16, 0x0000, 0x31, [0x32, 0x33, 0x34, 0x35] + rest);
    assert [0x31, 0x32, 0x33, 0x34, 0x35] + rest == [0x31] + ([0x32, 0x33, 0x34, 0x35] + rest);
    OneMore(POLY16, 0x200A, 0x32, [0x33, 0x34, 0x35] + rest);
    assert [0x32, 0x33, 0x34, 0x35] + rest == [0x32] + ([0x33, 0x34, 0x35] + rest);
    OneMore(POLY16, 0xBDEB, 0x33, [0x34, 0x35] + rest);
    assert [0x33, 0x34, 0x35] + rest == [0x33] + ([0x34, 0x35] + rest);
    OneMore(POLY16, 0x5A78, 0x34, [0x35] + rest);
    assert [0x34, 0x35] + rest == [0x34] + ([0x35] + rest);
    OneMore(POLY16, 0x8832, 0x35, rest);
    assert [0x35] + rest == [0x35] + (rest);
  }

  lemma Crc16AnswerPart2(rest: seq<bv8>)
    ensures AfterAll(POLY16, 0x7437, [0x36, 0x37, 0x38, 0x39] + rest) == AfterAll(POLY16, 0x2189, rest)
  {
    Crc16AnswerSteps();
    hide AfterByte, AfterAll;
    OneMore(POLY16, 0x7437, 0x36, [0x37, 0x38, 0x39] + rest);
    assert [0x36, 0x37, 0x38, 0x39] + rest == [0x36] + ([0x37, 0x38, 0x39] + rest);
    OneMore(POLY16, 0x11FD, 0x37, [0x38, 0x39] + rest);
    assert [0x37, 0x38, 0x39] + rest == [0x37] + ([0x38, 0x39] + rest);
    OneMore(POLY16, 0x6947, 0x38, [0x39] + rest);
    assert [0x38, 0x39] + rest == [0x38] + ([0x39] + rest);
    OneMore(POLY16, 0x8B19, 0x39, rest);
    assert [0x39] + rest == [0x39] + (rest);
  }

  lemma Crc16AnswerSteps()
    ensures AfterByte(POLY16, 0x0000, 0x31) == 0x200A
    ensures AfterByte(POLY16, 0x200A, 0x32) == 0xBDEB
    ensures AfterByte(POLY16, 0xBDEB, 0x33) == 0x5A78
    ensures AfterByte(POLY16, 0x5A78, 0x34) == 0x8832
    ensures AfterByte(POLY16, 0x8832, 0x35) == 0x7437
    ensures AfterByte(POLY16, 0x7437, 0x36) == 0x11FD
    ensures AfterByte(POLY16, 0x11FD, 0x37) == 0x6947
    ensures AfterByte(POLY16, 0x6947, 0x38) == 0x8B19
    ensures AfterByte(POLY16, 0x8B19, 0x39) == 0x2189
  {}

  /** CRC-16/KERMIT. */
  lemma Crc16Answer()
    ensures Crc16(DIGITS) == 0x2189
  {
    var low, high: seq<bv8> := [0x31, 0x32, 0x33, 0x34, 0x35], [0x36, 0x37, 0x38, 0x39];
    DigitBits();
    hide Bv;
    DivideIsAfterAll(POLY16, 0x0000, DIGITS, low + high);
    hide AfterAll, Divide, BitsOf;
    Crc16AnswerPart1(high);
    Crc16AnswerPart2([]);
    assert high + [] == high;
    DoneAll(POLY16, 0x2189);
  }

  lemma Fcs16AnswerPart1(rest: seq<bv8>)
    ensures AfterAll(POLY16, 0xFFFF, [0x31, 0x32, 0x33, 0x34, 0x35] + rest) == AfterAll(POLY16, 0x44BF, rest)
  {
    Fcs16AnswerSteps();
    hide AfterByte, AfterAll;
    OneMore(POLY16, 0xFFFF, 0x31, [0x32, 0x33, 0x34, 0x35] + rest);
    assert [0x31, 0x32, 0x33, 0x34, 0x35] + rest == [0x31] + ([0x32, 0x33, 0x34, 0x35] + rest);
    OneMore(POLY16, 0x2F8D, 0x32, [0x33, 0x34, 0x35] + rest);
    assert [0x32, 0x33, 0x34, 0x35] + rest == [0x32] + ([0x33, 0x34, 0x35] + rest);
    OneMore(POLY16, 0x4D53, 0x33, [0x34, 0x35] + rest);
    assert [0x33, 0x34, 0x35] + rest == [0x33] + ([0x34, 0x35] + rest);
    OneMore(POLY16, 0x634B, 0x34, [0x35] + rest);
    assert [0x34, 0x35] + rest == [0x34] + ([0x35] + rest);
    OneMore(POLY16, 0x8B13, 0x35, rest);
    assert [0x35] + rest == [0x35] + (rest);
  }

  lemma Fcs16AnswerPart2(rest: seq<bv8>)
    ensures AfterAll(POLY16, 0x44BF, [0x36, 0x37, 0x38, 0x39] + rest) == AfterAll(POLY16, 0x6F91, rest)
  {
    Fcs16AnswerSteps();
    hide AfterByte, AfterAll;
    OneMore(POLY16, 0x44BF, 0x36, [0x37, 0x38, 0x39] + rest);
    assert [0x36, 0x37, 0x38, 0x39] + rest == [0x36] + ([0x37, 0x38, 0x39] + rest);
    OneMore(POLY16, 0x198D, 0x37, [0x38, 0x39] + rest);
    assert [0x37, 0x38, 0x39] + rest == [0x37] + ([0x38, 0x39] + rest);
    OneMore(POLY16, 0x1AC8, 0x38, [0x39] + rest);
    assert [0x38, 0x39] + rest == [0x38] + ([0x39] + rest);
    OneMore(POLY16, 0xF795, 0x39, rest);
    assert [0x39] + rest == [0x39] + (rest);
  }

  lemma Fcs16AnswerSteps()
    ensures AfterByte(POLY16, 0xFFFF, 0x31) == 0x2F8D
    ensures AfterByte(POLY16, 0x2F8D, 0x32) == 0x4D53
    ensures AfterByte(POLY16, 0x4D53, 0x33) == 0x634B
    ensures AfterByte(POLY16, 0x634B, 0x34) == 0x8B13
    ensures AfterByte(POLY16, 0x8B13, 0x35) == 0x44BF
    ensures AfterByte(POLY16, 0x44BF, 0x36) == 0x198D
    ensures AfterByte(POLY16, 0x198D, 0x37) == 0x1AC8
    ensures AfterByte(POLY16, 0x1AC8, 0x38) == 0xF795
    ensures AfterByte(POLY16, 0xF795, 0x39) == 0x6F91
  {}

  /** CRC-16/X-25, the FCS-16 of RFC 1662. */
  lemma Fcs16Answer()
    ensures Fcs16(DIGITS) == 0x906E
  {
    var low, high: seq<bv8> := [0x31, 0x32, 0x33, 0x34, 0x35], [0x36, 0x37, 0x38, 0x39];
    DigitBits();
    hide Bv;
    DivideIsAfterAll(POLY16, 0xFFFF, DIGITS, low + high);
    hide AfterAll, Divide, BitsOf;
    Fcs16AnswerPart1(high);
    Fcs16AnswerPart2([]);
    assert high + [] == high;
    DoneAll(POLY16, 0x6F91);
    FcsEnd();
  }

  lemma Crc8AnswerPart1(rest: seq<bv8>)
    ensures AfterAll(POLY8, 0x00FF, [0x31, 0x32, 0x33, 0x34, 0x35] + rest) == AfterAll(POLY8, 0x00FC, rest)
  {
    Crc8AnswerSteps();
    hide AfterByte, AfterAll;
    OneMore(POLY8, 0x00FF, 0x31, [0x32, 0x33, 0x34, 0x35] + rest);
    assert [0x31, 0x32, 0x33, 0x34, 0x35] + rest == [0x31] + ([0x32, 0x33, 0x34, 0x35] + rest);
    OneMore(POLY8, 0x00FA, 0x32, [0x33, 0x34, 0x35] + rest);
    assert [0x32, 0x33, 0x34, 0x35] + rest == [0x32] + ([0x33, 0x34, 0x35] + rest);
    OneMore(POLY8, 0x007E, 0x33, [0x34, 0x35] + rest);
    assert [0x33, 0x34, 0x35] + rest == [0x33] + ([0x34, 0x35] + rest);
    OneMore(POLY8, 0x000A, 0x34, [0x35] + rest);
    assert [0x34, 0x35] + rest == [0x34] + ([0x35] + rest);
    OneMore(POLY8, 0x00C0, 0x35, rest);
    assert [0x35] + rest == [0x35] + (rest);
  }

  lemma Crc8AnswerPart2(rest: seq<bv8>)
    ensures AfterAll(POLY8, 0x00FC, [0x36, 0x37, 0x38, 0x39] + rest) == AfterAll(POLY8, 0x0027, rest)
  {
    Crc8AnswerSteps();
    hide AfterByte, AfterAll;
    OneMore(POLY8, 0x00FC, 0x36, [0x37, 0x38, 0x39] + rest);
    assert [0x36, 0x37, 0x38, 0x39] + rest == [0x36] + ([0x37, 0x38, 0x39] + rest);
    OneMore(POLY8, 0x0002, 0x37, [0x38, 0x39] + rest);
    assert [0x37, 0x38, 0x39] + rest == [0x37] + ([0x38, 0x39] + rest);
    OneMore(POLY8, 0x0017, 0x38, [0x39] + rest);
    assert [0x38, 0x39] + rest == [0x38] + ([0x39] + rest);
    OneMore(POLY8, 0x00B1, 0x39, rest);
    assert [0x39] + rest == [0x39] + (rest);
  }

  lemma Crc8AnswerSteps()
    ensures AfterByte(POLY8, 0x00FF, 0x31) == 0x00FA
    ensures AfterByte(POLY8, 0x00FA, 0x32) == 0x007E
    ensures AfterByte(POLY8, 0x007E, 0x33) == 0x000A
    ensures AfterByte(POLY8, 0x000A, 0x34) == 0x00C0
    ensures AfterByte(POLY8, 0x00C0, 0x35) == 0x00FC
    ensures AfterByte(POLY8, 0x00FC, 0x36) == 0x0002
    ensures AfterByte(POLY8, 0x0002, 0x37) == 0x0017
    ensures AfterByte(POLY8, 0x0017, 0x38) == 0x00B1
    ensures AfterByte(POLY8, 0x00B1, 0x39) == 0x0027
  {}

  /** CRC-8/KOOP. */
  lemma Crc8Answer()
    ensures Crc8(DIGITS) == 0xD8
  {
    var low, high: seq<bv8> := [0x31, 0x32, 0x33, 0x34, 0x35], [0x36, 0x37, 0x38, 0x39];
    DigitBits();
    hide Bv;
    DivideIsAfterAll(POLY8, 0x00FF, DIGITS, low + high);
    hide AfterAll, Divide, BitsOf;
    Crc8AnswerPart1(high);
    Crc8AnswerPart2([]);
    assert high + [] == high;
    DoneAll(POLY8, 0x0027);
    Crc8End();
  }
}
