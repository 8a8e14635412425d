/** The table-driven checks of the code, proved equal to the bit-serial division. */
module CrcTables {
  import opened Bytes
  import opened Crc

  /** Picks the entry of a row of eight by the low three bits of the index. */
  function Row(i: bv8, e0: bv16, e1: bv16, e2: bv16, e3: bv16, e4: bv16, e5: bv16, e6: bv16, e7: bv16): bv16 {
    match i & 7
    case 0 => e0 case 1 => e1 case 2 => e2 case 3 => e3
    case 4 => e4 case 5 => e5 case 6 => e6 case _ => e7
  }

  // The FCS-16 lookup table, row by row, a quarter at a time

  function FcsQuarter0(i: bv8): bv16 {
    match i & 0x38
    case 0x00 => Row(i, 0x0000, 0x1189, 0x2312, 0x329B, 0x4624, 0x57AD, 0x6536, 0x74BF)
    case 0x08 => Row(i, 0x8C48, 0x9DC1, 0xAF5A, 0xBED3, 0xCA6C, 0xDBE5, 0xE97E, 0xF8F7)
    case 0x10 => Row(i, 0x1081, 0x0108, 0x3393, 0x221A, 0x56A5, 0x472C, 0x75B7, 0x643E)
    case 0x18 => Row(i, 0x9CC9, 0x8D40, 0xBFDB, 0xAE52, 0xDAED, 0xCB64, 0xF9FF, 0xE876)
    case 0x20 => Row(i, 0x2102, 0x308B, 0x0210, 0x1399, 0x6726, 0x76AF, 0x4434, 0x55BD)
    case 0x28 => Row(i, 0xAD4A, 0xBCC3, 0x8E58, 0x9FD1, 0xEB6E, 0xFAE7, 0xC87C, 0xD9F5)
    case 0x30 => Row(i, 0x3183, 0x200A, 0x1291, 0x0318, 0x77A7, 0x662E, 0x54B5, 0x453C)
    case _    => Row(i, 0xBDCB, 0xAC42, 0x9ED9, 0x8F50, 0xFBEF, 0xEA66, 0xD8FD, 0xC974)
  }

  function FcsQuarter1(i: bv8): bv16 {
    match i & 0x38
    case 0x00 => Row(i, 0x4204, 0x538D, 0x6116, 0x709F, 0x0420, 0x15A9, 0x2732, 0x36BB)
    case 0x08 => Row(i, 0xCE4C, 0xDFC5, 0xED5E, 0xFCD7, 0x8868, 0x99E1, 0xAB7A, 0xBAF3)
    case 0x10 => Row(i, 0x5285, 0x430C, 0x7197, 0x601E, 0x14A1, 0x0528, 0x37B3, 0x263A)
    case 0x18 => Row(i, 0xDECD, 0xCF44, 0xFDDF, 0xEC56, 0x98E9, 0x8960, 0xBBFB, 0xAA72)
    case 0x20 => Row(i, 0x6306, 0x728F, 0x4014, 0x519D, 0x2522, 0x34AB, 0x0630, 0x17B9)
    case 0x28 => Row(i, 0xEF4E, 0xFEC7, 0xCC5C, 0xDDD5, 0xA96A, 0xB8E3, 0x8A78, 0x9BF1)
    case 0x30 => Row(i, 0x7387, 0x620E, 0x5095, 0x411C, 0x35A3, 0x242A, 0x16B1, 0x0738)
    case _    => Row(i, 0xFFCF, 0xEE46, 0xDCDD, 0xCD54, 0xB9EB, 0xA862, 0x9AF9, 0x8B70)
  }

  function FcsQuarter2(i: bv8): bv16 {
    match i & 0x38
    case 0x00 => Row(i, 0x8408, 0x9581, 0xA71A, 0xB693, 0xC22C, 0xD3A5, 0xE13E, 0xF0B7)
    case 0x08 => Row(i, 0x0840, 0x19C9, 0x2B52, 0x3ADB, 0x4E64, 0x5FED, 0x6D76, 0x7CFF)
    case 0x10 => Row(i, 0x9489, 0x8500, 0xB79B, 0xA612, 0xD2AD, 0xC324, 0xF1BF, 0xE036)
    case 0x18 => Row(i, 0x18C1, 0x0948, 0x3BD3, 0x2A5A, 0x5EE5, 0x4F6C, 0x7DF7, 0x6C7E)
    case 0x20 => Row(i, 0xA50A, 0xB483, 0x8618, 0x9791, 0xE32E, 0xF2A7, 0xC03C, 0xD1B5)
    case 0x28 => Row(i, 0x2942, 0x38CB, 0x0A50, 0x1BD9, 0x6F66, 0x7EEF, 0x4C74, 0x5DFD)
    case 0x30 => Row(i, 0xB58B, 0xA402, 0x9699, 0x8710, 0xF3AF, 0xE226, 0xD0BD, 0xC134)
    case _    => Row(i, 0x39C3, 0x284A, 0x1AD1, 0x0B58, 0x7FE7, 0x6E6E, 0x5CF5, 0x4D7C)
  }

  function FcsQuarter3(i: bv8): bv16 {
    match i & 0x38
    case 0x00 => Row(i, 0xC60C, 0xD785, 0xE51E, 0xF497, 0x8028, 0x91A1, 0xA33A, 0xB2B3)
    case 0x08 => Row(i, 0x4A44, 0x5BCD, 0x6956, 0x78DF, 0x0C60, 0x1DE9, 0x2F72, 0x3EFB)
    case 0x10 => Row(i, 0xD68D, 0xC704, 0xF59F, 0xE416, 0x90A9, 0x8120, 0xB3BB, 0xA232)
    case 0x18 => Row(i, 0x5AC5, 0x4B4C, 0x79D7, 0x685E, 0x1CE1, 0x0D68, 0x3FF3, 0x2E7A)
    case 0x20 => Row(i, 0xE70E, 0xF687, 0xC41C, 0xD595, 0xA12A, 0xB0A3, 0x8238, 0x93B1)
    case 0x28 => Row(i, 0x6B46, 0x7ACF, 0x4854, 0x59DD, 0x2D62, 0x3CEB, 0x0E70, 0x1FF9)
    case 0x30 => Row(i, 0xF78F, 0xE606, 0xD49D, 0xC514, 0xB1AB, 0xA022, 0x92B9, 0x8330)
    case _    => Row(i, 0x7BC7, 0x6A4E, 0x58D5, 0x495C, 0x3DE3, 0x2C6A, 0x1EF1, 0x0F78)
  }

  function FcsTable(i: bv8): bv16 {
    match i & 0xC0
    case 0x00 => FcsQuarter0(i)
    case 0x40 => FcsQuarter1(i)
    case 0x80 => FcsQuarter2(i)
    case _ => FcsQuarter3(i)
  }

  function ShiftEight(poly: bv16, c: bv16): bv16 {
    Shift(poly, Shift(poly, Shift(poly, Shift(poly, Shift(poly, Shift(poly, Shift(poly, Shift(poly, c))))))))
  }

  lemma ShiftsEight(poly: bv16, c: bv16)
    ensures Shifts(poly, c, 8) == ShiftEight(poly, c)
  {
    hide Shift;
    var c4 := Shift(poly, Shift(poly, Shift(poly, Shift(poly, c))));
    assert Shifts(poly, c, 4) == c4;
    ShiftsSplit(poly, c, 4, 4);
    assert Shifts(poly, c4, 4) == Shift(poly, Shift(poly, Shift(poly, Shift(poly, c4))));
  }

  lemma FcsQuarter0Correct(i: bv8)
    requires i & 0xC0 == 0x00
    ensures FcsQuarter0(i) == ShiftEight(POLY16, i as bv16)
  {}

  lemma FcsQuarter1Correct(i: bv8)
    requires i & 0xC0 == 0x40
    ensures FcsQuarter1(i) == ShiftEight(POLY16, i as bv16)
  {}

  lemma FcsQuarter2Correct(i: bv8)
    requires i & 0xC0 == 0x80
    ensures FcsQuarter2(i) == ShiftEight(POLY16, i as bv16)
  {}

  lemma FcsQuarter3Correct(i: bv8)
    requires i & 0xC0 == 0xC0
    ensures FcsQuarter3(i) == ShiftEight(POLY16, i as bv16)
  {}

  /** Every entry of the table is the remainder of its index. */
  lemma FcsTableCorrect(i: bv8)
    ensures FcsTable(i) == Shifts(POLY16, i as bv16, 8)
  {
    ShiftsEight(POLY16, i as bv16);
    match i & 0xC0
    case 0x00 => FcsQuarter0Correct(i);
    case 0x40 => FcsQuarter1Correct(i);
    case 0x80 => FcsQuarter2Correct(i);
    case _ => FcsQuarter3Correct(i);
    hide FcsQuarter0, FcsQuarter1, FcsQuarter2, FcsQuarter3, Shift;
  }

  lemma HighOfXor(c: bv16, v: bv8)
    ensures High(Xor(c, v as bv16)) as bv16 == c >> 8
  {}

  /** One table step of the 16-bit loops divides in the eight bits of a byte. */
  lemma TableStep(c: bv16, v: bv8)
    ensures Xor(c >> 8, FcsTable(Low(Xor(c, v as bv16)))) == Shifts(POLY16, Xor(c, v as bv16), 8)
  {
    hide Xor, FcsTable, Low, High, Join, Shift;
    var x := Xor(c, v as bv16);
    JoinLowHigh(x);
    XorZero(x);
    XorComm(0, x);
    XorComm(0, Low(x) as bv16);
    XorZero(Low(x) as bv16);
    ShiftsByte(POLY16, 0, Low(x), High(x));
    FcsTableCorrect(Low(x));
    HighOfXor(c, v);
    XorComm(c >> 8, FcsTable(Low(x)));
  }

  /** The loop shared by zbossCRC16 and hdlcFCS16, which start it at 0x0000 and 0xFFFF. */
  method RunTable(start: bv16, data: seq<byte>) returns (crc: bv16)
    ensures crc == Divide(POLY16, start, BitsOf(data))
  {
    hide Shift, FcsTable, Low, Bv, Feed, BitsOfByte;
    crc := start;
    for i := 0 to |data|
      invariant crc == Divide(POLY16, start, BitsOf(data[..i]))
    {
      var b := Bv(data[i]) as bv16;
      TableStep(crc, Bv(data[i]));
      DivideSnoc(POLY16, start, data[..i], data[i]);
      assert data[..i + 1] == data[..i] + [data[i]];
      crc := Xor(crc >> 8, FcsTable(Low(Xor(crc, b))));
    }
    assert data[..|data|] == data;
  }

  method ComputeCrc16(data: seq<byte>) returns (crc: bv16)
    ensures crc == Crc16(data)
  {
    crc := RunTable(0x0000, data);
  }

  method ComputeFcs16(data: seq<byte>) returns (fcs: bv16)
    ensures fcs == Fcs16(data)
  {
    var r := RunTable(0xFFFF, data);
    fcs := Xor(r, 0xFFFF);
  }

  // CRC-8: a table the code builds at start-up

  /** The table entry of v, as the register of the division holds it. */
  ghost predicate IsCrc8Entry(entry: bv8, v: bv8) {
    entry as bv16 == Shifts(POLY8, v as bv16, 8)
  }

  ghost predicate IsCrc8Table(t: seq<bv8>) {
    |t| == 256 && forall b: byte :: IsCrc8Entry(t[b as int], Bv(b))
  }

  lemma Crc8Bit(c: bv8)
    ensures Shift(POLY8, c as bv16) == (if c & 1 != 0 then (c >> 1) ^ 0xB2 else c >> 1) as bv16
  {}

  method ComputeCrc8Entry(v: bv8) returns (crc: bv8)
    ensures IsCrc8Entry(crc, v)
  {
    hide Shift;
    crc := v;
    for bit := 0 to 8
      invariant Shifts(POLY8, crc as bv16, 8 - bit) == Shifts(POLY8, v as bv16, 8)
    {
      Crc8Bit(crc);
      if crc & 1 != 0 {
        crc := (crc >> 1) ^ 0xB2;
      } else {
        crc := crc >> 1;
      }
    }
  }

  method InitCrc8Table() returns (table: array<bv8>)
    ensures fresh(table) && IsCrc8Table(table[..])
  {
    hide Bv, IsCrc8Entry;
    table := new bv8[256];
    for i := 0 to 256
      invariant forall b: byte :: b as int < i ==> IsCrc8Entry(table[b as int], Bv(b))
    {
      table[i] := ComputeCrc8Entry(Bv(i as byte));
    }
  }

  /** The register after the bytes read so far. */
  ghost predicate IsCrc8Register(reg: bv8, data: seq<byte>) {
    reg as bv16 == Divide(POLY8, 0xFF, BitsOf(data))
  }

  lemma Crc8Start()
    ensures IsCrc8Register(0xFF, [])
  {
    assert BitsOf([]) == [];
  }

  lemma Crc8Step(reg: bv8, data: seq<byte>, b: byte, entry: bv8)
    requires IsCrc8Register(reg, data) && IsCrc8Entry(entry, Xor8(reg, Bv(b)))
    ensures IsCrc8Register(entry, data + [b])
  {
    DivideSnoc(POLY8, 0xFF, data, b);
    Xor8Widens(reg, Bv(b));
    hide Shifts, Xor, Xor8, Bv, Divide, BitsOf;
  }

  lemma Crc8Finish(reg: bv8, data: seq<byte>)
    requires IsCrc8Register(reg, data)
    ensures FromBv(reg ^ 0xFF) == Crc8(data)
  {
    hide Xor, Low, Divide, BitsOf, FromBv;
    LowComplement(reg);
  }

  lemma LowComplement(c: bv8)
    ensures Low(Xor(c as bv16, 0xFF)) == c ^ 0xFF
  {}

  lemma Crc8Lookup(t: seq<bv8>, v: bv8)
    requires IsCrc8Table(t)
    ensures |t| == 256 && IsCrc8Entry(t[FromBv(v) as int], v)
  {
    hide IsCrc8Entry, Bv, FromBv;
    FromBvBv(v);
  }

  method ComputeCrc8(table: array<bv8>, data: seq<byte>) returns (crc: byte)
    requires IsCrc8Table(table[..])
    ensures crc == Crc8(data)
  {
    hide Xor8, Crc8, Bv, FromBv, IsCrc8Table, IsCrc8Entry, IsCrc8Register;
    var reg: bv8 := 0xFF;
    Crc8Start();
    for i := 0 to |data|
      invariant IsCrc8Register(reg, data[..i])
    {
      var x := Xor8(reg, Bv(data[i]));
      Crc8Lookup(table[..], x);
      Crc8Step(reg, data[..i], data[i], table[FromBv(x) as int]);
      assert data[..i + 1] == data[..i] + [data[i]];
      reg := table[FromBv(x) as int];
    }
    assert data[..|data|] == data;
    Crc8Finish(reg, data);
    crc := FromBv(reg ^ 0xFF);
  }
}
