/** Tuya data points by what they mean: values printed as a device prints them, and what decoding makes of them. */
module TuyaValues {
  import opened Bytes
  import opened DeviceProperties

  /** What a device reports: a switch, a number, a choice, a bitmap of some bytes, text, or bytes of some other type. */
  datatype Reading =
    | Switch(on: bool)
    | Amount(n: nat)
    | Choice(c: byte)
    | Bitmap(n: nat, width: nat)
    | Words(s: seq<byte>)
    | Other(dpType: byte, s: seq<byte>)

  predicate Printable(v: Reading) {
    match v
    case Amount(n) => n < 0x1_0000_0000
    case Bitmap(n, width) => 1 <= width <= 4 && n < Pow256(width)
    case Words(s) => |s| < 0x1_0000
    case Other(t, s) => |s| < 0x1_0000 && (t == 0 || t >= 6)
    case _ => true
  }

  function TypeCode(v: Reading): byte {
    match v
    case Switch(_) => 1
    case Amount(_) => 2
    case Words(_) => 3
    case Choice(_) => 4
    case Bitmap(_, _) => 5
    case Other(t, _) => t
  }

  /** The low k bytes of n, most significant first. */
  function ToBe(n: nat, k: nat): (s: seq<byte>)
    ensures |s| == k
  {
    if k == 0 then [] else ToBe(n / 256, k - 1) + [(n % 256) as byte]
  }

  function Data(v: Reading): seq<byte> {
    match v
    case Switch(on) => [if on then 1 else 0]
    case Amount(n) =>
      [(n / 0x100_0000 % 256) as byte, (n / 0x1_0000 % 256) as byte, (n / 0x100 % 256) as byte, (n % 256) as byte]
    case Choice(c) => [c]
    case Bitmap(n, width) => ToBe(n, width)
    case Words(s) => s
    case Other(_, s) => s
  }

  /** What it is decoded to. */
  function Meaning(v: Reading): DpValue {
    match v
    case Switch(on) => Flag(on)
    case Amount(n) => Number(n)
    case Choice(c) => Number(c as nat)
    case Bitmap(n, _) => Number(n)
    case Words(s) => Text(s)
    case Other(_, s) => Raw(s)
  }

  datatype Report = Report(id: byte, reading: Reading)

  predicate AllPrintable(rs: seq<Report>) {
    forall r | r in rs :: Printable(r.reading)
  }

  function PrintReport(r: Report): seq<byte>
    requires Printable(r.reading)
  {
    var d := Data(r.reading);
    [r.id, TypeCode(r.reading), (|d| / 256) as byte, (|d| % 256) as byte] + d
  }

  function PrintReports(rs: seq<Report>): seq<byte>
    requires AllPrintable(rs)
  {
    if rs == [] then [] else PrintReport(rs[0]) + PrintReports(rs[1..])
  }

  /** The readings as a map in which a later one of the same identifier wins. */
  function ReadingMap(rs: seq<Report>): map<byte, DpValue> {
    if rs == [] then map[] else map[rs[0].id := Meaning(rs[0].reading)] + ReadingMap(rs[1..])
  }

  // Numbers

  lemma {:induction false} FromBeToBe(n: nat, k: nat)
    requires n < Pow256(k)
    ensures FromBe(ToBe(n, k)) == n
  {
    if k > 0 {
      FromBeToBe(n / 256, k - 1);
      var s := ToBe(n, k);
      assert s[..|s| - 1] == ToBe(n / 256, k - 1) && s[|s| - 1] as nat == n % 256;
    }
  }

  lemma FourBytes(a: byte, b: byte, c: byte, d: byte)
    ensures FromBe([a, b, c, d]) == 0x100_0000 * a as nat + 0x1_0000 * b as nat + 0x100 * c as nat + d as nat
  {
    BigEndianPair(a, b);
    assert [a, b, c][..2] == [a, b] && [a, b, c, d][..3] == [a, b, c];
    assert FromBe([a, b, c]) == 256 * FromBe([a, b]) + c as nat;
  }

  lemma Quarters(n: nat)
    requires n < 0x1_0000_0000
    ensures 0x100_0000 * (n / 0x100_0000 % 256) + 0x1_0000 * (n / 0x1_0000 % 256)
      + 0x100 * (n / 0x100 % 256) + n % 256 == n
  {
    assert n / 0x100_0000 < 256;
  }

  // One data point

  /** What any data point stores, by its type code and data: types 1, 2 and 4 nothing when the data is too short. */
  lemma Stores(id: byte, t: byte, d: seq<byte>, rest: seq<byte>)
    requires |d| < 0x1_0000
    ensures var data := [id, t, (|d| / 256) as byte, (|d| % 256) as byte] + d + rest;
      && (t == 1 ==> Dps(data) == Then(if |d| < 1 then map[] else map[id := Flag(d[0] != 0)], Dps(rest)))
      && (t == 2 ==> Dps(data) == Then(
            if |d| < 4 then map[]
            else map[id := Number(
              0x100_0000 * d[0] as nat + 0x1_0000 * d[1] as nat + 0x100 * d[2] as nat + d[3] as nat)], Dps(rest)))
      && (t == 3 ==> Dps(data) == Then(map[id := DpValue.Text(d)], Dps(rest)))
      && (t == 4 ==> Dps(data) == Then(if |d| < 1 then map[] else map[id := Number(d[0] as nat)], Dps(rest)))
      && (t == 5 ==> Dps(data) == Then(map[id := Number(FromBe(d) % 0x1_0000_0000)], Dps(rest)))
      && (t == 0 || t >= 6 ==> Dps(data) == Then(map[id := Raw(d)], Dps(rest)))
  {
    DpRoundTrip(DataPoint(id, t, d), rest);
    if |d| >= 4 {
      FourBytes(d[0], d[1], d[2], d[3]);
      assert d[..4] == [d[0], d[1], d[2], d[3]];
    }
    hide Dps, FromBe;
  }

  lemma BitmapBack(n: nat, width: nat)
    requires 1 <= width <= 4 && n < Pow256(width)
    ensures |ToBe(n, width)| < 0x1_0000 && FromBe(ToBe(n, width)) % 0x1_0000_0000 == n
  {
    FromBeToBe(n, width);
    FourAtMost(width);
  }

  lemma ReadingStored(r: Report, rest: seq<byte>)
    requires Printable(r.reading)
    ensures Dps(PrintReport(r) + rest) == Then(map[r.id := Meaning(r.reading)], Dps(rest))
  {
    hide Dps, FromBe, ToBe, Pow256, Then;
    var v := r.reading;
    Stores(r.id, TypeCode(v), Data(v), rest);
    match v
    case Amount(n) => Quarters(n);
    case Bitmap(n, width) => BitmapBack(n, width);
    case _ =>
  }

  lemma FourAtMost(width: nat)
    requires 1 <= width <= 4
    ensures Pow256(width) <= 0x1_0000_0000
  {
    assert Pow256(1) == 0x100 && Pow256(2) == 0x1_0000 && Pow256(3) == 0x100_0000 && Pow256(4) == 0x1_0000_0000;
  }

  /** Printed readings are stored as what they mean, and decoding goes on behind them. */
  lemma {:induction false} ReadingsStored(rs: seq<Report>, tail: seq<byte>)
    requires AllPrintable(rs)
    ensures Dps(PrintReports(rs) + tail) == Then(ReadingMap(rs), Dps(tail))
  {
    hide Dps, PrintReport, Meaning;
    if rs == [] {
      assert PrintReports(rs) + tail == tail;
    } else {
      var rest := PrintReports(rs[1..]) + tail;
      assert PrintReports(rs) + tail == PrintReport(rs[0]) + rest;
      ReadingStored(rs[0], rest);
      ReadingsStored(rs[1..], tail);
      MapAssoc(map[rs[0].id := Meaning(rs[0].reading)], ReadingMap(rs[1..]), Dps(tail).values);
    }
  }

  /** How decoding ends: quietly with less than a header, with an error where a data point is cut off. */
  lemma TailEnds(tail: seq<byte>)
    ensures |tail| < 4 ==> Dps(tail) == Found(map[], false)
    ensures |tail| >= 4 && 4 + 256 * tail[2] as nat + tail[3] as nat > |tail| ==> Dps(tail) == Found(map[], true)
  {
    if |tail| >= 4 {
      BigEndianPair(tail[2], tail[3]);
      assert tail[2..4] == [tail[2], tail[3]];
    }
    hide FromBe;
  }

  lemma ThenNothing(m: map<byte, DpValue>, failed: bool)
    ensures Then(m, Found(map[], failed)) == Found(m, failed)
  {
    assert m + map[] == m;
  }

  /**
    * A command with any two bytes in front of printed readings decodes to the map of what they mean. Up to three bytes
    * behind them are ignored; a data point that says it is longer than it is ends it with an error.
    */
  lemma PayloadRoundTrip(hi: byte, lo: byte, rs: seq<Report>, tail: seq<byte>)
    requires AllPrintable(rs)
    ensures |tail| < 4 ==> TuyaPayload([hi, lo] + PrintReports(rs) + tail) == Found(ReadingMap(rs), false)
    ensures |tail| >= 4 && 4 + 256 * tail[2] as nat + tail[3] as nat > |tail| ==>
      TuyaPayload([hi, lo] + PrintReports(rs) + tail) == Found(ReadingMap(rs), true)
    ensures TuyaPayload([hi]) == TuyaPayload([]) == Found(map[], false)
  {
    hide Dps, PrintReports, ReadingMap, Then;
    assert ([hi, lo] + PrintReports(rs) + tail)[2..] == PrintReports(rs) + tail;
    ReadingsStored(rs, tail);
    TailEnds(tail);
    ThenNothing(ReadingMap(rs), false);
    ThenNothing(ReadingMap(rs), true);
  }
}
