/** What cutting records guarantees, and the attribute write end to end. */
module ZclRecordTheorems {
  import opened Bytes
  import opened Outcomes
  import opened ZclRecords
  import Zcl
  import ZclRoundTrip

  // Cutting a value

  lemma CutStable(t: byte, data: seq<byte>, more: seq<byte>)
    requires Cut(t, data).Some?
    ensures 0 < Cut(t, data).value <= |data|
    ensures Cut(t, data + more) == Cut(t, data)
  {
    hide TypeSize, Le16;
  }

  lemma CutTight(t: byte, data: seq<byte>)
    requires Cut(t, data).Some?
    ensures Cut(t, data).value <= |data| && Cut(t, data[..Cut(t, data).value]) == Cut(t, data)
  {
    hide TypeSize, Le16;
  }

  // Reports: the unique maximal list of complete records

  /** A record whose value is exactly as long as its type says. */
  predicate Complete(r: Record) {
    Cut(r.dataType, r.value) == Some(|r.value|)
  }

  predicate AllComplete(rs: seq<Record>) {
    forall r | r in rs :: Complete(r)
  }

  /** No complete record starts here. */
  predicate NoRecord(data: seq<byte>) {
    |data| < 3 || Cut(data[2], data[3..]) == None
  }

  lemma ReportOfPrinted(r: Record, rest: seq<byte>)
    requires Complete(r)
    ensures Reports(PrintRecord(r) + rest) == [r] + Reports(rest)
  {
    hide Cut, Reports, Le16, PutLe16;
    var data := PrintRecord(r) + rest;
    CutStable(r.dataType, r.value, rest);
    assert data[3..] == r.value + rest;
    ReportsStep(data, r.value, rest);
  }

  lemma {:induction false} ReportsOfPrinted(rs: seq<Record>, tail: seq<byte>)
    requires AllComplete(rs)
    ensures Reports(Print(rs) + tail) == rs + Reports(tail)
  {
    hide Complete, PrintRecord, Reports;
    if |rs| == 0 {
      assert Print(rs) + tail == tail;
    } else {
      ReportsOfPrinted(rs[1..], tail);
      assert Complete(rs[0]);
      ReportOfPrinted(rs[0], Print(rs[1..]) + tail);
      assert Print(rs) + tail == PrintRecord(rs[0]) + (Print(rs[1..]) + tail);
      assert rs == [rs[0]] + rs[1..];
    }
  }

  lemma Glue(data: seq<byte>, k: nat, m: nat)
    requires k + m <= |data|
    ensures data[..k + m] == data[..k] + data[k..][..m] && data[k..][m..] == data[k + m..]
  {}

  lemma {:induction false} ReportsSound(data: seq<byte>)
    ensures var rs := Reports(data);
            && AllComplete(rs) && |Print(rs)| <= |data| && Print(rs) == data[..|Print(rs)|]
            && NoRecord(data[|Print(rs)|..])
  {
    hide Cut, Le16, PutLe16, TypeSize;
    if |data| >= 3 {
      match Cut(data[2], data[3..])
      case None =>
        assert data[|Print([])|..] == data;
      case Some(n) =>
        CutStable(data[2], data[3..], []);
        CutTight(data[2], data[3..]);
        var value, tail := data[3..3 + n], data[3 + n..];
        assert data[3..][..n] == value && data[3..] == value + tail;
        ReportsStep(data, value, tail);
        ReportsSound(tail);
        PutLe16Unique(data[0], data[1]);
        var r := Record(Le16(data[0], data[1]), data[2], value);
        var rs := Reports(tail);
        assert Reports(data)[1..] == rs;
        assert Print(Reports(data)) == PrintRecord(r) + Print(rs);
        assert PrintRecord(r) == data[..3 + n];
        hide Reports, NoRecord, PrintRecord, Print;
        Glue(data, 3 + n, |Print(rs)|);
    } else {
      assert data[|Print([])|..] == data;
    }
  }

  /** The parse without the parser: complete records that print to a prefix, and nothing complete after it. */
  lemma ReportsUnique(data: seq<byte>, rs: seq<Record>)
    ensures rs == Reports(data)
       <==> AllComplete(rs) && Print(rs) <= data && NoRecord(data[|Print(rs)|..])
  {
    ReportsSound(data);
    if AllComplete(rs) && Print(rs) <= data && NoRecord(data[|Print(rs)|..]) {
      var tail := data[|Print(rs)|..];
      assert data == Print(rs) + tail;
      ReportsOfPrinted(rs, tail);
      assert Reports(tail) == [];
    }
    hide Cut, Reports, NoRecord, Complete;
  }

  /** Truncating a report loses records from the end and changes none. */
  lemma {:induction false} ReportsTruncated(data: seq<byte>, k: nat)
    requires k <= |data|
    ensures Reports(data[..k]) <= Reports(data)
  {
    ReportsSound(data[..k]);
    var rs := Reports(data[..k]);
    hide Reports, Cut, NoRecord;
    var n := |Print(rs)|;
    assert data == Print(rs) + data[n..] by {
      assert data[..n] == data[..k][..n];
    }
    ReportsOfPrinted(rs, data[n..]);
  }

  // Read responses

  function PrintResponse(r: Response): seq<byte> {
    PutLe16(r.attrID) + [r.status] + (if r.status == 0 then [r.dataType] + r.value else [])
  }

  predicate WellFormed(r: Response) {
    if r.status == 0 then Cut(r.dataType, r.value) == Some(|r.value|) else r.dataType == 0 && r.value == []
  }

  function PrintResponses(rs: seq<Response>): seq<byte> {
    if |rs| == 0 then [] else PrintResponse(rs[0]) + PrintResponses(rs[1..])
  }

  lemma ResponseOfPrinted(r: Response, rest: seq<byte>)
    requires WellFormed(r)
    ensures Responses(PrintResponse(r) + rest) == [r] + Responses(rest)
  {
    hide Cut, Responses, Le16, PutLe16, TypeSize;
    var data := PrintResponse(r) + rest;
    if r.status == 0 {
      CutStable(r.dataType, r.value, rest);
      CutIsKnown(r.dataType, r.value);
      assert data[4..] == r.value + rest;
      ResponsesStep(data, r.value, rest);
    } else {
      assert data[3..] == rest;
      ResponsesStep(data, [], []);
    }
  }

  /** Printed responses, successes and errors mixed, come back exactly, whatever follows them. */
  lemma {:induction false} ResponsesOfPrinted(rs: seq<Response>, tail: seq<byte>)
    requires forall r | r in rs :: WellFormed(r)
    ensures Responses(PrintResponses(rs) + tail) == rs + Responses(tail)
  {
    hide WellFormed, PrintResponse, Responses;
    if |rs| == 0 {
      assert PrintResponses(rs) + tail == tail;
    } else {
      ResponsesOfPrinted(rs[1..], tail);
      ResponseOfPrinted(rs[0], PrintResponses(rs[1..]) + tail);
      assert PrintResponses(rs) + tail == PrintResponse(rs[0]) + (PrintResponses(rs[1..]) + tail);
      assert rs == [rs[0]] + rs[1..];
    }
  }

  lemma CutIsKnown(t: byte, data: seq<byte>)
    requires Cut(t, data).Some?
    ensures TypeSize(t) != UNKNOWN
  {}

  /** The cut at k is inside a value: behind the known type of a success record, before the end of its whole value. */
  predicate CutsValue(data: seq<byte>, k: nat)
    decreases |data|
  {
    if |data| < 3 then false
    else if data[2] != 0 then k >= 3 && CutsValue(data[3..], k - 3)
    else if |data| < 4 || TypeSize(data[3]) == UNKNOWN || k < 4 then false
    else
      match Cut(data[3], data[4..])
      case Some(n) => k < 4 + n || (4 + n <= |data| && CutsValue(data[4 + n..], k - 4 - n))
      case None => CutsValue(data[4..], k - 4)
  }

  /** What does not fit a whole does not fit a part of it. */
  lemma CutOfPart(t: byte, data: seq<byte>, k: nat)
    requires k <= |data|
    ensures Cut(t, data[..k]) == match Cut(t, data) case Some(n) => if k < n then None else Some(n) case None => None
  {
    hide TypeSize, Le16;
  }

  lemma PrefixCons<T>(x: T, a: seq<T>, b: seq<T>)
    ensures [x] + a <= [x] + b <==> a <= b
  {
    assert ([x] + a)[1..] == a && ([x] + b)[1..] == b;
    if [x] + a <= [x] + b {
      assert forall i | 0 <= i < |a| :: a[i] == ([x] + a)[i + 1] == ([x] + b)[i + 1] == b[i];
    }
  }

  /** A success record of known type, in the whole input and in the cut one. */
  lemma {:induction false} ValueTruncated(data: seq<byte>, k: nat)
    requires 4 <= k <= |data| && data[2] == 0 && TypeSize(data[3]) != UNKNOWN
    ensures Responses(data[..k]) <= Responses(data) <==> !CutsValue(data, k)
    decreases |data|, 0
  {
    hide TypeSize, Le16, Cut, Responses;
    var part := data[..k];
    var head := Response(Le16(data[0], data[1]), 0, data[3], []);
    assert part[4..] == data[4..][..k - 4];
    CutOfPart(data[3], data[4..], k - 4);
    match Cut(data[3], data[4..])
    case None =>
      ResponsesStep(data, [], data[4..]);
      ResponsesStep(part, [], part[4..]);
      ResponsesTruncated(data[4..], k - 4);
      PrefixCons(head, Responses(part[4..]), Responses(data[4..]));
    case Some(n) =>
      CutStable(data[3], data[4..], []);
      var value := data[4..][..n];
      ResponsesStep(data, value, data[4 + n..]);
      if k < 4 + n {
        ResponsesStep(part, [], part[4..]);
        assert Responses(part)[0] == head && Responses(data)[0] != head;
      } else {
        assert part[4 + n..] == data[4 + n..][..k - 4 - n];
        ResponsesStep(part, value, part[4 + n..]);
        ResponsesTruncated(data[4 + n..], k - 4 - n);
        PrefixCons(head.(value := value), Responses(part[4 + n..]), Responses(data[4 + n..]));
      }
  }

  /** Cutting off the end of a read response loses records from the end and changes none, unless it cuts a value. */
  lemma {:induction false} ResponsesTruncated(data: seq<byte>, k: nat)
    requires k <= |data|
    ensures Responses(data[..k]) <= Responses(data) <==> !CutsValue(data, k)
    decreases |data|, 1
  {
    hide TypeSize, Le16, Cut, Responses;
    var part := data[..k];
    if k < 3 {
      ResponsesShort(part);
    } else if data[2] != 0 {
      assert part[3..] == data[3..][..k - 3];
      ResponsesStep(data, [], []);
      ResponsesStep(part, [], []);
      ResponsesTruncated(data[3..], k - 3);
      PrefixCons(Response(Le16(data[0], data[1]), data[2], 0, []), Responses(part[3..]), Responses(data[3..]));
    } else if k == 3 {
      ResponsesStep(part, [], []);
    } else if TypeSize(data[3]) == UNKNOWN {
      ResponsesStep(data, [], []);
      ResponsesStep(part, [], []);
    } else {
      ValueTruncated(data, k);
    }
  }

  /** A truncation that cuts a value: it is reported empty. */
  lemma ResponsesTruncatedDiffer()
    ensures var data: seq<byte> := [0x05, 0x00, 0x00, 0x21, 0x34, 0x12];
            CutsValue(data, 5) && Responses(data[..5]) == [Response(5, 0, 0x21, [])]
  {
    var data: seq<byte> := [0x05, 0x00, 0x00, 0x21, 0x34, 0x12];
    assert data[..5][4..] == [] + [0x34];
    ResponsesStep(data[..5], [], [0x34]);
    ResponsesShort([0x34]);
  }

  // Types and bytes, one by one

  /** How many bytes every type takes: the fixed widths, the two kinds of length prefix, and no other type. */
  lemma CutByType(t: byte, data: seq<byte>)
    ensures t in {0x08, 0x10, 0x18, 0x20, 0x28, 0x30} ==> Cut(t, data) == AtLeast(1, data)
    ensures t in {0x09, 0x19, 0x21, 0x29, 0x31, 0x38, 0xE8, 0xE9} ==> Cut(t, data) == AtLeast(2, data)
    ensures t in {0x0A, 0x1A, 0x22, 0x2A} ==> Cut(t, data) == AtLeast(3, data)
    ensures t in {0x0B, 0x1B, 0x23, 0x2B, 0x39, 0xE0, 0xE1, 0xE2} ==> Cut(t, data) == AtLeast(4, data)
    ensures t in {0x0C, 0x24, 0x2C} ==> Cut(t, data) == AtLeast(5, data)
    ensures t in {0x0D, 0x25, 0x2D} ==> Cut(t, data) == AtLeast(6, data)
    ensures t in {0x0E, 0x26, 0x2E} ==> Cut(t, data) == AtLeast(7, data)
    ensures t in {0x0F, 0x27, 0x2F, 0x3A, 0xF0} ==> Cut(t, data) == AtLeast(8, data)
    ensures t in {0x41, 0x42} ==>
      Cut(t, data) == if |data| < 1 then None else AtLeast(1 + data[0] as nat, data)
    ensures t in {0x43, 0x44} ==>
      Cut(t, data) == if |data| < 2 then None else AtLeast(2 + data[0] as nat + 256 * data[1] as nat, data)
    ensures || 0x08 <= t <= 0x10 || 0x18 <= t <= 0x1B || 0x20 <= t <= 0x31 || 0x38 <= t <= 0x3A
            || 0x41 <= t <= 0x44 || t in {0xE0, 0xE1, 0xE2, 0xE8, 0xE9, 0xF0} || Cut(t, data) == None
  {
    assert AtLeast(1, data) == if |data| < 1 then None else Some(1);
  }

  function AtLeast(n: nat, data: seq<byte>): Option<nat> {
    if |data| < n then None else Some(n)
  }

  /** The bytes of a record and of a whole write frame: identifier low byte first, type, value. */
  lemma RecordBytes(id: u16, t: byte, value: seq<byte>, rs: seq<Record>)
    ensures Print([Record(id, t, value)] + rs) == [(id % 256) as byte, (id / 256) as byte, t] + value + Print(rs)
  {
    assert ([Record(id, t, value)] + rs)[1..] == rs;
  }

  /** A record in these bytes is what is read. */
  lemma ReportBytes(lo: byte, hi: byte, t: byte, value: seq<byte>, rest: seq<byte>)
    requires Cut(t, value) == Some(|value|)
    ensures Reports([lo, hi, t] + value + rest) == [Record(lo as nat + 256 * hi as nat, t, value)] + Reports(rest)
  {
    CutStable(t, value, rest);
    hide Reports, Cut;
    var data := [lo, hi, t] + value + rest;
    assert data[3..] == value + rest && data[0] == lo && data[1] == hi && data[2] == t;
    ReportsStep(data, value, rest);
  }

  /** A read response: a status, and only after success a type and a value. */
  lemma ResponseBytes(lo: byte, hi: byte, status: byte, t: byte, value: seq<byte>, rest: seq<byte>)
    ensures status != 0x00 ==>
      Responses([lo, hi, status] + rest) == [Response(lo as nat + 256 * hi as nat, status, 0, [])] + Responses(rest)
    ensures Cut(t, value) == Some(|value|) ==>
      Responses([lo, hi, 0x00, t] + value + rest)
        == [Response(lo as nat + 256 * hi as nat, 0x00, t, value)] + Responses(rest)
  {
    hide Responses, Cut, TypeSize;
    var failure, success := [lo, hi, status] + rest, [lo, hi, 0x00, t] + value + rest;
    assert failure[3..] == rest && success[4..] == value + rest;
    ResponsesStep(failure, [], []);
    if Cut(t, value) == Some(|value|) {
      CutStable(t, value, rest);
      CutIsKnown(t, value);
      ResponsesStep(success, value, rest);
    }
  }

  /**
    * What ends the list or is reported without a value: less than an identifier and a status, a success without a type,
    * a type of unknown size, behind which nothing can be found, and a value that is cut off.
    */
  lemma ResponseEnds(lo: byte, hi: byte, t: byte, rest: seq<byte>)
    ensures |rest| < 3 ==> Responses(rest) == []
    ensures Responses([lo, hi, 0x00]) == []
    ensures Cut(t, rest) == None ==>
      var id := lo as nat + 256 * hi as nat;
      var later := if TypeSize(t) == UNKNOWN then [] else Responses(rest);
      Responses([lo, hi, 0x00, t] + rest) == [Response(id, 0x00, t, [])] + later
  {
    hide Responses, Cut, TypeSize;
    if |rest| < 3 {
      ResponsesShort(rest);
    }
    ResponsesStep([lo, hi, 0x00], [], []);
    var data := [lo, hi, 0x00, t] + rest;
    assert data[4..] == rest;
    ResponsesStep(data, [], rest);
  }

  // Attribute writes end to end

  /** The two size tables agree on every type with a fixed size in the zcl package; ncp also knows the odd widths. */
  lemma TablesAgree(t: byte)
    ensures Zcl.TypeSize(t) > 0 ==> TypeSize(t) == Zcl.TypeSize(t)
    ensures TypeSize(t) > 0 && Zcl.TypeSize(t) <= 0
       <==> 0x08 <= t <= 0x0F || t == 0x26 || t == 0x27 || 0x2C <= t <= 0x2F
    ensures TypeSize(t) == VARIABLE <==> Zcl.DecodeLayout(t).AsString? && Zcl.DecodeLayout(t).prefix == 1
    ensures TypeSize(t) == VARIABLE16 <==> Zcl.DecodeLayout(t).AsString? && Zcl.DecodeLayout(t).prefix == 2
  {}

  /** What EncodeValue produces is cut in one piece by the record parsers. */
  lemma EncodedIsCut(fl: Zcl.Floats, t: byte, v: Zcl.Value)
    requires Zcl.GoValue(v) && Zcl.GoFloats(fl) && Zcl.EncodeValue(fl, t, v).Ok?
    ensures var e := Zcl.EncodeValue(fl, t, v).value; Cut(t, e) == Some(|e|)
  {
    var layout := Zcl.EncodeLayout(t);
    var e := Zcl.EncodeValue(fl, t, v).value;
    TablesAgree(t);
    ZclRoundTrip.LayoutsAgree(t);
    ZclRoundTrip.EncodeWidths(t);
    hide TypeSize, Zcl.TypeSize, Zcl.EncodeLayout, Zcl.DecodeLayout, Zcl.GoValue, Zcl.GoFloats, Zcl.EncodeString, Cut;
    if layout.AsString? {
      StringIsCut(v.s, layout.prefix);
      CutString(t, e, layout.prefix);
    } else {
      ZclRoundTrip.FixedRoundTrip(fl, layout, v, []);
      CutFixed(t, e);
    }
  }

  lemma CutFixed(t: byte, e: seq<byte>)
    requires TypeSize(t) == |e| > 0
    ensures Cut(t, e) == Some(|e|)
  {}

  lemma CutString(t: byte, e: seq<byte>, prefix: nat)
    requires (prefix == 1 && TypeSize(t) == VARIABLE) || (prefix == 2 && TypeSize(t) == VARIABLE16)
    requires |e| >= prefix
    requires |e| == prefix + if prefix == 1 then e[0] as nat else Le16(e[0], e[1])
    ensures Cut(t, e) == Some(|e|)
  {}

  lemma StringIsCut(s: seq<byte>, prefix: nat)
    requires (prefix == 1 || prefix == 2) && Zcl.EncodeString(s, prefix).Ok?
    ensures var e := Zcl.EncodeString(s, prefix).value;
            |e| == prefix + |s| && (if prefix == 1 then e[0] as nat == |s| else Le16(e[0], e[1]) == |s|)
  {
    ZclRoundTrip.Pow256Values();
    if prefix == 1 {
      assert ToLe(|s|, 1) == [(|s| % 256) as byte] + ToLe(|s| / 256, 0);
    } else {
      assert ToLe(|s|, 2) == [(|s| % 256) as byte] + ToLe(|s| / 256, 1);
      assert ToLe(|s| / 256, 1) == [(|s| / 256 % 256) as byte] + ToLe(|s| / 256 / 256, 0);
    }
  }

  datatype Attribute = Attribute(id: u16, t: byte, v: Zcl.Value)

  function ToRecord(fl: Zcl.Floats, a: Attribute): Record
    requires Zcl.EncodeValue(fl, a.t, a.v).Ok?
  {
    Record(a.id, a.t, Zcl.EncodeValue(fl, a.t, a.v).value)
  }

  function ToRecords(fl: Zcl.Floats, attrs: seq<Attribute>): (rs: seq<Record>)
    requires forall a | a in attrs :: Zcl.EncodeValue(fl, a.t, a.v).Ok?
    ensures |rs| == |attrs|
    ensures forall i | 0 <= i < |attrs| :: rs[i] == ToRecord(fl, attrs[i])
  {
    seq(|attrs|, i requires 0 <= i < |attrs| => ToRecord(fl, attrs[i]))
  }

  /** A written list of attributes is cut into the same list, and each piece decodes to its value, fully consumed. */
  lemma WriteRoundTrip(fl: Zcl.Floats, attrs: seq<Attribute>, seqNum: byte)
    requires forall a | a in attrs :: Zcl.GoValue(a.v)
    requires forall a | a in attrs :: Zcl.EncodeValue(fl, a.t, a.v).Ok?
    requires Zcl.GoFloats(fl)
    ensures var frame := [0x10, seqNum, 0x02] + Print(ToRecords(fl, attrs));
            && Reports(frame[3..]) == ToRecords(fl, attrs)
            && forall i | 0 <= i < |attrs| :: PieceDecodes(fl, attrs[i])
  {
    var rs := ToRecords(fl, attrs);
    forall i | 0 <= i < |attrs|
      ensures Complete(rs[i]) && PieceDecodes(fl, attrs[i])
    {
      PieceRoundTrip(fl, attrs[i]);
    }
    hide Complete, PieceDecodes, Zcl.EncodeValue, Reports;
    assert Reports([]) == [] by { ReportsShort([]); }
    ReportsOfPrinted(rs, []);
    var frame := [0x10, seqNum, 0x02] + Print(rs);
    assert frame[3..] == Print(rs) + [];
    assert rs + [] == rs;
  }

  predicate PieceDecodes(fl: Zcl.Floats, a: Attribute)
    requires Zcl.EncodeValue(fl, a.t, a.v).Ok?
  {
    var piece := ToRecord(fl, a).value;
    Zcl.DecodeValue(a.t, piece) == Ok((ZclRoundTrip.Canonical(fl, Zcl.EncodeLayout(a.t), a.v), |piece|))
  }

  lemma PieceRoundTrip(fl: Zcl.Floats, a: Attribute)
    requires Zcl.GoValue(a.v) && Zcl.GoFloats(fl) && Zcl.EncodeValue(fl, a.t, a.v).Ok?
    ensures Complete(ToRecord(fl, a)) && PieceDecodes(fl, a)
  {
    EncodedIsCut(fl, a.t, a.v);
    ZclRoundTrip.DecodeEncode(fl, a.t, a.v, []);
    hide Cut, Zcl.DecodeValue, Zcl.EncodeLayout, Zcl.GoValue, Zcl.GoFloats, ZclRoundTrip.Canonical;
    var piece := ToRecord(fl, a).value;
    assert piece + [] == piece;
  }
}
