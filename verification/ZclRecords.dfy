/** Attribute records: building write frames, cutting reports and read responses. */
module ZclRecords {
  import opened Bytes
  import opened Outcomes

  datatype Record = Record(attrID: u16, dataType: byte, value: seq<byte>)

  /** A read response: the type is 0 and the value empty where the status is not success. */
  datatype Response = Response(attrID: u16, status: byte, dataType: byte, value: seq<byte>)

  const VARIABLE: int := -1
  const UNKNOWN: int := -2
  const VARIABLE16: int := -3

  /** The size table of the ncp package. */
  function TypeSize(t: byte): int {
    if 0x08 <= t <= 0x0F then t as int - 0x08 + 1
    else if t == 0x10 || t == 0x18 then 1
    else if t == 0x19 then 2
    else if t == 0x1A then 3
    else if t == 0x1B then 4
    else if 0x20 <= t <= 0x27 then t as int - 0x20 + 1
    else if 0x28 <= t <= 0x2F then t as int - 0x28 + 1
    else if t == 0x30 then 1
    else if t == 0x31 || t == 0x38 then 2
    else if t == 0x39 then 4
    else if t == 0x3A then 8
    else if t == 0xE0 || t == 0xE1 || t == 0xE2 then 4
    else if t == 0xE8 || t == 0xE9 then 2
    else if t == 0xF0 then 8
    else if t == 0x41 || t == 0x42 then VARIABLE
    else if t == 0x43 || t == 0x44 then VARIABLE16
    else UNKNOWN
  }

  /** How many bytes the value of type t at the head of data takes, if it is there complete. */
  function Cut(t: byte, data: seq<byte>): Option<nat> {
    var size := TypeSize(t);
    if size > 0 then
      if size > |data| then None else Some(size)
    else if size == VARIABLE then
      if |data| < 1 || 1 + data[0] as nat > |data| then None else Some(1 + data[0] as nat)
    else if size == VARIABLE16 then
      if |data| < 2 || 2 + Le16(data[0], data[1]) > |data| then None else Some(2 + Le16(data[0], data[1]))
    else None
  }

  // Building

  function PrintRecord(r: Record): seq<byte> {
    PutLe16(r.attrID) + [r.dataType] + r.value
  }

  function Print(rs: seq<Record>): seq<byte> {
    if |rs| == 0 then [] else PrintRecord(rs[0]) + Print(rs[1..])
  }

  lemma {:induction false} PrintAppend(a: seq<Record>, b: seq<Record>)
    ensures Print(a + b) == Print(a) + Print(b)
  {
    if |a| == 0 {
      assert a + b == b;
    } else {
      assert (a + b)[1..] == a[1..] + b;
      PrintAppend(a[1..], b);
    }
  }

  /** zclBuildWriteAttributes: global frame, default response disabled, write command. */
  method BuildWriteAttributes(seqNum: byte, records: seq<Record>) returns (buf: seq<byte>)
    ensures buf == [0x10, seqNum, 0x02] + Print(records)
  {
    buf := [0x10, seqNum, 0x02];
    for i := 0 to |records|
      invariant buf == [0x10, seqNum, 0x02] + Print(records[..i])
    {
      var rec := records[i];
      var rbuf := PutLe16(rec.attrID);
      assert records[..i + 1] == records[..i] + [rec];
      PrintAppend(records[..i], [rec]);
      assert Print([rec]) == PrintRecord(rec) + Print([]);
      buf := buf + [rbuf[0], rbuf[1], rec.dataType];
      buf := buf + rec.value;
    }
    assert records[..|records|] == records;
  }

  // Cutting reports

  function Reports(data: seq<byte>): seq<Record> {
    if |data| < 3 then []
    else
      match Cut(data[2], data[3..])
      case None => []
      case Some(n) => [Record(Le16(data[0], data[1]), data[2], data[3..3 + n])] + Reports(data[3 + n..])
  }

  /** One way through the loop: a record cut off the front, or the end of the parse. */
  lemma ReportsStep(data: seq<byte>, value: seq<byte>, tail: seq<byte>)
    requires |data| >= 3
    ensures Cut(data[2], data[3..]) == None ==> Reports(data) == []
    ensures Cut(data[2], data[3..]) == Some(|value|) && data[3..] == value + tail ==>
              Reports(data) == [Record(Le16(data[0], data[1]), data[2], value)] + Reports(tail)
  {
    hide TypeSize, Le16;
    if Cut(data[2], data[3..]) == Some(|value|) && data[3..] == value + tail {
      assert data[3..][..|value|] == value && data[3..][|value|..] == tail;
      assert data[3..3 + |value|] == value && data[3 + |value|..] == tail;
    }
  }

  /** zclParseAttributeReports. */
  method ParseReports(data: seq<byte>) returns (reports: seq<Record>)
    ensures reports == Reports(data)
  {
    hide TypeSize, Reports, Le16;
    assert Reports([]) == [] by { ReportsShort([]); }
    reports := [];
    var pos := 0;
    assert data[0..] == data;
    while pos + 3 <= |data|
      invariant pos <= |data| && Reports(data) == reports + Reports(data[pos..])
    {
      ghost var rest := data[pos..];
      var attrID := Le16(data[pos], data[pos + 1]);
      var dataType := data[pos + 2];
      pos := pos + 3;
      ghost var at := pos;
      assert rest[3..] == data[at..];
      ReportsStep(rest, [], []);
      var size := TypeSize(dataType);
      var value: seq<byte>;
      if size > 0 {
        if pos + size > |data| {
          return;
        }
        value := data[pos..pos + size];
        pos := pos + size;
      } else if size == VARIABLE {
        if pos >= |data| {
          return;
        }
        var vlen := data[pos] as nat;
        if pos + 1 + vlen > |data| {
          return;
        }
        value := data[pos..pos + 1 + vlen];
        pos := pos + 1 + vlen;
      } else if size == VARIABLE16 {
        if pos + 2 > |data| {
          return;
        }
        var vlen: nat := Le16(data[pos], data[pos + 1]);
        if pos + 2 + vlen > |data| {
          return;
        }
        value := data[pos..pos + 2 + vlen];
        pos := pos + 2 + vlen;
      } else {
        return;
      }
      assert value == data[at..pos] && data[at..] == value + data[pos..];
      ReportsStep(rest, value, data[pos..]);
      reports := reports + [Record(attrID, dataType, value)];
    }
    ReportsShort(data[pos..]);
  }

  lemma ReportsShort(data: seq<byte>)
    requires |data| < 3
    ensures Reports(data) == []
  {}

  // Cutting read responses

  function Responses(data: seq<byte>): seq<Response> {
    if |data| < 3 then []
    else
      var attrID, status := Le16(data[0], data[1]), data[2];
      if status != 0 then [Response(attrID, status, 0, [])] + Responses(data[3..])
      else if |data| < 4 then []
      else if TypeSize(data[3]) == UNKNOWN then [Response(attrID, 0, data[3], [])]
      else
        match Cut(data[3], data[4..])
        case Some(n) => [Response(attrID, 0, data[3], data[4..4 + n])] + Responses(data[4 + n..])
        // A value that is cut off is reported empty, and parsing goes on right behind its type.
        case None => [Response(attrID, 0, data[3], [])] + Responses(data[4..])
  }

  /** The ways through the loop of parseAttributeResponses. */
  lemma ResponsesStep(data: seq<byte>, value: seq<byte>, tail: seq<byte>)
    requires |data| >= 3
    ensures data[2] != 0 ==>
              Responses(data) == [Response(Le16(data[0], data[1]), data[2], 0, [])] + Responses(data[3..])
    ensures data[2] == 0 && |data| == 3 ==> Responses(data) == []
    ensures data[2] == 0 && |data| > 3 && TypeSize(data[3]) == UNKNOWN ==>
              Responses(data) == [Response(Le16(data[0], data[1]), 0, data[3], [])]
    ensures data[2] == 0 && |data| > 3 && TypeSize(data[3]) != UNKNOWN && data[4..] == value + tail
            && Cut(data[3], data[4..]) == (if value == [] then None else Some(|value|)) ==>
              Responses(data) == [Response(Le16(data[0], data[1]), 0, data[3], value)] + Responses(tail)
  {
    hide TypeSize, Le16;
    if |data| > 3 && data[4..] == value + tail {
      assert data[4..][..|value|] == value && data[4..][|value|..] == tail;
      assert data[4..4 + |value|] == value && data[4 + |value|..] == tail;
      if value == [] {
        assert tail == data[4..];
      }
    }
  }

  /** The value at the head of data, by its size; nothing is taken where it is cut off. */
  method ReadValue(dataType: byte, size: int, data: seq<byte>) returns (value: seq<byte>, tail: seq<byte>)
    requires size == TypeSize(dataType)
    ensures data == value + tail
    ensures Cut(dataType, data) == if value == [] then None else Some(|value|)
  {
    hide TypeSize, Le16;
    value, tail := [], data;
    if size > 0 && |data| >= size {
      value, tail := data[..size], data[size..];
    } else if size == VARIABLE && |data| >= 1 {
      var vlen := data[0] as nat;
      if |data| >= 1 + vlen {
        value, tail := data[..1 + vlen], data[1 + vlen..];
      }
    } else if size == VARIABLE16 && |data| >= 2 {
      var vlen: nat := Le16(data[0], data[1]);
      if |data| >= 2 + vlen {
        value, tail := data[..2 + vlen], data[2 + vlen..];
      }
    }
  }

  /** parseAttributeResponses. */
  method ParseResponses(input: seq<byte>) returns (results: seq<Response>)
    ensures results == Responses(input)
  {
    hide TypeSize, Responses, Le16, Cut;
    results := [];
    var data := input;
    while |data| >= 3
      invariant Responses(input) == results + Responses(data)
      decreases |data|
    {
      ghost var rest := data;
      ResponsesStep(rest, [], []);
      var attrID, status := Le16(data[0], data[1]), data[2];
      data := data[3..];
      if status != 0 {
        results := results + [Response(attrID, status, 0, [])];
        continue;
      }
      if |data| < 1 {
        return;
      }
      var dataType := data[0];
      data := data[1..];
      assert data == rest[4..];
      var size := TypeSize(dataType);
      var value: seq<byte>;
      if size == UNKNOWN {
        results := results + [Response(attrID, status, dataType, [])];
        return;
      }
      var tail: seq<byte>;
      value, tail := ReadValue(dataType, size, data);
      data := tail;
      assert rest[4..] == value + data;
      ResponsesStep(rest, value, data);
      results := results + [Response(attrID, status, dataType, value)];
    }
    ResponsesShort(data);
  }

  lemma ResponsesShort(data: seq<byte>)
    requires |data| < 3
    ensures Responses(data) == []
  {}
}
