/** A buffered reader over the bytes a serial port delivers before it is closed (bufio.Reader). */
module ByteReader {
  import opened Bytes
  import opened Outcomes

  class Reader {
    const stream: seq<byte>
    var pos: nat

    ghost predicate Valid()
      reads this
    {
      pos <= |stream|
    }

    /** The bytes not read yet. */
    ghost function Rest(): seq<byte>
      requires Valid()
      reads this
    {
      stream[pos..]
    }

    constructor (stream: seq<byte>)
      ensures Valid() && Rest() == stream
    {
      this.stream := stream;
      this.pos := 0;
    }

    method ReadByte() returns (b: Option<byte>)
      requires Valid()
      modifies this
      ensures Valid()
      ensures old(Rest()) == [] ==> b == None && Rest() == []
      ensures old(Rest()) != [] ==> b == Some(old(Rest())[0]) && Rest() == old(Rest())[1..]
      ensures b.Some? ==> pos == old(pos) + 1
    {
      if pos == |stream| {
        return None;
      }
      b := Some(stream[pos]);
      pos := pos + 1;
    }

    method UnreadByte()
      requires Valid() && pos > 0
      modifies this
      ensures Valid() && pos == old(pos) - 1 && Rest() == [stream[old(pos) - 1]] + old(Rest())
    {
      pos := pos - 1;
    }

    /** io.ReadFull: n bytes, or everything that is left and an error. */
    method ReadFull(n: nat) returns (r: Option<seq<byte>>)
      requires Valid()
      modifies this
      ensures Valid()
      ensures n <= |old(Rest())| ==> r == Some(old(Rest())[..n]) && Rest() == old(Rest())[n..]
      ensures n > |old(Rest())| ==> r == None && Rest() == []
    {
      if n > |stream| - pos {
        pos := |stream|;
        assert Rest() == [];
        return None;
      }
      r := Some(stream[pos..pos + n]);
      assert stream[pos..pos + n] == stream[pos..][..n];
      pos := pos + n;
    }
  }
}
