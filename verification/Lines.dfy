/** Splitting a text at its newlines and joining it again. */
module Lines {

  /** strings.Split at newlines: one piece more than there are newlines. */
  function Split(s: string): (r: seq<string>)
    ensures r != []
  {
    if s == "" then [""]
    else
      var rest := Split(s[1..]);
      if s[0] == '\n' then [""] + rest else [[s[0]] + rest[0]] + rest[1..]
  }

  /** strings.Join with newlines. */
  function Join(lines: seq<string>): string {
    if lines == [] then ""
    else if |lines| == 1 then lines[0]
    else lines[0] + "\n" + Join(lines[1..])
  }

  predicate OneLine(s: string) {
    '\n' !in s
  }

  lemma {:induction false} SplitPieces(s: string)
    ensures forall l | l in Split(s) :: OneLine(l)
  {
    if s != "" {
      SplitPieces(s[1..]);
      var rest := Split(s[1..]);
      assert rest[0] in rest;
      assert Split(s)[1..] == if s[0] == '\n' then rest else rest[1..];
      assert Split(s) == [Split(s)[0]] + Split(s)[1..];
    }
  }

  lemma {:induction false} SplitOneLine(s: string)
    requires OneLine(s)
    ensures Split(s) == [s]
  {
    if s != "" {
      SplitOneLine(s[1..]);
      assert s == [s[0]] + s[1..];
    }
  }

  /** Splitting turns a newline between two texts into a boundary between their lines. */
  lemma {:induction false} SplitAppend(a: string, b: string)
    ensures Split(a + "\n" + b) == Split(a) + Split(b)
  {
    var s := a + "\n" + b;
    if a == "" {
      assert s[0] == '\n' && s[1..] == b;
    } else {
      assert s[0] == a[0] && s[1..] == a[1..] + "\n" + b;
      SplitAppend(a[1..], b);
    }
  }

  lemma JoinCons(l: string, lines: seq<string>)
    requires lines != []
    ensures Join([l] + lines) == l + "\n" + Join(lines)
  {
    assert ([l] + lines)[1..] == lines;
  }

  lemma {:induction false} JoinSplit(s: string)
    ensures Join(Split(s)) == s
  {
    if s != "" {
      JoinSplit(s[1..]);
      var rest := Split(s[1..]);
      if s[0] == '\n' {
        JoinCons("", rest);
      } else if |rest| > 1 {
        assert rest == [rest[0]] + rest[1..];
        JoinCons(rest[0], rest[1..]);
        JoinCons([s[0]] + rest[0], rest[1..]);
      }
    }
  }

  lemma {:induction false} SplitJoin(lines: seq<string>)
    requires lines != [] && forall l | l in lines :: OneLine(l)
    ensures Split(Join(lines)) == lines
  {
    SplitOneLine(lines[0]);
    if |lines| > 1 {
      SplitJoin(lines[1..]);
      SplitAppend(lines[0], Join(lines[1..]));
      assert lines == [lines[0]] + lines[1..];
    }
  }

  /** The first piece runs up to the first newline, or to the end. */
  lemma {:induction false} FirstPiece(s: string)
    ensures Split(s)[0] <= s && OneLine(Split(s)[0])
    ensures |Split(s)[0]| == |s| || s[|Split(s)[0]|] == '\n'
  {
    if s != "" && s[0] != '\n' {
      FirstPiece(s[1..]);
      assert s == [s[0]] + s[1..];
    }
  }

  lemma FirstPiecePrefix(s: string, t: string, p: string)
    requires OneLine(p)
    ensures p <= s + "\n" + t <==> p <= Split(s)[0]
  {
    FirstPiece(s);
    var first := Split(s)[0];
    var whole := s + "\n" + t;
    assert whole[|first|] == '\n' && first == whole[..|first|];
  }
}
