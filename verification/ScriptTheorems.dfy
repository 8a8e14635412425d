/** What survives saving a script and loading it again. */
module ScriptTheorems {
  import opened Lines
  import opened Outcomes
  import opened Scripts

  // The regular expression on a saved file

  /** A line after the first starts with the marker. */
  predicate Later(lines: seq<string>, marker: string) {
    exists k :: 1 <= k < |lines| && marker <= lines[k]
  }

  lemma LaterCons(first: string, rest: seq<string>, marker: string)
    requires rest != []
    ensures Later([first] + rest, marker) <==> marker <= rest[0] || Later(rest, marker)
  {
    var lines := [first] + rest;
    if k :| 1 <= k < |lines| && marker <= lines[k] {
      assert marker <= rest[k - 1];
    }
    if marker <= rest[0] {
      assert marker <= lines[1];
    }
    if k :| 1 <= k < |rest| && marker <= rest[k] {
      assert marker <= lines[k + 1];
    }
  }

  lemma LaterSame(a: string, b: string, rest: seq<string>, marker: string)
    ensures Later([a] + rest, marker) <==> Later([b] + rest, marker)
  {
    assert forall k | 1 <= k < |rest| + 1 :: ([a] + rest)[k] == ([b] + rest)[k];
  }

  /** A newline and a marker, tested at the start of a text. */
  lemma MarkerAt(s: string, marker: string)
    requires s != ""
    ensures "\n" + marker <= s <==> s[0] == '\n' && marker <= s[1..]
  {
    var p := "\n" + marker;
    if p <= s {
      assert p[1..] == marker && s[..|p|][1..] == s[1..][..|marker|];
    }
    if s[0] == '\n' && marker <= s[1..] {
      assert s[..|p|] == [s[0]] + s[1..][..|marker|];
    }
  }

  /** The first closing marker on a line of its own is the block's, exactly when no later line of the XML has one. */
  lemma {:induction false} FindClosing(xml: string, closing: string, t: string)
    requires OneLine(closing)
    ensures Find(xml + "\n" + closing + t, "\n" + closing).Some?
    ensures Find(xml + "\n" + closing + t, "\n" + closing) == Some(|xml|) <==> !Later(Split(xml), closing)
  {
    var whole := xml + "\n" + closing + t;
    MarkerAt(whole, closing);
    if xml == "" {
      assert whole[1..] == closing + t;
    } else {
      var rest := Split(xml[1..]);
      assert whole[1..] == xml[1..] + "\n" + closing + t;
      FindClosing(xml[1..], closing, t);
      if xml[0] == '\n' {
        assert whole[1..] == xml[1..] + "\n" + (closing + t);
        FirstPiecePrefix(xml[1..], closing + t, closing);
        LaterCons("", rest, closing);
      } else {
        assert rest == [rest[0]] + rest[1..];
        LaterSame([xml[0]] + rest[0], rest[0], rest[1..], closing);
      }
      hide Later, Split;
    }
  }

  /** A line that does not end like the opening marker cannot start a match. */
  lemma {:induction false} MatchSkipsLine(line: string, t: string)
    requires OneLine(line) && (line == "" || line[|line| - 1] != 'L')
    ensures Match(line + "\n" + t) == Match(t)
  {
    var s := line + "\n" + t;
    if OPENING + "\n" <= s {
      OpeningLine(line, t);
      assert false;
    }
    if line == "" {
      assert s[1..] == t;
    } else {
      assert s[1..] == line[1..] + "\n" + t;
      MatchSkipsLine(line[1..], t);
    }
  }

  lemma OpeningLine(line: string, t: string)
    requires OneLine(line) && OPENING + "\n" <= line + "\n" + t
    ensures line != "" && line[|line| - 1] == 'L'
  {
    var s := line + "\n" + t;
    assert s[15] == (OPENING + "\n")[15] == '\n';
    assert s[14] == (OPENING + "\n")[14] == 'L';
    assert s[|line|] == '\n';
    assert |line| >= 15 by {
      assert forall i | 0 <= i < 15 :: s[i] == (OPENING + "\n")[i] == OPENING[i] != '\n';
    }
    assert |line| <= 15;
  }

  lemma PrefixOneLine(p: string, s: string)
    requires OneLine(s)
    ensures p <= s ==> OneLine(p)
  {
  }

  lemma {:induction false} MatchOneLine(line: string)
    requires OneLine(line)
    ensures Match(line).None?
  {
    assert !OneLine(OPENING + "\n") by {
      assert (OPENING + "\n")[15] == '\n';
    }
    PrefixOneLine(OPENING + "\n", line);
    if line != "" {
      MatchOneLine(line[1..]);
    }
  }

  function FirstLine(json: Json, meta: Meta): string {
    "-- " + json.show(meta)
  }

  lemma FirstLineShape(json: Json, meta: Meta)
    requires Lawful(json)
    ensures var line := FirstLine(json, meta);
      OneLine(line) && META_PREFIX <= line && line[|line| - 1] == '}' && line[3..] == json.show(meta)
  {
    var line := FirstLine(json, meta);
    assert line[3] == json.show(meta)[0] == '{';
    assert line[..4] == META_PREFIX;
  }

  /** The search finds the XML of the block if there is one, and otherwise looks through the Lua code. */
  lemma MatchOfText(json: Json, s: Script)
    requires Lawful(json)
    ensures s.xml != "" ==> (XmlOf(Text(json, s)) == s.xml <==> !Later(Split(s.xml), CLOSING))
    ensures s.xml == "" ==> XmlOf(Text(json, s)) == XmlOf(Tail(s.lua))
  {
    var line := FirstLine(json, s.meta);
    var rest := Block(s.xml) + Tail(s.lua);
    FirstLineShape(json, s.meta);
    assert Text(json, s) == line + "\n" + rest;
    MatchSkipsLine(line, rest);
    if s.xml == "" {
      assert rest == Tail(s.lua);
    } else {
      MatchOfBlock(s.xml, Tail(s.lua));
    }
  }

  lemma MatchOfBlock(xml: string, tail: string)
    requires xml != ""
    ensures Match(Block(xml) + tail).Some?
    ensures Match(Block(xml) + tail) == Some(xml) <==> !Later(Split(xml), CLOSING)
  {
    var s := Block(xml) + tail;
    var rest := xml + "\n" + CLOSING + ("\n" + tail);
    assert s == (OPENING + "\n") + rest;
    assert s[|OPENING| + 1..] == rest;
    FindClosing(xml, CLOSING, "\n" + tail);
    var n := Find(rest, "\n" + CLOSING).value;
    assert rest[..|xml|] == xml;
    assert Match(s) == Some(rest[..n]);
    assert rest[..n] == xml ==> n == |xml|;
  }

  // The line scanner on a saved file

  /** What the scanner takes for code out of the block itself. */
  function Leak(xml: string): seq<string> {
    if xml == "" then [] else Kept(Split(xml) + [CLOSING], true)
  }

  lemma ClosingEnds(lines: seq<string>)
    ensures !InsideAfter(lines + [CLOSING], true)
  {
    KeptAppend(lines, [CLOSING], true);
    KeptOne(CLOSING, InsideAfter(lines, true));
    assert CLOSING[0] != OPENING[0];
  }

  lemma Regroup(a: string, b: string, c: string, d: string)
    ensures (a + "\n" + b + "\n" + c + "\n") + d == a + "\n" + (b + "\n" + (c + "\n" + d))
  {
  }

  lemma SplitThree(a: string, b: string, c: string, d: string)
    requires OneLine(a) && OneLine(c)
    ensures Split((a + "\n" + b + "\n" + c + "\n") + d) == [a] + ((Split(b) + [c]) + Split(d))
  {
    hide Split;
    Regroup(a, b, c, d);
    SplitAppend(a, b + "\n" + (c + "\n" + d));
    SplitAppend(b, c + "\n" + d);
    SplitAppend(c, d);
    SplitOneLine(a);
    SplitOneLine(c);
  }

  lemma SplitOfBlock(xml: string, tail: string)
    requires xml != ""
    ensures Split(Block(xml) + tail) == [OPENING] + ((Split(xml) + [CLOSING]) + Split(tail))
  {
    SplitThree(OPENING, xml, CLOSING, tail);
  }

  lemma KeptOfBlock(xml: string, tail: string)
    ensures Kept(Split(Block(xml) + tail), false) == Leak(xml) + Kept(Split(tail), false)
  {
    if xml == "" {
      assert Block(xml) + tail == tail;
    } else {
      var inner := Split(xml) + [CLOSING];
      SplitOfBlock(xml, tail);
      KeptOne(OPENING, false);
      assert OPENING <= OPENING && InsideNext(OPENING, false);
      KeptAppend([OPENING], inner + Split(tail), false);
      KeptAppend(inner, Split(tail), true);
      ClosingEnds(Split(xml));
      hide Split, Kept, InsideAfter;
    }
  }

  /** The code that comes back, before leading blank lines go: what leaks, then the lines outside blocks. */
  lemma LuaOfText(json: Json, s: Script)
    requires Lawful(json)
    ensures Parsed(json, Text(json, s)).lua == Join(DropBlank(Leak(s.xml) + Kept(Split(Tail(s.lua)), false)))
    ensures Parsed(json, Text(json, s)).meta == s.meta
  {
    var line := FirstLine(json, s.meta);
    var rest := Block(s.xml) + Tail(s.lua);
    FirstLineShape(json, s.meta);
    assert Text(json, s) == line + "\n" + rest;
    SplitAppend(line, rest);
    SplitOneLine(line);
    assert Body(Split(Text(json, s))) == Split(rest);
    KeptOfBlock(s.xml, Tail(s.lua));
  }

  // What comes back

  /** Lua code as a load gives it. */
  function Normal(lua: string): string {
    Join(DropBlank(Split(Tail(lua))))
  }

  predicate AllBlank(lines: seq<string>) {
    forall l | l in lines :: Blank(l)
  }

  predicate Opens(lines: seq<string>) {
    exists l :: l in lines && OPENING <= l
  }

  predicate AllOneLine(lines: seq<string>) {
    forall l | l in lines :: OneLine(l)
  }

  lemma {:induction false} DropBlankShape(lines: seq<string>)
    ensures DropBlank(lines) != [] ==> !Blank(DropBlank(lines)[0])
    ensures |DropBlank(lines)| <= |lines| && DropBlank(lines) == lines[|lines| - |DropBlank(lines)|..]
    ensures AllBlank(lines[..|lines| - |DropBlank(lines)|])
  {
    if lines != [] && Blank(lines[0]) {
      DropBlankShape(lines[1..]);
      var n := |lines| - |DropBlank(lines)|;
      assert lines[..n] == [lines[0]] + lines[1..][..n - 1];
      assert lines[n..] == lines[1..][n - 1..];
    }
  }

  lemma {:induction false} DropBlankAppend(a: seq<string>, b: seq<string>)
    ensures AllBlank(a) ==> DropBlank(a + b) == DropBlank(b)
    ensures !AllBlank(a) ==> DropBlank(a + b) == DropBlank(a) + b && DropBlank(a) != []
  {
    if a == [] {
      assert a + b == b;
    } else if Blank(a[0]) {
      assert (a + b)[1..] == a[1..] + b;
      assert a == [a[0]] + a[1..];
      DropBlankAppend(a[1..], b);
    }
  }

  lemma {:induction false} KeptNeverOpens(lines: seq<string>, inside: bool)
    ensures !Opens(Kept(lines, inside))
    ensures AllOneLine(lines) ==> AllOneLine(Kept(lines, inside))
  {
    if lines != [] {
      KeptNeverOpens(lines[1..], InsideNext(lines[0], inside));
    }
  }

  lemma {:induction false} KeptEverything(lines: seq<string>)
    requires !Opens(lines)
    ensures Kept(lines, false) == lines
  {
    if lines != [] {
      assert lines[0] in lines && forall l | l in lines[1..] :: l in lines;
      KeptEverything(lines[1..]);
    }
  }

  /** Lists of lines with the same join are the same, unless they are the empty list and one empty line. */
  lemma JoinInjective(a: seq<string>, b: seq<string>)
    requires AllOneLine(a) && AllOneLine(b) && Join(a) == Join(b) && a != [""] && b != [""]
    ensures a == b
  {
    if a != [] { SplitJoin(a); }
    if b != [] { SplitJoin(b); }
    assert Split("") == [""];
  }

  lemma OpensAppend(a: seq<string>, b: seq<string>)
    requires !Opens(a) && !Opens(b)
    ensures !Opens(a + b)
  {
  }

  lemma OpensSuffix(lines: seq<string>)
    requires !Opens(lines)
    ensures !Opens(DropBlank(lines))
  {
    DropBlankShape(lines);
    var n := |lines| - |DropBlank(lines)|;
    assert forall l | l in lines[n..] :: l in lines;
  }

  /** The scanner gives the code back exactly when only blank lines leak and no line of the code opens a block. */
  lemma LuaKept(xml: string, lines: seq<string>)
    requires AllOneLine(lines)
    ensures Join(DropBlank(Leak(xml) + Kept(lines, false))) == Join(DropBlank(lines))
      <==> AllBlank(Leak(xml)) && !Opens(lines)
  {
    var leak, kept := Leak(xml), Kept(lines, false);
    LeakShape(xml);
    KeptNeverOpens(lines, false);
    DropBlankAppend(leak, kept);
    if AllBlank(leak) && !Opens(lines) {
      KeptEverything(lines);
    }
    if Join(DropBlank(leak + kept)) == Join(DropBlank(lines)) {
      DropBlankShape(leak + kept);
      DropBlankShape(lines);
      JoinInjective(DropBlank(leak + kept), DropBlank(lines));
      OpensAppend(leak, kept);
      OpensSuffix(leak + kept);
      if Opens(lines) {
        OpeningSurvives(lines);
      }
      KeptEverything(lines);
      assert |DropBlank(lines)| <= |lines| == |kept|;
    }
  }

  lemma LeakShape(xml: string)
    ensures !Opens(Leak(xml)) && AllOneLine(Leak(xml))
  {
    if xml != "" {
      SplitPieces(xml);
      KeptNeverOpens(Split(xml) + [CLOSING], true);
    }
  }

  /** A line that opens a block is not blank, so it is not dropped. */
  lemma OpeningSurvives(lines: seq<string>)
    requires Opens(lines)
    ensures Opens(DropBlank(lines))
  {
    DropBlankShape(lines);
    var n := |lines| - |DropBlank(lines)|;
    var l :| l in lines && OPENING <= l;
    assert lines == lines[..n] + lines[n..];
    assert l[0] == '-' && l[0] in l;
    assert !IsSpace('-');
  }

  /** A file saved from the script loads as the script, its code normalised. */
  predicate Survives(json: Json, s: Script) {
    Parsed(json, Text(json, s)) == s.(lua := Normal(s.lua))
  }

  /**
    * When a script survives: no line of its XML but the first starts with the closing marker, the lines the scanner
    * takes out of its block are blank, no line of its code starts with the opening marker, and, when it has no XML,
    * the regular expression finds none in its code.
    */
  predicate Fits(s: Script) {
    && !Later(Split(s.xml), CLOSING) && AllBlank(Leak(s.xml))
    && !Opens(Split(Tail(s.lua)))
    && (s.xml == "" ==> XmlOf(Tail(s.lua)) == "")
  }

  /** Exactly the scripts that fit survive; the metadata always does. */
  lemma SurvivesIffFits(json: Json, s: Script)
    requires Lawful(json)
    ensures Survives(json, s) <==> Fits(s)
    ensures Parsed(json, Text(json, s)).meta == s.meta
  {
    MatchOfText(json, s);
    LuaOfText(json, s);
    SplitPieces(Tail(s.lua));
    LuaKept(s.xml, Split(Tail(s.lua)));
    if s.xml == "" {
      assert !Later([""], CLOSING);
    }
  }

  /** A script whose XML has no line starting with the closing marker leaks nothing out of its block. */
  lemma {:induction false} NothingLeaks(lines: seq<string>)
    requires forall l | l in lines :: !(CLOSING <= l)
    ensures Kept(lines, true) == [] && InsideAfter(lines, true)
  {
    if lines != [] {
      assert lines[0] in lines && forall l | l in lines[1..] :: l in lines;
      NothingLeaks(lines[1..]);
    }
  }

  /** Nowhere in the text. */
  predicate Absent(marker: string, s: string) {
    forall i | 0 <= i <= |s| :: !(marker <= s[i..])
  }

  /** A text without the opening marker fits as code. */
  lemma {:induction false} NoOpening(s: string)
    requires Absent(OPENING, s)
    ensures !Opens(Split(s)) && Match(s).None?
  {
    assert s[0..] == s;
    assert !(OPENING + "\n" <= s) by { assert (OPENING + "\n")[..|OPENING|] == OPENING; }
    FirstPiece(s);
    assert !(OPENING <= Split(s)[0]);
    if s != "" {
      assert forall i | 0 <= i <= |s[1..]| :: s[1..][i..] == s[i + 1..];
      NoOpening(s[1..]);
      var rest := Split(s[1..]);
      assert rest == [rest[0]] + rest[1..];
      assert Split(s)[1..] == if s[0] == '\n' then rest else rest[1..];
      assert forall l | l in Split(s)[1..] :: l in rest;
      OpensAppend([Split(s)[0]], Split(s)[1..]);
      assert Split(s) == [Split(s)[0]] + Split(s)[1..];
    }
  }

  lemma TailAbsent(lua: string)
    requires Absent(OPENING, lua)
    ensures Absent(OPENING, Tail(lua))
  {
    var t := Tail(lua);
    assert OPENING[0] == '-' && OPENING[14] == 'L';
    forall i | 0 <= i <= |t|
      ensures !(OPENING <= t[i..])
    {
      if lua != "" && 1 <= i <= |lua| + 1 {
        MarkerInFront(lua[i - 1..], t[i..]);
      }
    }
  }

  /** Adding a newline does not complete the marker. */
  lemma MarkerInFront(a: string, b: string)
    requires b == a || b == a + "\n"
    ensures OPENING <= b ==> OPENING <= a
  {
    assert OPENING[14] != '\n';
  }

  /**
    * Saving and loading keeps the metadata and the XML and normalises the code, whenever no line of the XML starts
    * with the closing marker and the opening marker is nowhere in the code.
    */
  lemma RoundTrip(json: Json, s: Script)
    requires Lawful(json)
    requires forall l | l in Split(s.xml) :: !(CLOSING <= l)
    requires Absent(OPENING, s.lua)
    ensures Parsed(json, Text(json, s)) == Script(s.meta, s.xml, Normal(s.lua))
  {
    if s.xml != "" {
      NothingLeaks(Split(s.xml));
      KeptAppend(Split(s.xml), [CLOSING], true);
      KeptOne(CLOSING, true);
    }
    assert forall k | 1 <= k < |Split(s.xml)| :: Split(s.xml)[k] in Split(s.xml);
    TailAbsent(s.lua);
    NoOpening(Tail(s.lua));
    SurvivesIffFits(json, s);
  }

  // The normal form

  lemma {:induction false} LastPiece(s: string)
    ensures var pieces := Split(s); pieces[|pieces| - 1] == "" <==> s == "" || s[|s| - 1] == '\n'
  {
    if s != "" {
      LastPiece(s[1..]);
    }
  }

  /** The lines of code with a final newline end with an empty one, so what dropping blank ones leaves does too. */
  lemma NormalShape(lua: string)
    ensures var lines := DropBlank(Split(Tail(lua)));
      lines == [] || (|lines| > 1 && !Blank(lines[0]) && lines[|lines| - 1] == "" && AllOneLine(lines))
  {
    var all := Split(Tail(lua));
    SplitPieces(Tail(lua));
    LastPiece(Tail(lua));
    DropBlankShape(all);
    var lines := DropBlank(all);
    if lines != [] {
      assert lines == all[|all| - |lines|..];
      assert lines[|lines| - 1] == "" && Blank("");
    }
  }

  /** Normalising drops blank text in front, and what is left is nothing or starts with a line that is not blank. */
  lemma NormalDropsOnlyBlanks(lua: string)
    requires lua != ""
    ensures exists front :: Ended(lua) == front + Normal(lua) && Blank(front)
    ensures Normal(lua) == "" || !Blank(Split(Normal(lua))[0])
  {
    var lines := Split(Ended(lua));
    SplitAppend("", Ended(lua));
    assert Tail(lua) == "" + "\n" + Ended(lua);
    assert Split(Tail(lua)) == [""] + lines && Blank("");
    assert ([""] + lines)[1..] == lines;
    JoinSplit(Ended(lua));
    var front := DropFront(lines);
    NormalShape(lua);
    if DropBlank(lines) != [] {
      SplitJoin(DropBlank(lines));
    }
  }

  lemma {:induction false} DropFront(lines: seq<string>) returns (front: string)
    ensures Join(lines) == front + Join(DropBlank(lines)) && Blank(front)
  {
    if lines == [] || !Blank(lines[0]) {
      front := "";
    } else if |lines| == 1 {
      front := lines[0];
      assert DropBlank(lines) == [];
    } else {
      front := DropFront(lines[1..]);
      front := lines[0] + "\n" + front;
      assert IsSpace('\n');
    }
  }

  lemma NormalTwice(lua: string)
    ensures Normal(Normal(lua)) == Normal(lua)
    ensures Normal(lua) != "" ==> Split(Tail(Normal(lua))) == [""] + DropBlank(Split(Tail(lua)))
    ensures Normal(lua) == "" <==> DropBlank(Split(Tail(lua))) == []
  {
    var lines := DropBlank(Split(Tail(lua)));
    NormalShape(lua);
    assert Split("") == [""] && Blank("");
    if lines == [] {
      assert [""][1..] == [];
      assert DropBlank([""]) == DropBlank([]) == [];
    } else {
      NormalLines(Normal(lua), lines);
    }
  }

  lemma NormalLines(normal: string, lines: seq<string>)
    requires |lines| > 1 && !Blank(lines[0]) && lines[|lines| - 1] == "" && AllOneLine(lines) && normal == Join(lines)
    ensures normal != "" && Split(Tail(normal)) == [""] + lines && Normal(normal) == normal
  {
    SplitJoin(lines);
    LastPiece(normal);
    assert normal == lines[0] + "\n" + Join(lines[1..]);
    SplitAppend("", normal);
    assert Tail(normal) == "" + "\n" + normal;
    assert ([""] + lines)[1..] == lines && Blank(([""] + lines)[0]);
    assert DropBlank([""] + lines) == DropBlank(lines) == lines;
  }

  /** The regular expression finds the same in the normal form: no match starts in a blank line. */
  lemma {:induction false} MatchDropBlank(lines: seq<string>)
    requires AllOneLine(lines)
    ensures Match(Join(lines)) == Match(Join(DropBlank(lines)))
  {
    if lines != [] && Blank(lines[0]) {
      if |lines| == 1 {
        MatchOneLine(lines[0]);
        MatchOneLine("");
        assert DropBlank(lines) == [];
      } else {
        assert !IsSpace('L');
        assert lines[0] != "" ==> lines[0][|lines[0]| - 1] in lines[0];
        MatchSkipsLine(lines[0], Join(lines[1..]));
        MatchDropBlank(lines[1..]);
      }
    }
  }

  lemma NormalMatch(lua: string)
    ensures Match(Tail(Normal(lua))) == Match(Tail(lua))
  {
    var lines := Split(Tail(lua));
    SplitPieces(Tail(lua));
    JoinSplit(Tail(lua));
    MatchDropBlank(lines);
    NormalTwice(lua);
    if Normal(lua) != "" {
      LastPiece(Normal(lua));
      NormalShape(lua);
      SplitJoin(DropBlank(lines));
      MatchSkipsLine("", Normal(lua));
      assert Tail(Normal(lua)) == "" + "\n" + Normal(lua);
    }
  }

  /** A second save and load changes nothing more. */
  lemma SecondLoadIsIdentity(json: Json, s: Script)
    requires Lawful(json) && Survives(json, s)
    ensures var t := Parsed(json, Text(json, s));
      Parsed(json, Text(json, t)) == t
  {
    var t := s.(lua := Normal(s.lua));
    SurvivesIffFits(json, s);
    NormalTwice(s.lua);
    NormalMatch(s.lua);
    OpensSuffix(Split(Tail(s.lua)));
    OpensAppend([""], DropBlank(Split(Tail(s.lua))));
    assert Fits(t) by {
      assert Split("") == [""];
    }
    SurvivesIffFits(json, t);
  }

  lemma ClosingMarker()
    ensures OneLine(CLOSING) && !(OPENING <= CLOSING) && !Blank(CLOSING)
  {
    assert CLOSING[0] == 'B' != OPENING[0];
    assert CLOSING[0] in CLOSING && !IsSpace('B');
  }

  /** A line inside a block that closes it leaves the next line outside. */
  lemma SecondKept(a: string, b: string)
    requires CLOSING <= a && !(OPENING <= a) && !(OPENING <= b)
    ensures Kept([a] + [b], true) == [b]
  {
    KeptAppend([a], [b], true);
    KeptOne(a, true);
    KeptOne(b, false);
  }

  lemma ClosingLeaks()
    ensures Leak(CLOSING) == [CLOSING] && !Later(Split(CLOSING), CLOSING)
  {
    ClosingMarker();
    hide Kept, Split;
    SplitOneLine(CLOSING);
    SecondKept(CLOSING, CLOSING);
  }

  /** Where the two scanners disagree: XML on one line that starts with the closing marker. */
  lemma ScannersDisagree(json: Json, meta: Meta)
    requires Lawful(json)
    ensures var loaded := Parsed(json, Text(json, Script(meta, CLOSING, "")));
      loaded.xml == CLOSING && loaded.lua == CLOSING + "\n"
  {
    var s := Script(meta, CLOSING, "");
    ClosingMarker();
    ClosingLeaks();
    MatchOfText(json, s);
    LuaOfText(json, s);
    KeptOne("", false);
    assert Split("") == [""];
    hide Leak, Parsed, Text, Later, Kept;
    DropBlankAppend([CLOSING], [""]);
    assert DropBlank([CLOSING]) == [CLOSING];
    JoinCons(CLOSING, [""]);
  }

  // What the search of the regular expression finds

  /** The first occurrence of the pattern. */
  lemma {:induction false} FindIsFirst(s: string, pattern: string)
    ensures match Find(s, pattern)
      case Some(i) => pattern <= s[i..] && forall j | 0 <= j < i :: !(pattern <= s[j..])
      case None => Absent(pattern, s)
  {
    assert s[0..] == s;
    if !(pattern <= s) && s != "" {
      FindIsFirst(s[1..], pattern);
      assert forall j | 0 <= j <= |s[1..]| :: s[1..][j..] == s[j + 1..];
      forall j | 0 <= j <= |s| ensures j == 0 || s[j..] == s[1..][j - 1..] {}
    }
  }
}
