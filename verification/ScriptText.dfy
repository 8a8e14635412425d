/** Which scripts survive saving and loading, said of their text alone. */
module ScriptText {
  import opened Lines
  import opened Outcomes
  import opened Scripts
  import opened ScriptTheorems

  // Lines

  /** After blank lines only, a line opens a block. */
  predicate OpensNext(lines: seq<string>) {
    exists m :: 0 <= m < |lines| && OPENING <= lines[m] && AllBlank(lines[..m])
  }

  /** Behind every line that closes a block, a block opens again after blank lines only. */
  predicate Reopens(lines: seq<string>) {
    forall k | 0 <= k < |lines| && CLOSING <= lines[k] :: OpensNext(lines[k + 1..])
  }

  lemma MarkersNotBlank(line: string)
    ensures OPENING <= line || CLOSING <= line ==> !Blank(line)
    ensures !(OPENING <= line && CLOSING <= line)
  {
    assert OPENING[0] == '-' && CLOSING[0] == 'B' && !IsSpace('-') && !IsSpace('B');
    if OPENING <= line { assert line[0] == '-' && line[0] in line; }
    if CLOSING <= line { assert line[0] == 'B' && line[0] in line; }
  }

  lemma AllBlankCons(l: string, rest: seq<string>)
    ensures AllBlank([l] + rest) <==> Blank(l) && AllBlank(rest)
  {
    assert l in [l] + rest && forall x | x in rest :: x in [l] + rest;
  }

  lemma OpensNextCons(l: string, rest: seq<string>)
    ensures OpensNext([l] + rest) <==> OPENING <= l || (Blank(l) && OpensNext(rest))
  {
    hide Blank, AllBlank;
    var lines := [l] + rest;
    if OPENING <= l {
      assert OPENING <= lines[0] && lines[..0] == [];
      assert AllBlank([]) by { NoneBlank(); }
    } else {
      if m :| 0 <= m < |lines| && OPENING <= lines[m] && AllBlank(lines[..m]) {
        assert lines[..m] == [l] + rest[..m - 1];
        AllBlankCons(l, rest[..m - 1]);
        assert OPENING <= rest[m - 1];
      }
      if m :| Blank(l) && 0 <= m < |rest| && OPENING <= rest[m] && AllBlank(rest[..m]) {
        assert lines[..m + 1] == [l] + rest[..m];
        AllBlankCons(l, rest[..m]);
        assert OPENING <= lines[m + 1];
      }
    }
  }

  lemma NoneBlank()
    ensures AllBlank([])
  {
  }

  lemma ReopensCons(l: string, rest: seq<string>)
    ensures Reopens([l] + rest) <==> (CLOSING <= l ==> OpensNext(rest)) && Reopens(rest)
  {
    hide OpensNext;
    var lines := [l] + rest;
    assert lines[0] == l && lines[1..] == rest;
    assert forall k | 0 <= k < |rest| :: rest[k] == lines[k + 1] && rest[k + 1..] == lines[k + 2..];
    if Reopens(lines) {
      forall k | 0 <= k < |rest| && CLOSING <= rest[k] ensures OpensNext(rest[k + 1..]) {
        assert CLOSING <= lines[k + 1];
      }
    }
    if Reopens(rest) && (CLOSING <= l ==> OpensNext(rest)) {
      forall k | 0 <= k < |lines| && CLOSING <= lines[k] ensures OpensNext(lines[k + 1..]) {
        if k > 0 { assert CLOSING <= rest[k - 1] && rest[k - 1 + 1..] == lines[k + 1..]; }
      }
    }
  }

  /** What the scanner keeps of lines before a closing one is blank, in a block and outside one. */
  lemma {:induction false} BlankKept(lines: seq<string>)
    ensures AllBlank(Kept(lines + [CLOSING], true)) <==> Reopens(lines)
    ensures AllBlank(Kept(lines + [CLOSING], false)) <==> OpensNext(lines) && Reopens(lines)
  {
    if lines == [] {
      ClosingKept();
      assert [] + [CLOSING] == [CLOSING];
    } else {
      var l, rest := lines[0], lines[1..];
      assert lines == [l] + rest && lines + [CLOSING] == [l] + (rest + [CLOSING]);
      BlankKept(rest);
      MarkersNotBlank(l);
      OpensNextCons(l, rest);
      ReopensCons(l, rest);
      AllBlankCons(l, Kept(rest + [CLOSING], false));
      KeptCons(l, rest + [CLOSING]);
      hide *;
    }
  }

  lemma KeptCons(l: string, rest: seq<string>)
    ensures Kept([l] + rest, true) == Kept(rest, OPENING <= l || !(CLOSING <= l))
    ensures Kept([l] + rest, false) == if OPENING <= l then Kept(rest, true) else [l] + Kept(rest, false)
  {
    assert ([l] + rest)[1..] == rest;
  }

  lemma ClosingKept()
    ensures AllBlank(Kept([CLOSING], true)) && !AllBlank(Kept([CLOSING], false))
  {
    ClosingMarker();
    KeptOne(CLOSING, true);
    KeptOne(CLOSING, false);
    assert CLOSING in [CLOSING];
  }

  // Places

  predicate OpensAt(s: string, i: nat)
    requires i <= |s|
  {
    OPENING + "\n" <= s[i..]
  }

  predicate ClosesAt(s: string, i: nat)
    requires i <= |s|
  {
    "\n" + CLOSING <= s[i..]
  }

  /** The first opening marker is at i, a closing one at j, and there is something in between. */
  predicate EnclosesAt(s: string, i: nat, j: nat) {
    && i + 16 < j <= |s| && OpensAt(s, i) && ClosesAt(s, j) && !ClosesAt(s, i + 16)
    && forall h: nat | h < i :: !OpensAt(s, h)
  }

  /** Behind its first opening marker the text has a closing one, though not at once. */
  ghost predicate Encloses(s: string) {
    exists i: nat, j: nat :: EnclosesAt(s, i, j)
  }

  lemma ShiftAt(s: string, i: nat)
    requires 0 < i <= |s|
    ensures OpensAt(s, i) == OpensAt(s[1..], i - 1) && ClosesAt(s, i) == ClosesAt(s[1..], i - 1)
  {
    assert s[1..][i - 1..] == s[i..];
  }

  lemma EnclosesShift(s: string, i: nat, j: nat)
    requires s != "" && !OpensAt(s, 0) && 0 < i && 0 < j
    ensures EnclosesAt(s, i, j) <==> EnclosesAt(s[1..], i - 1, j - 1)
  {
    if i + 16 < j <= |s| {
      ShiftAt(s, i);
      ShiftAt(s, i + 16);
      ShiftAt(s, j);
      forall h: nat | 0 < h < i ensures OpensAt(s, h) == OpensAt(s[1..], h - 1) {
        ShiftAt(s, h);
      }
      hide OpensAt, ClosesAt;
      if EnclosesAt(s[1..], i - 1, j - 1) {
        forall h: nat | h < i ensures !OpensAt(s, h) {
          if h > 0 { assert !OpensAt(s[1..], h - 1); }
        }
      }
      if EnclosesAt(s, i, j) {
        forall h: nat | h < i - 1 ensures !OpensAt(s[1..], h) {
          assert !OpensAt(s, h + 1);
        }
      }
    }
  }

  lemma EnclosesTail(s: string)
    requires s != "" && !OpensAt(s, 0)
    ensures Encloses(s) <==> Encloses(s[1..])
  {
    hide OpensAt, ClosesAt;
    if i: nat, j: nat :| EnclosesAt(s, i, j) {
      EnclosesShift(s, i, j);
    }
    if i: nat, j: nat :| EnclosesAt(s[1..], i, j) {
      EnclosesShift(s, i + 1, j + 1);
    }
  }

  /** A text that starts with an opening marker, by the first closing one behind it. */
  lemma EnclosesHere(s: string)
    requires OpensAt(s, 0)
    ensures |s| >= 16
    ensures match Find(s[16..], "\n" + CLOSING)
      case Some(n) => Encloses(s) <==> n > 0
      case None => !Encloses(s) && !Encloses(s[1..])
  {
    assert s[0..] == s && |OPENING + "\n"| == 16;
    var rest := s[16..];
    FindIsFirst(rest, "\n" + CLOSING);
    forall j: nat | 16 <= j <= |s| ensures ClosesAt(s, j) == ("\n" + CLOSING <= rest[j - 16..]) {
      assert rest[j - 16..] == s[j..];
    }
    match Find(rest, "\n" + CLOSING)
    case Some(n) =>
      if n > 0 { assert EnclosesAt(s, 0, 16 + n); }
      if i: nat, j: nat :| EnclosesAt(s, i, j) { assert i == 0; }
    case None =>
      assert forall j: nat | 16 <= j <= |s| :: !ClosesAt(s, j);
      forall i: nat, j: nat ensures !EnclosesAt(s[1..], i, j) {
        if 16 < j < |s| { ShiftAt(s, j + 1); }
      }
  }

  /** The regular expression finds a text exactly where its markers enclose one. */
  lemma {:induction false} MatchEncloses(s: string)
    ensures XmlOf(s) != "" <==> Encloses(s)
  {
    assert s[0..] == s;
    if OpensAt(s, 0) {
      EnclosesHere(s);
      MatchEncloses(s[1..]);
    } else if s != "" {
      EnclosesTail(s);
      MatchEncloses(s[1..]);
    }
  }

  // Scripts

  /**
    * No line of the XML but the first starts with the closing marker; if the first does, a line starting with the
    * opening marker follows it after blank lines only; no line of the code starts with the opening marker; and code
    * without XML encloses no text between the markers.
    */
  ghost predicate TextFits(s: Script) {
    && !Later(Split(s.xml), CLOSING) && Reopens(Split(s.xml))
    && !Opens(Split(Tail(s.lua)))
    && (s.xml == "" ==> !Encloses(Tail(s.lua)))
  }

  /** Exactly these scripts survive saving and loading. */
  lemma SurvivesIffTextFits(json: Json, s: Script)
    requires Lawful(json)
    ensures Survives(json, s) <==> TextFits(s)
  {
    SurvivesIffFits(json, s);
    BlankKept(Split(s.xml));
    MatchEncloses(Tail(s.lua));
    if s.xml == "" {
      EmptyReopens();
    }
  }

  lemma EmptyReopens()
    ensures Split("") == [""] && Reopens(Split("")) && AllBlank(Leak(""))
  {
    assert Split("") == [""];
  }

  lemma FirstClosing(s: string, j: nat)
    requires 16 <= j <= |s| && ClosesAt(s, j) && forall h: nat | 16 <= h < j :: !ClosesAt(s, h)
    ensures Find(s[16..], "\n" + CLOSING) == Some(j - 16)
  {
    var rest := s[16..];
    FindIsFirst(rest, "\n" + CLOSING);
    forall h: nat | h <= |rest| ensures ClosesAt(s, h + 16) == ("\n" + CLOSING <= rest[h..]) {
      assert rest[h..] == s[h + 16..];
    }
    hide ClosesAt;
    assert "\n" + CLOSING <= rest[j - 16..];
    assert Find(rest, "\n" + CLOSING).Some? by {
      hide Find;
      if Absent("\n" + CLOSING, rest) {
        assert false;
      }
    }
    var n := Find(rest, "\n" + CLOSING).value;
    assert ClosesAt(s, n + 16);
  }

  lemma MatchHere(s: string, j: nat)
    requires 16 <= j <= |s| && OpensAt(s, 0) && Find(s[16..], "\n" + CLOSING) == Some(j - 16)
    ensures Match(s) == Some(s[16..j])
  {
    assert s[0..] == s && |OPENING + "\n"| == 16;
    assert s[16..][..j - 16] == s[16..j];
    hide Find;
  }

  lemma MatchBehind(s: string)
    requires s != "" && !OpensAt(s, 0)
    ensures Match(s) == Match(s[1..])
  {
    assert s[0..] == s;
    hide Find;
  }

  /** The text it takes is the one between the first opening marker and the first closing one behind that. */
  lemma {:induction false} MatchTakesFirst(s: string, i: nat, j: nat)
    requires i + 16 <= j <= |s| && OpensAt(s, i) && ClosesAt(s, j)
    requires forall h: nat | h < i :: !OpensAt(s, h)
    requires forall h: nat | i + 16 <= h < j :: !ClosesAt(s, h)
    ensures Match(s) == Some(s[i + 16..j])
  {
    hide Match, OpensAt, ClosesAt;
    if i == 0 {
      FirstClosing(s, j);
      MatchHere(s, j);
    } else {
      MatchBehind(s);
      ShiftAt(s, i);
      ShiftAt(s, j);
      forall h: nat | h < i - 1 ensures !OpensAt(s[1..], h) { ShiftAt(s, h + 1); }
      forall h: nat | i + 15 <= h < j - 1 ensures !ClosesAt(s[1..], h) { ShiftAt(s, h + 1); }
      MatchTakesFirst(s[1..], i - 1, j - 1);
      assert s[1..][i + 15..j - 1] == s[i + 16..j];
    }
  }

  // Files in general

  /** The texts of the markers, and a file with everything in it. */
  lemma MarkerTexts(json: Json, meta: Meta)
    ensures OPENING == "--[[BLOCKLY_XML" && CLOSING == "BLOCKLY_XML]]--" && META_PREFIX == "-- {"
    ensures Text(json, Script(meta, "<x/>", "f()"))
      == "-- " + json.show(meta) + "\n" + "--[[BLOCKLY_XML\n<x/>\nBLOCKLY_XML]]--\n" + "\nf()\n"
  {
    assert Block("<x/>") == "--[[BLOCKLY_XML\n<x/>\nBLOCKLY_XML]]--\n";
  }

  /**
    * A file whose first line is not metadata has none, and its code is all its lines outside blocks, the first one too.
    */
  lemma WithoutMetadata(json: Json, content: string)
    requires !("-- {" <= content)
    ensures Parsed(json, content).meta == json.zero
    ensures Parsed(json, content).lua == Join(DropBlank(Kept(Split(content), false)))
    ensures !Opens(Split(content)) ==> Parsed(json, content).lua == Join(DropBlank(Split(content)))
  {
    FirstPiece(content);
    if !Opens(Split(content)) { KeptEverything(Split(content)); }
  }

  /** A first line of metadata is parsed from behind its first three characters, and is no part of the code. */
  lemma WithMetadata(json: Json, line: string, rest: string)
    requires OneLine(line) && "-- {" <= line
    ensures Parsed(json, line + "\n" + rest).meta == json.parse(line[3..])
    ensures Parsed(json, line + "\n" + rest).lua == Join(DropBlank(Kept(Split(rest), false)))
  {
    SplitAppend(line, rest);
    SplitOneLine(line);
  }
}
