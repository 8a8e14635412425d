/** Automation scripts as files: a line of metadata, a block of Blockly XML inside a comment, and Lua code. */
module Scripts {
  import opened Lines
  import opened Outcomes

  const OPENING := "--[[BLOCKLY_XML"
  const CLOSING := "BLOCKLY_XML]]--"
  const META_PREFIX := "-- {"

  datatype Meta = Meta(name: string, description: string, enabled: bool)

  /** encoding/json for the metadata: the printer, what parsing a text leaves behind, and the zero value. */
  datatype Json = Json(show: Meta -> string, parse: string -> Meta, zero: Meta)

  /** JSON printed without indentation: an object on one line that parses back. */
  ghost predicate Lawful(json: Json) {
    forall m: Meta ::
      && OneLine(json.show(m)) && |json.show(m)| >= 2
      && json.show(m)[0] == '{' && json.show(m)[|json.show(m)| - 1] == '}'
      && json.parse(json.show(m)) == m
  }

  datatype Script = Script(meta: Meta, xml: string, lua: string)

  // Saving

  function Block(xml: string): string {
    if xml == "" then "" else OPENING + "\n" + xml + "\n" + CLOSING + "\n"
  }

  /** The code with its final newline. */
  function Ended(lua: string): string {
    if lua != "" && lua[|lua| - 1] == '\n' then lua else lua + "\n"
  }

  function Tail(lua: string): string {
    if lua == "" then "" else "\n" + Ended(lua)
  }

  function Text(json: Json, s: Script): string {
    "-- " + json.show(s.meta) + "\n" + Block(s.xml) + Tail(s.lua)
  }

  method SerializeScript(json: Json, s: Script) returns (b: string)
    ensures b == Text(json, s)
  {
    b := "-- " + json.show(s.meta);
    b := b + "\n";
    ghost var head := b;
    if s.xml != "" {
      b := b + "--[[BLOCKLY_XML\n";
      b := b + s.xml;
      b := b + "\nBLOCKLY_XML]]--\n";
    }
    assert b == head + Block(s.xml);
    ghost var body := b;
    if s.lua != "" {
      b := b + "\n";
      b := b + s.lua;
      if s.lua[|s.lua| - 1] != '\n' {
        b := b + "\n";
      }
    }
    assert b == body + Tail(s.lua);
  }

  // The regular expression

  /** Where a pattern first occurs. */
  function Find(s: string, pattern: string): (r: Option<nat>)
    ensures r.Some? ==> r.value <= |s|
  {
    if pattern <= s then Some(0)
    else if s == "" then None
    else match Find(s[1..], pattern)
      case None => None
      case Some(i) => Some(i + 1)
  }

  /** The leftmost match of the opening marker and a newline, then as little as possible, a newline, the closing one. */
  function Match(s: string): Option<string> {
    if OPENING + "\n" <= s && Find(s[|OPENING| + 1..], "\n" + CLOSING).Some? then
      var rest := s[|OPENING| + 1..];
      Some(rest[..Find(rest, "\n" + CLOSING).value])
    else if s == "" then None
    else Match(s[1..])
  }

  function XmlOf(content: string): string {
    match Match(content) case Some(xml) => xml case None => ""
  }

  // The line scanner

  /** The lines outside blocks; inside says whether the first of them is in one. */
  function Kept(lines: seq<string>, inside: bool): seq<string> {
    if lines == [] then []
    else if OPENING <= lines[0] then Kept(lines[1..], true)
    else if inside then Kept(lines[1..], !(CLOSING <= lines[0]))
    else [lines[0]] + Kept(lines[1..], false)
  }

  /** unicode.IsSpace. */
  predicate IsSpace(c: char) {
    || '\t' <= c <= '\r' || c == ' ' || c == '\U{0085}' || c == '\U{00A0}' || c == '\U{1680}'
    || '\U{2000}' <= c <= '\U{200A}' || c == '\U{2028}' || c == '\U{2029}' || c == '\U{202F}'
    || c == '\U{205F}' || c == '\U{3000}'
  }

  /** The 25 characters with Unicode's property White_Space. */
  lemma WhiteSpace(c: char)
    ensures IsSpace(c) <==> c as int in {
      0x9, 0xA, 0xB, 0xC, 0xD, 0x20, 0x85, 0xA0, 0x1680, 0x2000, 0x2001, 0x2002, 0x2003, 0x2004, 0x2005, 0x2006,
      0x2007, 0x2008, 0x2009, 0x200A, 0x2028, 0x2029, 0x202F, 0x205F, 0x3000}
  {
  }

  predicate Blank(line: string) {
    forall c | c in line :: IsSpace(c)
  }

  /** A line is blank when every character of it is white space. */
  lemma BlankCharByChar(c: char, line: string)
    ensures Blank("") && (Blank([c] + line) <==> IsSpace(c) && Blank(line))
  {
    hide IsSpace;
    assert forall d :: d in [c] + line <==> d == c || d in line;
  }

  function DropBlank(lines: seq<string>): seq<string> {
    if lines != [] && Blank(lines[0]) then DropBlank(lines[1..]) else lines
  }

  predicate HasMeta(lines: seq<string>) {
    lines != [] && META_PREFIX <= lines[0]
  }

  function Body(lines: seq<string>): seq<string> {
    if HasMeta(lines) then lines[1..] else lines
  }

  /** What parseFile makes of a file's content. */
  function Parsed(json: Json, content: string): Script {
    var lines := Split(content);
    Script(
      if HasMeta(lines) then json.parse(lines[0][3..]) else json.zero,
      XmlOf(content),
      Join(DropBlank(Kept(Body(lines), false))))
  }

  /** Whether the scanner is in a block after a line. */
  predicate InsideNext(line: string, inside: bool) {
    OPENING <= line || (inside && !(CLOSING <= line))
  }

  predicate InsideAfter(lines: seq<string>, inside: bool) {
    if lines == [] then inside else InsideAfter(lines[1..], InsideNext(lines[0], inside))
  }

  lemma {:induction false} KeptAppend(a: seq<string>, b: seq<string>, inside: bool)
    ensures Kept(a + b, inside) == Kept(a, inside) + Kept(b, InsideAfter(a, inside))
    ensures InsideAfter(a + b, inside) == InsideAfter(b, InsideAfter(a, inside))
  {
    if a == [] {
      assert a + b == b;
    } else {
      assert (a + b)[1..] == a[1..] + b;
      KeptAppend(a[1..], b, InsideNext(a[0], inside));
    }
  }

  lemma KeptOne(line: string, inside: bool)
    ensures Kept([line], inside) == if OPENING <= line || inside then [] else [line]
    ensures InsideAfter([line], inside) == InsideNext(line, inside)
  {
  }

  /** parseFile on the content it has read; the search is the regular expression's, the loops are its own. */
  method ParseFile(json: Json, content: string) returns (s: Script)
    ensures s == Parsed(json, content)
  {
    var lines := Split(content);
    var meta := json.zero;
    var start := 0;
    if "-- {" <= lines[0] {
      meta := json.parse(lines[0][3..]);
      start := 1;
    }
    var found := Match(content);
    var luaLines: seq<string> := [];
    var inBlockly := false;
    ghost var body := Body(lines);
    hide Kept, InsideAfter;
    assert Kept([], false) == [] && !InsideAfter([], false) by { KeptNone(); }
    for i := start to |lines|
      invariant luaLines == Kept(body[..i - start], false)
      invariant inBlockly == InsideAfter(body[..i - start], false)
    {
      var line := lines[i];
      assert body[..i + 1 - start] == body[..i - start] + [line];
      KeptAppend(body[..i - start], [line], false);
      KeptOne(line, inBlockly);
      if "--[[BLOCKLY_XML" <= line {
        inBlockly := true;
      } else if inBlockly {
        if "BLOCKLY_XML]]--" <= line {
          inBlockly := false;
        }
      } else {
        luaLines := luaLines + [line];
      }
    }
    assert body[..|lines| - start] == body;
    while luaLines != [] && Blank(luaLines[0])
      invariant DropBlank(luaLines) == DropBlank(Kept(body, false))
    {
      luaLines := luaLines[1..];
    }
    s := Script(meta, if found.Some? then found.value else "", Join(luaLines));
  }

  lemma KeptNone()
    ensures Kept([], false) == [] && !InsideAfter([], false)
  {
  }
}
