/** The machine configuration: the writer of the manager, the line-based INI parser and the handler
    that loads the settings again.

    Text is a sequence of characters without NUL.  The parser edits lines in place by writing NULs;
    here that is taking parts of a sequence. */
module IniConfig {

  const MAX_LINE := 200
  const MAX_SECTION := 50
  const MAX_NAME := 50

  /** A setting, and a call of the handler. */
  datatype Setting = Setting(section: string, name: string, value: string)

  // ---------------------------------------------------------------------------
  // Scanning
  // ---------------------------------------------------------------------------

  predicate IsSpace(c: char) {
    c == ' ' || 9 as char <= c <= 13 as char
  }

  /** Without the white space at the front. */
  function LSkip(s: string): (r: string)
    ensures |r| <= |s|
  {
    if s != [] && IsSpace(s[0]) then LSkip(s[1..]) else s
  }

  /** Without the white space at the end. */
  function RStrip(s: string): (r: string)
    ensures r <= s
  {
    if s != [] && IsSpace(s[|s| - 1]) then RStrip(s[..|s| - 1]) else s
  }

  /** How far to the first of `chars` or to a comment: a semicolon after white space. */
  function FindEnd(s: string, chars: string, wasSpace: bool): (n: nat)
    ensures n <= |s|
  {
    if s == [] || s[0] in chars || (wasSpace && s[0] == ';') then 0
    else 1 + FindEnd(s[1..], chars, IsSpace(s[0]))
  }

  /** How much of `text` one line takes: up to a newline, at most `room` characters. */
  function LineLength(text: string, room: nat): (n: nat)
    ensures n <= |text| && n <= room && (text != [] && room > 0 ==> n > 0)
  {
    if text == [] || room == 0 then 0
    else if text[0] == '\n' then 1
    else 1 + LineLength(text[1..], room - 1)
  }

  function Truncated(s: string, size: nat): string
    requires size > 0
  {
    if |s| < size then s else s[..size - 1]
  }

  // ---------------------------------------------------------------------------
  // The parser
  // ---------------------------------------------------------------------------

  /** `error` is the number of the first bad line, or 0. */
  datatype Parser = Parser(section: string, prevName: string, calls: seq<Setting>, error: nat, lineno: nat)

  const START := Parser("", "", [], 0, 0)

  predicate HasBom(line: string) {
    |line| >= 3 && line[0] == 0xEF as char && line[1] == 0xBB as char && line[2] == 0xBF as char
  }

  function Failed(p: Parser): Parser {
    if p.error == 0 then p.(error := p.lineno) else p
  }

  function SectionLine(p: Parser, start: string): Parser
    requires start != []
  {
    var end := 1 + FindEnd(start[1..], "]", false);
    if end < |start| && start[end] == ']'
    then p.(section := Truncated(start[1..end], MAX_SECTION), prevName := "")
    else Failed(p)
  }

  function PairLine(p: Parser, start: string): Parser {
    var end := FindEnd(start, "=:", false);
    if end < |start| && (start[end] == '=' || start[end] == ':') then
      var name := RStrip(start[..end]);
      var value := LSkip(start[end + 1..]);
      var kept := RStrip(value[..FindEnd(value, "", false)]);
      p.(prevName := Truncated(name, MAX_NAME), calls := p.calls + [Setting(p.section, name, kept)])
    else Failed(p)
  }

  function ParseLine(p0: Parser, line: string): Parser {
    var p := p0.(lineno := p0.lineno + 1);
    var bom := p.lineno == 1 && HasBom(line);
    var stripped := RStrip(if bom then line[3..] else line);
    var start := LSkip(stripped);
    if start == [] then p
    else if start[0] == ';' || start[0] == '#' then p
    else if p.prevName != [] && (bom || start != stripped)
    then p.(calls := p.calls + [Setting(p.section, p.prevName, start)])
    else if start[0] == '[' then SectionLine(p, start)
    else PairLine(p, start)
  }

  function ParseFrom(p: Parser, text: string): Parser
    decreases |text|
  {
    if text == [] then p
    else
      var n := LineLength(text, MAX_LINE - 1);
      ParseFrom(ParseLine(p, text[..n]), text[n..])
  }

  function Parse(text: string): Parser {
    ParseFrom(START, text)
  }

  /** White space is a blank, tab, newline, vertical tab, form feed or carriage return. */
  lemma SpaceIff(c: char)
    ensures IsSpace(c) <==> c in [' ', 9 as char, 10 as char, 11 as char, 12 as char, 13 as char]
  {
  }

  /** A name that is remembered, or a section, is cut to fit its buffer with the final NUL. */
  lemma TruncatedIs(s: string, size: nat)
    requires size > 0
    ensures Truncated(s, size) <= s && |Truncated(s, size)| == if |s| + 1 <= size then |s| else size - 1
  {
  }

  /** A byte order mark is skipped at the front of the first line. */
  lemma BomIs(p: Parser, line: string)
    ensures
      var bom := [0xEF as char, 0xBB as char, 0xBF as char];
      && (p.lineno == 0 && p.prevName == [] && !HasBom(line) ==> ParseLine(p, bom + line) == ParseLine(p, line))
      && (HasBom(line) <==> bom <= line)
  {
    var bom := [0xEF as char, 0xBB as char, 0xBF as char];
    assert (bom + line)[3..] == line;
  }

  // ---------------------------------------------------------------------------
  // The writer
  // ---------------------------------------------------------------------------

  function Header(section: string): string {
    "\n[" + section + "]\n"
  }

  function Entry(s: Setting): string {
    s.name + " = " + s.value + "\n"
  }

  /** The text for the settings after one in `section`. */
  function WriteFrom(section: string, settings: seq<Setting>): string
    decreases |settings|
  {
    if settings == [] then ""
    else
      var s := settings[0];
      (if s.section != section then Header(s.section) else "") + Entry(s) + WriteFrom(s.section, settings[1..])
  }

  // ---------------------------------------------------------------------------
  // What can be written and read back
  // ---------------------------------------------------------------------------

  /** No semicolon follows white space. */
  predicate NoComment(s: string) {
    forall i | 0 < i < |s| :: !(IsSpace(s[i - 1]) && s[i] == ';')
  }

  predicate NoneOf(s: string, chars: string) {
    forall c <- s :: c !in chars
  }

  predicate Trimmed(s: string) {
    s == [] || (!IsSpace(s[0]) && !IsSpace(s[|s| - 1]))
  }

  predicate SectionOk(s: string) {
    NoneOf(s, "]\n") && NoComment(s) && |s| < MAX_SECTION
  }

  predicate NameOk(s: string) {
    && s != [] && Trimmed(s) && NoneOf(s, "=:\n") && NoComment(s)
    && s[0] != ';' && s[0] != '#' && s[0] != '[' && s[0] != 0xEF as char
  }

  predicate ValueOk(s: string) {
    Trimmed(s) && NoneOf(s, "\n") && NoComment(s)
  }

  /** The entry fits the line buffer; of an empty value, the blank before it need not. */
  predicate Fits(s: Setting) {
    |s.name| + (if s.value == "" then 2 else 3) + |s.value| < MAX_LINE
  }

  predicate SettingOk(s: Setting) {
    SectionOk(s.section) && NameOk(s.name) && ValueOk(s.value) && Fits(s)
  }

  lemma NoCommentTail(s: string)
    requires s != []
    ensures NoComment(s) <==> NoComment(s[1..]) && !(IsSpace(s[0]) && |s| > 1 && s[1] == ';')
  {
    var t := s[1..];
    assert forall i | 0 <= i < |t| :: t[i] == s[i + 1];
    if NoComment(t) && !(IsSpace(s[0]) && |s| > 1 && s[1] == ';') {
      forall i | 0 < i < |s|
        ensures !(IsSpace(s[i - 1]) && s[i] == ';')
      {
        if i > 1 {
          assert t[i - 1] == s[i];
        }
      }
    }
  }

  lemma {:induction false} FindEndAll(s: string, chars: string, wasSpace: bool)
    ensures FindEnd(s, chars, wasSpace) == |s| <==>
            NoneOf(s, chars) && NoComment(s) && !(wasSpace && s != [] && s[0] == ';')
  {
    if s != [] {
      FindEndAll(s[1..], chars, IsSpace(s[0]));
      assert s == [s[0]] + s[1..];
      NoCommentTail(s);
    }
  }

  /** A scan that finds nothing in `s` goes on in what follows. */
  lemma {:induction false} FindEndPast(s: string, rest: string, chars: string, wasSpace: bool)
    requires FindEnd(s, chars, wasSpace) == |s| && rest != [] && rest[0] in chars
    ensures FindEnd(s + rest, chars, wasSpace) == |s|
  {
    if s == [] {
      assert s + rest == rest;
    } else {
      assert (s + rest)[1..] == s[1..] + rest;
      FindEndPast(s[1..], rest, chars, IsSpace(s[0]));
    }
  }

  lemma {:induction false} RStripSpaces(s: string, spaces: string)
    requires forall c <- spaces :: IsSpace(c)
    ensures RStrip(s + spaces) == RStrip(s)
  {
    if spaces == [] {
      assert s + spaces == s;
    } else {
      var init := spaces[..|spaces| - 1];
      assert (s + spaces)[..|s + spaces| - 1] == s + init;
      assert spaces[|spaces| - 1] in spaces;
      RStripSpaces(s, init);
    }
  }

  lemma {:induction false} LineOf(content: string, rest: string, room: nat)
    requires NoneOf(content, "\n") && |content| < room
    ensures LineLength(content + "\n" + rest, room) == |content| + 1
  {
    var text := content + "\n" + rest;
    if content == [] {
      assert text[0] == '\n';
    } else {
      assert content[0] in content;
      assert text[1..] == content[1..] + "\n" + rest;
      LineOf(content[1..], rest, room - 1);
    }
  }

  /** A line that just fills the buffer is read without its newline. */
  lemma {:induction false} FullLineOf(content: string, rest: string, room: nat)
    requires NoneOf(content, "\n") && |content| >= room
    ensures LineLength(content + rest, room) == room
  {
    if room > 0 {
      assert content[0] in content;
      assert (content + rest)[1..] == content[1..] + rest;
      FullLineOf(content[1..], rest, room - 1);
    }
  }

  lemma {:induction false} RStripKeeps(a: string, v: string)
    ensures RStrip(a + v) == if RStrip(v) == [] then RStrip(a) else a + RStrip(v)
  {
    if v == [] {
      assert a + v == a;
    } else if IsSpace(v[|v| - 1]) {
      assert (a + v)[..|a + v| - 1] == a + v[..|v| - 1];
      RStripKeeps(a, v[..|v| - 1]);
    }
  }

  // ---------------------------------------------------------------------------
  // Reading one entry
  // ---------------------------------------------------------------------------

  /** What becomes of a value that is written and read. */
  function Delivered(v: string): string {
    var x := LSkip(RStrip(v));
    RStrip(x[..FindEnd(x, "", false)])
  }

  /** Exactly the values without outer white space and without a comment survive. */
  lemma DeliveredIff(v: string)
    ensures |Delivered(v)| <= |v|
    ensures Delivered(v) == v <==> Trimmed(v) && NoComment(v)
  {
    var r := RStrip(v);
    var x := LSkip(r);
    FindEndAll(v, "", false);
    assert x[..|x|] == x;
    if Delivered(v) == v {
      assert |x| == |v| && r == v && x == r;
    }
  }

  /** The rest of an entry after name and blank, without the white space at the end. */
  function Tail(v: string): string {
    if RStrip(v) == [] then "=" else "= " + RStrip(v)
  }

  lemma EntryStripped(name: string, v: string, ending: string)
    requires ending == "" || ending == "\n"
    ensures RStrip(name + " = " + v + ending) == name + " " + Tail(v)
  {
    var a := name + " = ";
    RStripSpaces(a + v, ending);
    RStripKeeps(a, v);
    if RStrip(v) == [] {
      assert a == name + " =" + " ";
      RStripSpaces(name + " =", " ");
    } else {
      assert a + RStrip(v) == name + " " + ("= " + RStrip(v));
    }
  }

  lemma NameScans(name: string, tail: string)
    requires NameOk(name) && tail != [] && tail[0] == '='
    ensures FindEnd(name + " " + tail, "=:", false) == |name| + 1
  {
    var n := name + " ";
    assert NoneOf(n, "=:");
    assert NoComment(n);
    FindEndAll(n, "=:", false);
    FindEndPast(n, tail, "=:", false);
  }

  /** Skipping from behind the separator arrives at the value. */
  lemma TailValue(v: string)
    ensures LSkip(Tail(v)[1..]) == LSkip(RStrip(v))
  {
    if RStrip(v) != [] {
      var value := Tail(v)[1..];
      assert value == " " + RStrip(v);
      assert value[1..] == RStrip(v);
    }
  }

  lemma NameStripped(name: string)
    requires NameOk(name)
    ensures RStrip(name + " ") == name
  {
    RStripSpaces(name, " ");
  }

  lemma EntryPair(p: Parser, name: string, v: string)
    requires NameOk(name)
    ensures PairLine(p, name + " " + Tail(v)) ==
            p.(prevName := Truncated(name, MAX_NAME), calls := p.calls + [Setting(p.section, name, Delivered(v))])
  {
    var start, tail := name + " " + Tail(v), Tail(v);
    assert tail[0] == '=';
    hide NameOk, Tail, RStrip, LSkip, FindEnd, Truncated;
    NameScans(name, tail);
    NameStripped(name);
    TailValue(v);
    var end := |name| + 1;
    assert start[end] == '=' && start[..end] == name + " " && start[end + 1..] == tail[1..];
  }

  /** A line that is neither indented nor a comment. */
  lemma PlainLine(p: Parser, line: string, start: string)
    requires RStrip(line) == start && start != [] && !IsSpace(start[0])
    requires start[0] != ';' && start[0] != '#' && start[0] != 0xEF as char
    ensures var p1 := p.(lineno := p.lineno + 1);
            ParseLine(p, line) == if start[0] == '[' then SectionLine(p1, start) else PairLine(p1, start)
  {
    assert LSkip(start) == start && line[0] == start[0];
    hide SectionLine, PairLine;
  }

  lemma EntryLine(p: Parser, name: string, v: string, ending: string)
    requires NameOk(name) && (ending == "" || ending == "\n")
    ensures ParseLine(p, name + " = " + v + ending) ==
            p.(lineno := p.lineno + 1, prevName := Truncated(name, MAX_NAME),
               calls := p.calls + [Setting(p.section, name, Delivered(v))])
  {
    var line, start := name + " = " + v + ending, name + " " + Tail(v);
    EntryStripped(name, v, ending);
    assert start[0] == name[0];
    hide PairLine, RStrip, Tail, ParseLine, NoneOf, NoComment;
    PlainLine(p, line, start);
    EntryPair(p.(lineno := p.lineno + 1), name, v);
  }

  lemma BlankLine(p: Parser)
    ensures ParseLine(p, "\n") == p.(lineno := p.lineno + 1)
  {
    hide SectionLine, PairLine, FindEnd;
    RStripSpaces("", "\n");
    assert "" + "\n" == "\n" && RStrip("") == "";
    hide RStrip;
    assert LSkip("") == "" && !HasBom("\n");
  }

  lemma HeaderSection(p: Parser, section: string)
    requires SectionOk(section)
    ensures SectionLine(p, "[" + section + "]") == p.(section := section, prevName := "")
  {
    var start := "[" + section + "]";
    assert NoneOf(section, "]");
    FindEndAll(section, "]", false);
    hide NoComment, NoneOf;
    FindEndPast(section, "]", "]", false);
    assert start[1..] == section + "]";
    assert start[1..1 + |section|] == section;
  }

  lemma HeaderLine(p: Parser, section: string)
    requires SectionOk(section)
    ensures ParseLine(p, "[" + section + "]\n") == p.(lineno := p.lineno + 1, section := section, prevName := "")
  {
    hide SectionOk, SectionLine, ParseLine;
    var start := "[" + section + "]";
    assert "[" + section + "]\n" == start + "\n";
    RStripSpaces(start, "\n");
    assert RStrip(start) == start;
    PlainLine(p, start + "\n", start);
    HeaderSection(p.(lineno := p.lineno + 1), section);
  }

  // ---------------------------------------------------------------------------
  // Reading what was written
  // ---------------------------------------------------------------------------

  /** One step of the parser on a text that begins with a whole line. */
  lemma ParseContent(p: Parser, content: string, rest: string)
    requires NoneOf(content, "\n") && |content| < MAX_LINE
    ensures ParseFrom(p, content + "\n" + rest) ==
            if |content| < MAX_LINE - 1 then ParseFrom(ParseLine(p, content + "\n"), rest)
            else ParseFrom(ParseLine(ParseLine(p, content), "\n"), rest)
  {
    var text := content + "\n" + rest;
    hide ParseLine;
    if |content| < MAX_LINE - 1 {
      LineOf(content, rest, MAX_LINE - 1);
      assert text[..|content| + 1] == content + "\n" && text[|content| + 1..] == rest;
    } else {
      FullLineOf(content, "\n" + rest, MAX_LINE - 1);
      assert text == content + ("\n" + rest);
      assert text[..MAX_LINE - 1] == content && text[MAX_LINE - 1..] == "\n" + rest;
      LineOf("", rest, MAX_LINE - 1);
      assert "" + "\n" + rest == "\n" + rest;
      assert ("\n" + rest)[..1] == "\n" && ("\n" + rest)[1..] == rest;
    }
  }

  lemma ParseEntry(p: Parser, s: Setting, rest: string) returns (p': Parser)
    requires NameOk(s.name) && NoneOf(s.value, "\n") && Fits(s)
    ensures ParseFrom(p, Entry(s) + rest) == ParseFrom(p', rest)
    ensures p'.section == p.section && p'.error == p.error
    ensures p'.calls == p.calls + [Setting(p.section, s.name, Delivered(s.value))]
  {
    hide ParseFrom, NameOk, NoneOf, Delivered;
    if |s.name| + 3 + |s.value| < MAX_LINE {
      p' := ParseWholeEntry(p, s.name, s.value, rest);
    } else {
      p' := ParseTightEntry(p, s.name, rest);
      assert Entry(s) + rest == s.name + " =" + (" \n" + rest);
    }
  }

  lemma ParseWholeEntry(p: Parser, name: string, value: string, rest: string) returns (p': Parser)
    requires NameOk(name) && NoneOf(value, "\n") && |name + " = " + value| < MAX_LINE
    ensures ParseFrom(p, name + " = " + value + "\n" + rest) == ParseFrom(p', rest)
    ensures p'.section == p.section && p'.error == p.error
    ensures p'.calls == p.calls + [Setting(p.section, name, Delivered(value))]
  {
    var content := name + " = " + value;
    assert NoneOf(content, "\n");
    hide ParseLine, ParseFrom, NameOk, NoneOf, Delivered, Truncated;
    ParseContent(p, content, rest);
    if |content| < MAX_LINE - 1 {
      EntryLine(p, name, value, "\n");
      p' := ParseLine(p, content + "\n");
    } else {
      EntryLine(p, name, value, "");
      assert content + "" == content;
      BlankLine(ParseLine(p, content));
      p' := ParseLine(ParseLine(p, content), "\n");
    }
  }

  /** An entry with an empty value whose last blank does not fit the line. */
  lemma ParseTightEntry(p: Parser, name: string, rest: string) returns (p': Parser)
    requires NameOk(name) && |name| + 2 == MAX_LINE - 1
    ensures ParseFrom(p, name + " =" + (" \n" + rest)) == ParseFrom(p', rest)
    ensures p'.section == p.section && p'.error == p.error
    ensures p'.calls == p.calls + [Setting(p.section, name, Delivered(""))]
  {
    var line := name + " =";
    var text := line + (" \n" + rest);
    assert NoneOf(line, "\n");
    assert NoneOf(" ", "\n");
    hide ParseLine, NameOk, NoneOf, Delivered, Truncated;
    FullLineOf(line, " \n" + rest, MAX_LINE - 1);
    assert text[..MAX_LINE - 1] == line && text[MAX_LINE - 1..] == " " + "\n" + rest;
    TightLine(p, name);
    var p1 := ParseLine(p, line);
    ParseContent(p1, " ", rest);
    assert " " + "\n" == " \n";
    BlankTail(p1);
    p' := ParseLine(p1, " \n");
  }

  lemma BlankTail(p: Parser)
    ensures ParseLine(p, " \n") == p.(lineno := p.lineno + 1)
  {
    RStripSpaces("", " \n");
    assert "" + " \n" == " \n";
  }

  lemma TightLine(p: Parser, name: string)
    requires NameOk(name)
    ensures ParseLine(p, name + " =") ==
            p.(lineno := p.lineno + 1, prevName := Truncated(name, MAX_NAME),
               calls := p.calls + [Setting(p.section, name, Delivered(""))])
  {
    var line := name + " =";
    assert line == name + " " + Tail("");
    assert RStrip(line) == line && line[0] == name[0];
    hide PairLine, Tail, ParseLine, NoneOf, NoComment;
    PlainLine(p, line, line);
    EntryPair(p.(lineno := p.lineno + 1), name, "");
  }

  lemma ParseHeader(p: Parser, section: string, rest: string) returns (p': Parser)
    requires SectionOk(section)
    ensures ParseFrom(p, Header(section) + rest) == ParseFrom(p', rest)
    ensures p'.section == section && p'.error == p.error && p'.calls == p.calls
  {
    var line := "[" + section + "]";
    assert Header(section) + rest == "" + "\n" + (line + "\n" + rest);
    hide ParseLine, ParseFrom;
    assert "" + "\n" == "\n";
    ParseContent(p, "", line + "\n" + rest);
    BlankLine(p);
    p' := ParseHeading(ParseLine(p, "\n"), section, rest);
  }

  lemma ParseHeading(p: Parser, section: string, rest: string) returns (p': Parser)
    requires SectionOk(section)
    ensures ParseFrom(p, "[" + section + "]" + "\n" + rest) == ParseFrom(p', rest)
    ensures p'.section == section && p'.error == p.error && p'.calls == p.calls
  {
    var line := "[" + section + "]";
    assert NoneOf(line, "\n");
    assert |line| < MAX_LINE - 1;
    hide ParseLine, ParseFrom, SectionOk, NoneOf;
    ParseContent(p, line, rest);
    assert line + "\n" == "[" + section + "]\n";
    HeaderLine(p, section);
    p' := ParseLine(p, line + "\n");
  }

  lemma OneAndRest(calls: seq<Setting>, settings: seq<Setting>)
    requires settings != []
    ensures calls + [settings[0]] + settings[1..] == calls + settings
  {
  }

  ghost predicate ReadsBack(settings: seq<Setting>) {
    Parse(WriteFrom("", settings)).calls == settings && Parse(WriteFrom("", settings)).error == 0
  }

  /** Reading on only adds calls and never forgets an error. */
  lemma {:induction false} ReadsOn(p: Parser, text: string)
    ensures p.calls <= ParseFrom(p, text).calls
    ensures p.error != 0 ==> ParseFrom(p, text).error != 0
    decreases |text|
  {
    hide ParseLine;
    if text != [] {
      var n := LineLength(text, MAX_LINE - 1);
      LineAdds(p, text[..n]);
      ReadsOn(ParseLine(p, text[..n]), text[n..]);
    }
  }

  lemma LineAdds(p: Parser, line: string)
    ensures p.calls <= ParseLine(p, line).calls
    ensures p.error != 0 ==> ParseLine(p, line).error != 0
  {
    hide RStrip, LSkip, FindEnd, Truncated, HasBom;
  }

  /** A line without a separator is an error. */
  lemma NoSeparator(p: Parser, line: string)
    requires line != [] && NoneOf(line, "=:\n") && !IsSpace(line[0])
    requires line[0] != ';' && line[0] != '#' && line[0] != '[' && line[0] != 0xEF as char
    ensures ParseLine(p, line).error != 0
  {
    var start := RStrip(line);
    StripNonempty(line);
    assert start[0] == line[0] && LSkip(start) == start;
    var end := FindEnd(start, "=:", false);
    if end < |start| {
      assert start[end] == line[end] && line[end] in line;
    }
  }

  lemma {:induction false} StripNonempty(s: string)
    requires s != [] && !IsSpace(s[0])
    ensures RStrip(s) != []
  {
    if IsSpace(s[|s| - 1]) {
      StripNonempty(s[..|s| - 1]);
    }
  }

  /** The first line of an entry that does not fit: its value is cut or its name has no separator. */
  lemma FirstPartFails(p: Parser, name: string, value: string, line: string)
    requires NameOk(name) && !Fits(Setting("", name, value)) && line <= name + " = " + value && |line| == MAX_LINE - 1
    ensures var q := ParseLine(p, line);
            q.error != 0 || (|q.calls| > |p.calls| && q.calls[|p.calls|].value != value)
  {
    hide ParseLine, Delivered;
    var room := MAX_LINE - 1;
    if |name| + 3 <= room {
      var v := value[..room - |name| - 3];
      assert line == name + " = " + v + "";
      EntryLine(p, name, v, "");
      DeliveredIff(v);
    } else if |name| + 2 == room {
      assert line == name + " =";
      TightLine(p, name);
      DeliveredIff("");
    } else {
      assert line == (name + " ")[..room];
      assert line[0] == name[0];
      assert forall c <- line :: c in name || c == ' ';
      NoSeparator(p, line);
    }
  }

  /** An entry that does not fit is not read back, whatever follows it. */
  lemma LongEntryFails(p: Parser, s: Setting, rest: string)
    requires NameOk(s.name) && NoneOf(s.value, "\n") && !Fits(s)
    ensures var q := ParseFrom(p, Entry(s) + rest);
            q.error != 0 || (|q.calls| > |p.calls| && q.calls[|p.calls|].value != s.value)
  {
    var room := MAX_LINE - 1;
    var content := s.name + " = " + s.value;
    var text := Entry(s) + rest;
    assert NoneOf(content, "\n");
    assert text == content + ("\n" + rest);
    hide ParseLine, NameOk, NoneOf;
    FullLineOf(content, "\n" + rest, room);
    var line := text[..room];
    assert line <= content;
    FirstPartFails(p, s.name, s.value, line);
    ReadsOn(ParseLine(p, line), text[room..]);
  }

  /** A setting whose value is read back. */
  predicate Survives(s: Setting) {
    Trimmed(s.value) && NoComment(s.value) && Fits(s)
  }

  predicate Writable(s: Setting) {
    SectionOk(s.section) && NameOk(s.name) && NoneOf(s.value, "\n")
  }

  /** What the first entry does to the outcome of a whole text. */
  lemma FirstEntry(p: Parser, s: Setting, rest: string) returns (p': Parser)
    requires Writable(s)
    ensures
      var text := (if s.section != p.section then Header(s.section) else "") + Entry(s) + rest;
      var q := ParseFrom(p, text);
      && (Survives(s) ==> q == ParseFrom(p', rest) && p'.section == s.section && p'.error == p.error && p'.calls == p.calls + [s])
      && (!Survives(s) ==> q.error != 0 || (|q.calls| > |p.calls| && q.calls[|p.calls|].value != s.value))
  {
    var p1 := p;
    hide Entry, ParseFrom;
    if s.section != p.section {
      p1 := ParseHeader(p, s.section, Entry(s) + rest);
      assert Header(s.section) + (Entry(s) + rest) == Header(s.section) + Entry(s) + rest;
    } else {
      assert "" + Entry(s) + rest == Entry(s) + rest;
    }
    hide ParseFrom, Header, Entry, NameOk, NoneOf, SectionOk, Trimmed, NoComment;
    DeliveredIff(s.value);
    p' := p1;
    if Fits(s) {
      p' := ParseEntry(p1, s, rest);
      ReadsOn(p', rest);
    } else {
      LongEntryFails(p1, s, rest);
    }
  }

  lemma {:induction false} ListReadsBackFrom(p: Parser, settings: seq<Setting>)
    requires p.error == 0 && forall s <- settings :: Writable(s)
    ensures var q := ParseFrom(p, WriteFrom(p.section, settings));
            q.calls == p.calls + settings && q.error == 0 <==> forall s <- settings :: Survives(s)
    decreases |settings|
  {
    hide Writable, Survives, Header, Entry;
    if settings == [] {
      assert p.calls + settings == p.calls;
    } else {
      hide ParseFrom;
      var s, later := settings[0], settings[1..];
      assert s in settings && forall x <- later :: x in settings;
      assert forall x <- settings :: x == s || x in later;
      var p' := FirstEntry(p, s, WriteFrom(s.section, later));
      OneAndRest(p.calls, settings);
      if Survives(s) {
        ListReadsBackFrom(p', later);
      }
      hide WriteFrom;
      assert (p.calls + settings)[|p.calls|] == s;
    }
  }

  /** A list of settings with proper sections and names is read back exactly if each of its values has
      no outer white space and no comment and each of its entries fits a line. */
  lemma ListReadsBackIff(settings: seq<Setting>)
    requires forall s <- settings :: Writable(s)
    ensures ReadsBack(settings) <==> forall s <- settings :: Survives(s)
  {
    ListReadsBackFrom(START, settings);
    assert START.calls + settings == settings;
  }

  /** Parsing a written configuration makes exactly the calls for its settings, in order, without an
      error. */
  lemma ReadBack(settings: seq<Setting>)
    requires forall s <- settings :: SettingOk(s)
    ensures Parse(WriteFrom("", settings)).calls == settings && Parse(WriteFrom("", settings)).error == 0
  {
    assert forall s <- settings :: Writable(s) && Survives(s);
    hide Writable, Survives, Parse;
    ListReadsBackIff(settings);
  }

  lemma ReadsBackIff(s: Setting)
    requires Writable(s)
    ensures ReadsBack([s]) <==> Survives(s)
  {
    hide Writable, Survives, ReadsBack;
    assert [s][0] == s;
    ListReadsBackIff([s]);
  }

  const INDENTED := Setting("a", "n", " x")
  const OVERLONG := Setting("a", "n", seq(197, _ => 'x'))

  /** A value that begins with a blank is not read back. */
  lemma IndentedIsLost()
    ensures !ReadsBack([INDENTED])
  {
    assert IsSpace(' ') && !Trimmed(" x");
    assert Writable(INDENTED);
    hide ReadsBack, Writable;
    ReadsBackIff(INDENTED);
  }

  /** Nor is one that is too long for its line. */
  lemma OverlongIsLost()
    ensures !ReadsBack([OVERLONG])
  {
    assert !Fits(OVERLONG);
    assert Writable(OVERLONG);
    hide ReadsBack, Writable;
    ReadsBackIff(OVERLONG);
  }

  // ---------------------------------------------------------------------------
  // Saving and loading a machine
  // ---------------------------------------------------------------------------

  /** The fields of a machine, in the order of the configuration table. */
  datatype Field = Field(section: string, name: string)

  type Machine = map<Field, string>

  function Settings(fields: seq<Field>, machine: Machine): (s: seq<Setting>)
    requires forall f <- fields :: f in machine
    ensures |s| == |fields| && forall i | 0 <= i < |s| :: s[i] == Setting(fields[i].section, fields[i].name, machine[fields[i]])
  {
    seq(|fields|, i requires 0 <= i < |fields| =>
      assert fields[i] in fields;
      Setting(fields[i].section, fields[i].name, machine[fields[i]]))
  }

  /** The handler: settings of the table are assigned, others are ignored. */
  function Handle(fields: seq<Field>, machine: Machine, s: Setting): Machine {
    var f := Field(s.section, s.name);
    if f in fields then machine[f := s.value] else machine
  }

  function HandleAll(fields: seq<Field>, machine: Machine, calls: seq<Setting>): Machine {
    if calls == [] then machine
    else Handle(fields, HandleAll(fields, machine, calls[..|calls| - 1]), calls[|calls| - 1])
  }

  lemma {:induction false} HandlesAll(fields: seq<Field>, machine: Machine, defaults: Machine, n: nat)
    requires (forall f <- fields :: f in machine) && n <= |fields|
    ensures var m := HandleAll(fields, defaults, Settings(fields, machine)[..n]);
            && (forall f <- fields[..n] :: f in m && m[f] == machine[f])
            && (forall f | f !in fields[..n] :: f in m <==> f in defaults)
            && (forall f | f !in fields[..n] && f in defaults :: m[f] == defaults[f])
  {
    if n > 0 {
      var calls := Settings(fields, machine)[..n];
      assert calls[..n - 1] == Settings(fields, machine)[..n - 1];
      HandlesAll(fields, machine, defaults, n - 1);
      assert fields[..n] == fields[..n - 1] + [fields[n - 1]];
      assert fields[n - 1] in fields;
    }
  }

  /** Loading a saved machine restores every field, whatever the defaults. */
  lemma LoadAfterSave(fields: seq<Field>, machine: Machine, defaults: Machine)
    requires forall f <- fields :: f in machine && f in defaults && SettingOk(Setting(f.section, f.name, machine[f]))
    requires (forall f <- machine :: f in fields) && (forall f <- defaults :: f in fields)
    ensures var text := WriteFrom("", Settings(fields, machine));
            HandleAll(fields, defaults, Parse(text).calls) == machine && Parse(text).error == 0
  {
    hide SettingOk, Parse, WriteFrom, Handle;
    SettingsOk(fields, machine);
    var settings := Settings(fields, machine);
    ReadBack(settings);
    HandlesAll(fields, machine, defaults, |fields|);
    assert settings[..|fields|] == settings && fields[..|fields|] == fields;
    hide Settings, HandleAll;
    SameMachine(HandleAll(fields, defaults, settings), machine, fields);
  }

  lemma SettingsOk(fields: seq<Field>, machine: Machine)
    requires forall f <- fields :: f in machine && SettingOk(Setting(f.section, f.name, machine[f]))
    ensures forall s <- Settings(fields, machine) :: SettingOk(s)
  {
    hide SettingOk;
    assert forall i | 0 <= i < |fields| :: fields[i] in fields;
  }

  lemma SameMachine(m: Machine, machine: Machine, fields: seq<Field>)
    requires forall f <- fields :: f in m && f in machine && m[f] == machine[f]
    requires (forall f <- m :: f in fields) && forall f <- machine :: f in fields
    ensures m == machine
  {
  }

  // ---------------------------------------------------------------------------
  // The loops
  // ---------------------------------------------------------------------------

  method StripRight(s: string) returns (r: string)
    ensures r == RStrip(s)
  {
    var n := |s|;
    assert s[..n] == s;
    while n > 0 && IsSpace(s[n - 1])
      invariant n <= |s| && RStrip(s[..n]) == RStrip(s)
    {
      assert s[..n][..n - 1] == s[..n - 1];
      n := n - 1;
    }
    return s[..n];
  }

  method SkipLeft(s: string) returns (r: string)
    ensures r == LSkip(s)
  {
    var i := 0;
    while i < |s| && IsSpace(s[i])
      invariant i <= |s| && LSkip(s[i..]) == LSkip(s)
    {
      i := i + 1;
    }
    return s[i..];
  }

  method FindCharsOrComment(s: string, chars: string) returns (i: nat)
    ensures i == FindEnd(s, chars, false)
  {
    var wasSpace := false;
    i := 0;
    while i < |s| && s[i] !in chars && !(wasSpace && s[i] == ';')
      invariant i <= |s| && i + FindEnd(s[i..], chars, wasSpace) == FindEnd(s, chars, false)
    {
      wasSpace := IsSpace(s[i]);
      i := i + 1;
    }
  }

  /** Reads a line of at most `MAX_LINE - 1` characters. */
  method ReadLine(text: string) returns (n: nat)
    ensures n == LineLength(text, MAX_LINE - 1)
  {
    n := 0;
    while n < |text| && n < MAX_LINE - 1
      invariant n <= |text| && n <= MAX_LINE - 1
      invariant n + LineLength(text[n..], MAX_LINE - 1 - n) == LineLength(text, MAX_LINE - 1)
    {
      n := n + 1;
      if text[n - 1] == '\n' {
        break;
      }
    }
  }

  method ProcessSection(p: Parser, start: string) returns (p': Parser)
    requires start != []
    ensures p' == SectionLine(p, start)
  {
    var end := FindCharsOrComment(start[1..], "]");
    end := end + 1;
    p' := p;
    if end < |start| && start[end] == ']' {
      p' := p.(section := Truncated(start[1..end], MAX_SECTION), prevName := "");
    } else if p.error == 0 {
      p' := p.(error := p.lineno);
    }
  }

  method ProcessPair(p: Parser, start: string) returns (p': Parser)
    ensures p' == PairLine(p, start)
  {
    var end := FindCharsOrComment(start, "=:");
    p' := p;
    if end < |start| && (start[end] == '=' || start[end] == ':') {
      var name := StripRight(start[..end]);
      var value := SkipLeft(start[end + 1..]);
      end := FindCharsOrComment(value, "");
      value := StripRight(value[..end]);
      p' := p.(prevName := Truncated(name, MAX_NAME), calls := p.calls + [Setting(p.section, name, value)]);
    } else if p.error == 0 {
      p' := p.(error := p.lineno);
    }
  }

  method ProcessLine(p: Parser, line: string) returns (p': Parser)
    ensures p' == ParseLine(p, line)
  {
    hide SectionLine, PairLine;
    p' := p.(lineno := p.lineno + 1);
    var bom := p'.lineno == 1 && HasBom(line);
    var stripped := StripRight(if bom then line[3..] else line);
    var start := SkipLeft(stripped);
    if start == [] || start[0] == ';' || start[0] == '#' {
    } else if p'.prevName != [] && (bom || start != stripped) {
      p' := p'.(calls := p'.calls + [Setting(p'.section, p'.prevName, start)]);
    } else if start[0] == '[' {
      p' := ProcessSection(p', start);
    } else {
      p' := ProcessPair(p', start);
    }
  }

  /** The line loop of the parser. */
  method ParseStream(text: string) returns (p: Parser)
    ensures p == Parse(text)
  {
    hide ParseLine, LineLength;
    var rest := text;
    p := START;
    while rest != []
      invariant ParseFrom(p, rest) == Parse(text)
      decreases |rest|
    {
      var n := ReadLine(rest);
      p := ProcessLine(p, rest[..n]);
      rest := rest[n..];
    }
  }

  /** The writer: a heading whenever the section changes. */
  method WriteMachineConfig(settings: seq<Setting>) returns (text: string)
    ensures text == WriteFrom("", settings)
  {
    hide Header, Entry;
    var section := "";
    text := "";
    assert settings[0..] == settings;
    assert "" + WriteFrom("", settings) == WriteFrom("", settings);
    for i := 0 to |settings|
      invariant text + WriteFrom(section, settings[i..]) == WriteFrom("", settings)
    {
      var s := settings[i];
      assert settings[i..][0] == s && settings[i..][1..] == settings[i + 1..];
      Grouped(text, if s.section != section then Header(s.section) else "", Entry(s), WriteFrom(s.section, settings[i + 1..]));
      if s.section != section {
        section := s.section;
        text := text + Header(section);
      } else {
        assert text + "" == text;
      }
      text := text + Entry(s);
    }
    assert text + "" == text;
  }

  lemma Grouped(a: string, b: string, c: string, d: string)
    ensures a + (b + c + d) == a + b + c + d
  {
  }
}
