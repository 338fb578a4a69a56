/** The settings file: an INI-like text of sections and key=value entries, kept as an
  * ordered list in which both section names and keys may repeat.
  *
  * Main results: printing and parsing are inverse exactly on well-formed settings, which
  * are exactly what the parser produces; `Set` is a map update; and the overrides built
  * against a baseline patch that baseline into these settings.
  */
module SftText {
  import opened BeIo

  datatype Entry = Entry(key: string, value: string)
  datatype Section = Section(name: string, entries: seq<Entry>)

  // ---------- characters and lines ----------

  /** The white space a Latin-1 byte can hold. */
  predicate IsSpace(c: char) {
    c == ' ' || '\t' <= c <= '\r' || c as int == 0x85 || c as int == 0xA0
  }

  function TrimLeft(s: string): (t: string)
    ensures |t| <= |s| && t == s[|s| - |t|..]
    ensures t != "" ==> !IsSpace(t[0])
  {
    if s != "" && IsSpace(s[0]) then
      var t := TrimLeft(s[1..]);
      assert s[1..][|s| - 1 - |t|..] == s[|s| - |t|..];
      t
    else s
  }

  function TrimRight(s: string): (t: string)
    ensures t <= s
    ensures t != "" ==> !IsSpace(t[|t| - 1])
  {
    if s != "" && IsSpace(s[|s| - 1]) then TrimRight(s[..|s| - 1]) else s
  }

  function Trim(s: string): (t: string)
    ensures Trimmed(t)
  {
    TrimRight(TrimLeft(s))
  }

  predicate Trimmed(s: string) {
    s != "" ==> !IsSpace(s[0]) && !IsSpace(s[|s| - 1])
  }

  /** The position of `c` in `s`, or the length when it is absent. */
  function IndexOf(s: string, c: char): (i: nat)
    ensures i <= |s| && c !in s[..i] && (i < |s| ==> s[i] == c)
  {
    if s == "" || s[0] == c then 0 else 1 + IndexOf(s[1..], c)
  }

  function SplitLines(text: string): (lines: seq<string>)
    ensures forall l :: l in lines ==> '\n' !in l
    decreases |text|
  {
    var i := IndexOf(text, '\n');
    if i == |text| then [text] else [text[..i]] + SplitLines(text[i + 1..])
  }

  function FromLatin1(data: seq<byte>): (s: string)
    ensures |s| == |data|
  {
    seq(|data|, i requires 0 <= i < |data| => data[i] as char)
  }

  /** A character outside Latin-1 is written as a question mark. */
  function ToLatin1(s: string): (data: seq<byte>)
    ensures |data| == |s|
  {
    seq(|s|, i requires 0 <= i < |s| => if s[i] as int < 0x100 then s[i] as int else '?' as int)
  }

  predicate Latin1(s: string) {
    forall i :: 0 <= i < |s| ==> s[i] as int < 0x100
  }

  lemma Latin1Inverse(s: string)
    requires Latin1(s)
    ensures FromLatin1(ToLatin1(s)) == s
  {
  }

  // ---------- reading ----------

  datatype Line = Skip | Header(name: string) | Pair(key: string, value: string)

  predicate IsHeader(line: string) {
    |line| >= 2 && line[0] == '[' && line[|line| - 1] == ']'
  }

  predicate IsComment(line: string) {
    line != "" && (line[0] == ';' || line[0] == '#')
  }

  function DropCr(raw: string): string {
    if raw != "" && raw[|raw| - 1] == '\r' then raw[..|raw| - 1] else raw
  }

  function Classify(raw: string): Line {
    var line := Trim(DropCr(raw));
    if line == "" || IsComment(line) then Skip
    else if IsHeader(line) then Header(line[1..|line| - 1])
    else
      var eq := IndexOf(line, '=');
      if eq == |line| then Skip else Pair(Trim(line[..eq]), line[eq + 1..])
  }

  /** One line read: a pair before any header opens an unnamed section. */
  function Absorb(secs: seq<Section>, line: Line): seq<Section> {
    match line
    case Skip => secs
    case Header(name) => secs + [Section(name, [])]
    case Pair(key, value) =>
      if secs == [] then [Section("", [Entry(key, value)])]
      else
        var last := secs[|secs| - 1];
        secs[|secs| - 1 := last.(entries := last.entries + [Entry(key, value)])]
  }

  function ReadLines(secs: seq<Section>, lines: seq<string>): seq<Section>
    decreases |lines|
  {
    if lines == [] then secs
    else Absorb(ReadLines(secs, lines[..|lines| - 1]), Classify(lines[|lines| - 1]))
  }

  function Parse(data: seq<byte>): seq<Section> {
    ReadLines([], SplitLines(FromLatin1(data)))
  }

  // ---------- printing ----------

  function EntryText(e: Entry): string {
    e.key + "=" + e.value
  }

  function HeaderText(name: string): string {
    "[" + name + "]"
  }

  function EntryLines(es: seq<Entry>): (lines: seq<string>)
    ensures |lines| == |es|
  {
    seq(|es|, i requires 0 <= i < |es| => EntryText(es[i]))
  }

  /** The lines of the file: a blank one, then each section closed by a blank one. */
  function Lines(secs: seq<Section>): seq<string> {
    if secs == [] then [""]
    else
      var s := secs[|secs| - 1];
      Lines(secs[..|secs| - 1]) + [HeaderText(s.name)] + EntryLines(s.entries) + [""]
  }

  /** Lines joined, each closed by a carriage return and a line feed. */
  function Terminate(lines: seq<string>): string {
    if lines == [] then "" else Terminate(lines[..|lines| - 1]) + (lines[|lines| - 1] + "\r\n")
  }

  function Serialise(secs: seq<Section>): seq<byte> {
    ToLatin1(Terminate(Lines(secs)))
  }

  // ---------- well-formed settings ----------

  /** An entry that survives being written on a line and read back. */
  predicate WellFormedEntry(e: Entry) {
    && Latin1(EntryText(e)) && '\n' !in EntryText(e)
    && '=' !in e.key && Trimmed(e.key) && TrimRight(e.value) == e.value
    && !IsComment(EntryText(e)) && !IsHeader(EntryText(e))
  }

  predicate WellFormedSection(s: Section) {
    && Latin1(s.name) && '\n' !in s.name
    && forall e :: e in s.entries ==> WellFormedEntry(e)
  }

  predicate WellFormed(secs: seq<Section>) {
    forall s :: s in secs ==> WellFormedSection(s)
  }

  // ---------- printing then parsing ----------

  lemma {:induction false} TrimIsIdentity(s: string)
    requires Trimmed(s)
    ensures TrimLeft(s) == s && TrimRight(s) == s && Trim(s) == s
  {
  }

  lemma HeaderShape(name: string)
    ensures var line := HeaderText(name);
      IsHeader(line) && Trimmed(line) && !IsComment(line) && line[1..|line| - 1] == name
    ensures DropCr(HeaderText(name) + "\r") == HeaderText(name)
  {
    var line := HeaderText(name);
    assert line[0] == '[' && line[|line| - 1] == ']';
    assert (line + "\r")[..|line|] == line;
  }

  lemma ClassifyHeader(name: string)
    ensures Classify(HeaderText(name) + "\r") == Header(name)
  {
    hide HeaderText, Trim, IndexOf, IsHeader, DropCr, Trimmed;
    HeaderShape(name);
    TrimIsIdentity(HeaderText(name));
    assert HeaderText(name) != "" by {
      HeaderIsNotEmpty(name);
    }
  }

  lemma HeaderIsNotEmpty(name: string)
    ensures |HeaderText(name)| >= 2
  {
  }

  lemma DropCrOf(line: string)
    ensures DropCr(line + "\r") == line
  {
    assert (line + "\r")[..|line|] == line;
  }

  lemma SplitEntry(e: Entry)
    requires '=' !in e.key
    ensures var line := EntryText(e);
      |line| > |e.key| == IndexOf(line, '=') && line[..|e.key|] == e.key && line[|e.key| + 1..] == e.value
  {
    var line := EntryText(e);
    assert line[..|e.key|] == e.key;
    FirstIndex(line, '=', |e.key|);
  }

  lemma ClassifyEntry(e: Entry)
    requires WellFormedEntry(e)
    ensures Classify(EntryText(e) + "\r") == Pair(e.key, e.value)
  {
    hide EntryText, IndexOf, TrimLeft, TrimRight, Trim, Trimmed, DropCr, IsComment, IsHeader, Latin1;
    DropCrOf(EntryText(e));
    EntryTextIsTrimmed(e);
    TrimIsIdentity(EntryText(e));
    TrimIsIdentity(e.key);
    SplitEntry(e);
  }

  lemma EntryTextIsTrimmed(e: Entry)
    requires WellFormedEntry(e)
    ensures Trimmed(EntryText(e))
  {
    assert e.value != "" ==> !IsSpace(TrimRight(e.value)[|e.value| - 1]);
  }

  lemma {:induction false} FirstIndex(s: string, c: char, i: nat)
    requires i < |s| && s[i] == c && c !in s[..i]
    ensures IndexOf(s, c) == i
  {
    if i > 0 {
      assert s[..i][0] == s[0];
      assert s[1..][..i - 1] == s[..i][1..];
      FirstIndex(s[1..], c, i - 1);
    }
  }

  /** Printed lines as the parser cuts them: the line feed goes, the return stays. */
  function WithCr(lines: seq<string>): (cut: seq<string>)
    ensures |cut| == |lines|
  {
    seq(|lines|, i requires 0 <= i < |lines| => lines[i] + "\r")
  }

  /** Text made of a line, its terminator and more text splits there. */
  lemma SplitFirst(line: string, more: string)
    requires '\n' !in line
    ensures SplitLines((line + "\r\n") + more) == [line + "\r"] + SplitLines(more)
  {
    var text := (line + "\r\n") + more;
    assert text[..|line| + 1] == line + "\r";
    FirstIndex(text, '\n', |line| + 1);
    assert text[|line| + 2..] == more;
  }

  lemma {:induction false} SplitPrinted(lines: seq<string>, more: string)
    requires forall l :: l in lines ==> '\n' !in l
    ensures SplitLines(Terminate(lines) + more) == WithCr(lines) + SplitLines(more)
    decreases |lines|
  {
    hide SplitLines;
    if lines == [] {
      assert Terminate(lines) + more == more;
    } else {
      var init := lines[..|lines| - 1];
      var l := lines[|lines| - 1];
      Associate(Terminate(init), l + "\r\n", more);
      SplitPrinted(init, (l + "\r\n") + more);
      SplitFirst(l, more);
      hide Terminate;
      assert WithCr(lines) == WithCr(init) + [l + "\r"];
    }
  }

  lemma Associate(a: string, b: string, c: string)
    ensures (a + b) + c == a + (b + c)
  {
  }

  lemma {:induction false} ReadLinesAppend(secs: seq<Section>, a: seq<string>, b: seq<string>)
    ensures ReadLines(secs, a + b) == ReadLines(ReadLines(secs, a), b)
    decreases |b|
  {
    hide Classify, Absorb;
    if b == [] {
      assert a + b == a;
    } else {
      assert (a + b)[..|a + b| - 1] == a + b[..|b| - 1];
      ReadLinesAppend(secs, a, b[..|b| - 1]);
    }
  }

  lemma ReadOne(secs: seq<Section>, line: string)
    ensures ReadLines(secs, [line]) == Absorb(secs, Classify(line))
  {
    hide Classify, Absorb;
    assert [line][..0] == [];
  }

  lemma AbsorbPair(secs: seq<Section>, name: string, es: seq<Entry>, e: Entry)
    ensures Absorb(secs + [Section(name, es)], Pair(e.key, e.value)) == secs + [Section(name, es + [e])]
  {
  }

  lemma LastEntryLine(es: seq<Entry>)
    requires es != []
    ensures WithCr(EntryLines(es)) == WithCr(EntryLines(es[..|es| - 1])) + [EntryText(es[|es| - 1]) + "\r"]
  {
  }

  lemma {:induction false} ReadEntries(secs: seq<Section>, name: string, es: seq<Entry>)
    requires forall e :: e in es ==> WellFormedEntry(e)
    ensures ReadLines(secs + [Section(name, [])], WithCr(EntryLines(es))) == secs + [Section(name, es)]
    decreases |es|
  {
    hide Classify, WellFormedEntry, EntryText, Absorb;
    if es == [] {
      assert WithCr(EntryLines(es)) == [];
    } else {
      hide ReadLines, WithCr, EntryLines;
      var init := es[..|es| - 1];
      var e := es[|es| - 1];
      ReadEntries(secs, name, init);
      LastEntryLine(es);
      ReadLinesAppend(secs + [Section(name, [])], WithCr(EntryLines(init)), [EntryText(e) + "\r"]);
      ReadOne(secs + [Section(name, init)], EntryText(e) + "\r");
      ClassifyEntry(e);
      AbsorbPair(secs, name, init, e);
      assert init + [e] == es;
    }
  }

  lemma WithCrAppend(a: seq<string>, b: seq<string>)
    ensures WithCr(a + b) == WithCr(a) + WithCr(b)
  {
  }

  lemma {:induction false} ReadSections(secs: seq<Section>)
    requires WellFormed(secs)
    ensures ReadLines([], WithCr(Lines(secs))) == secs
    decreases |secs|
  {
    hide ReadLines, WithCr, HeaderText, EntryLines, WellFormedSection;
    if secs == [] {
      ReadBlank([]);
    } else {
      var init := secs[..|secs| - 1];
      ReadSections(init);
      assert WellFormedSection(secs[|secs| - 1]);
      ReadLastSection(Lines(init), init, secs[|secs| - 1]);
      assert init + [secs[|secs| - 1]] == secs;
    }
  }

  lemma ReadLastSection(lines: seq<string>, secs: seq<Section>, s: Section)
    requires WellFormedSection(s) && ReadLines([], WithCr(lines)) == secs
    ensures ReadLines([], WithCr(lines + [HeaderText(s.name)] + EntryLines(s.entries) + [""])) == secs + [s]
  {
    hide ReadLines, WellFormedEntry, WithCr, HeaderText, EntryLines;
    ReadAfter([], lines + [HeaderText(s.name)] + EntryLines(s.entries), [""]);
    ReadAfter([], lines + [HeaderText(s.name)], EntryLines(s.entries));
    ReadAfter([], lines, [HeaderText(s.name)]);
    ReadHeader(secs, s.name);
    ReadEntries(secs, s.name, s.entries);
    ReadBlank(secs + [s]);
  }

  lemma ReadAfter(secs: seq<Section>, a: seq<string>, b: seq<string>)
    ensures ReadLines(secs, WithCr(a + b)) == ReadLines(ReadLines(secs, WithCr(a)), WithCr(b))
  {
    WithCrAppend(a, b);
    ReadLinesAppend(secs, WithCr(a), WithCr(b));
  }

  lemma ReadHeader(secs: seq<Section>, name: string)
    ensures ReadLines(secs, WithCr([HeaderText(name)])) == secs + [Section(name, [])]
  {
    assert WithCr([HeaderText(name)]) == [HeaderText(name) + "\r"];
    ReadOne(secs, HeaderText(name) + "\r");
    ClassifyHeader(name);
  }

  lemma ReadBlank(secs: seq<Section>)
    ensures ReadLines(secs, WithCr([""])) == secs
    ensures ReadLines(secs, [""]) == secs
  {
    var blank := "" + "\r";
    assert WithCr([""]) == [blank];
    assert DropCr(blank) == "";
    ReadOne(secs, blank);
    ReadOne(secs, "");
  }

  lemma {:induction false} LinesArePlain(secs: seq<Section>)
    requires WellFormed(secs)
    ensures forall l :: l in Lines(secs) ==> Latin1(l) && '\n' !in l
    decreases |secs|
  {
    if secs != [] {
      LinesArePlain(secs[..|secs| - 1]);
      var s := secs[|secs| - 1];
      assert WellFormedSection(s);
      forall l | l in EntryLines(s.entries) ensures Latin1(l) && '\n' !in l {
        var i :| 0 <= i < |s.entries| && l == EntryText(s.entries[i]);
        assert WellFormedEntry(s.entries[i]);
      }
    }
  }

  lemma {:induction false} TerminatedIsLatin1(lines: seq<string>)
    requires forall l :: l in lines ==> Latin1(l)
    ensures Latin1(Terminate(lines))
    decreases |lines|
  {
    if lines != [] {
      TerminatedIsLatin1(lines[..|lines| - 1]);
      assert Latin1(lines[|lines| - 1]);
    }
  }

  lemma PrintedReadsBack(secs: seq<Section>)
    requires WellFormed(secs)
    ensures secs == Parse(Serialise(secs))
  {
    hide Lines, Terminate, Classify;
    var lines := Lines(secs);
    LinesArePlain(secs);
    TerminatedIsLatin1(lines);
    Latin1Inverse(Terminate(lines));
    SplitPrinted(lines, "");
    assert Terminate(lines) + "" == Terminate(lines);
    assert SplitLines("") == [""];
    hide ReadLines;
    ReadLinesAppend([], WithCr(lines), [""]);
    ReadSections(secs);
    ReadBlank(secs);
  }

  // ---------- what the parser produces ----------

  lemma TrimKeeps(s: string)
    ensures Latin1(s) ==> Latin1(Trim(s))
    ensures '\n' !in s ==> '\n' !in Trim(s)
    ensures '=' !in s ==> '=' !in Trim(s)
  {
    var t := TrimLeft(s);
    assert Trim(s) <= t;
  }

  lemma ClassifyWellFormed(raw: string)
    requires Latin1(raw) && '\n' !in raw
    ensures PlainLine(Classify(raw))
  {
    hide Trim, IndexOf;
    var line := Trim(DropCr(raw));
    TrimKeeps(DropCr(raw));
    if Classify(raw).Pair? {
      hide Classify;
      PairIsWellFormed(line);
    }
  }

  lemma PairIsWellFormed(line: string)
    requires Latin1(line) && '\n' !in line && line != "" && Trimmed(line)
    requires !IsComment(line) && !IsHeader(line) && IndexOf(line, '=') < |line|
    ensures var eq := IndexOf(line, '=');
      WellFormedEntry(Entry(Trim(line[..eq]), line[eq + 1..]))
  {
    hide Trim, TrimRight, IndexOf;
    var eq := IndexOf(line, '=');
    var key := Trim(line[..eq]);
    var value := line[eq + 1..];
    TrimKeeps(line[..eq]);
    ValueEndsTheLine(line, eq);
    KeyStartsTheLine(line, eq);
    assert Latin1(value) && '\n' !in value && '=' !in key && Trimmed(key);
    TextOfPair(line, key, value);
  }

  /** The printed pair starts and ends like the line it came from. */
  lemma TextOfPair(line: string, key: string, value: string)
    requires line != "" && !IsComment(line) && !IsHeader(line)
    requires Latin1(key) && Latin1(value) && '\n' !in key && '\n' !in value
    requires line[0] == if key == "" then '=' else key[0]
    requires line[|line| - 1] == if value == "" then '=' else value[|value| - 1]
    requires |line| == 1 ==> key == "" && value == ""
    ensures var text := EntryText(Entry(key, value));
      Latin1(text) && '\n' !in text && !IsComment(text) && !IsHeader(text)
  {
    var text := EntryText(Entry(key, value));
    assert text[|text| - 1] == line[|line| - 1];
    assert text[0] == line[0];
  }

  lemma ValueEndsTheLine(line: string, eq: nat)
    requires Trimmed(line) && eq < |line|
    ensures TrimRight(line[eq + 1..]) == line[eq + 1..]
  {
    var value := line[eq + 1..];
    assert value != "" ==> value[|value| - 1] == line[|line| - 1];
  }

  /** The key of a trimmed line starts where the line starts. */
  lemma KeyStartsTheLine(line: string, eq: nat)
    requires Trimmed(line) && eq < |line| && line[eq] == '='
    ensures Trim(line[..eq]) == "" ==> eq == 0
    ensures Trim(line[..eq]) != "" ==> Trim(line[..eq])[0] == line[0]
  {
    var left := line[..eq];
    if eq > 0 {
      assert TrimLeft(left) == left;
      assert TrimRight(left) <= left;
      KeepsFirst(left);
    }
  }

  lemma {:induction false} KeepsFirst(s: string)
    requires s != "" && !IsSpace(s[0])
    ensures TrimRight(s) != "" && TrimRight(s)[0] == s[0]
  {
    if IsSpace(s[|s| - 1]) {
      KeepsFirst(s[..|s| - 1]);
    }
  }

  predicate PlainLine(line: Line) {
    match line
    case Skip => true
    case Header(name) => Latin1(name) && '\n' !in name
    case Pair(key, value) => WellFormedEntry(Entry(key, value))
  }

  lemma AbsorbWellFormed(secs: seq<Section>, line: Line)
    requires WellFormed(secs) && PlainLine(line)
    ensures WellFormed(Absorb(secs, line))
  {
    hide WellFormedEntry;
    if line.Pair? && secs != [] {
      assert WellFormedSection(secs[|secs| - 1]);
      assert WellFormedSection(Absorb(secs, line)[|secs| - 1]);
    }
  }

  lemma {:induction false} ReadsWellFormed(lines: seq<string>)
    requires forall l :: l in lines ==> Latin1(l) && '\n' !in l
    ensures WellFormed(ReadLines([], lines))
    decreases |lines|
  {
    hide Classify, Absorb, PlainLine, WellFormedSection;
    if lines != [] {
      ReadsWellFormed(lines[..|lines| - 1]);
      ClassifyWellFormed(lines[|lines| - 1]);
      AbsorbWellFormed(ReadLines([], lines[..|lines| - 1]), Classify(lines[|lines| - 1]));
    }
  }

  lemma {:induction false} SplitIsLatin1(text: string)
    requires Latin1(text)
    ensures forall l :: l in SplitLines(text) ==> Latin1(l)
    decreases |text|
  {
    var i := IndexOf(text, '\n');
    if i < |text| {
      assert Latin1(text[i + 1..]);
      SplitIsLatin1(text[i + 1..]);
    }
  }

  /** Whatever the bytes, what the parser makes of them is well-formed. */
  lemma ParseIsWellFormed(data: seq<byte>)
    ensures WellFormed(Parse(data))
  {
    SplitIsLatin1(FromLatin1(data));
    ReadsWellFormed(SplitLines(FromLatin1(data)));
  }

  /** Settings survive printing and parsing if and only if they are well-formed. */
  lemma RoundTripIffWellFormed(secs: seq<Section>)
    ensures Parse(Serialise(secs)) == secs <==> WellFormed(secs)
  {
    ParseIsWellFormed(Serialise(secs));
    if WellFormed(secs) {
      PrintedReadsBack(secs);
    }
  }

  /** One pass of printing and parsing changes nothing that parsing had not changed. */
  lemma ParseSerialiseParse(data: seq<byte>)
    ensures Parse(Serialise(Parse(data))) == Parse(data)
  {
    ParseIsWellFormed(data);
    PrintedReadsBack(Parse(data));
  }
}
