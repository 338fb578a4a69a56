/** What a settings text says, line by line, however it is spelt: with or without carriage
  * returns, blanks, comments, stray lines or a last terminator.
  */
module SftLineLaws {
  import opened BeIo
  import opened SftText

  // ---------- spellings ----------

  /** One line as somebody may have typed it, blanks included. */
  datatype Spelling =
    | Noise(left: string, body: string, right: string)
    | Head(left: string, name: string, right: string)
    | Item(left: string, key: string, gap: string, value: string, right: string)

  /** Tab, vertical tab, form feed, carriage return, space, next line and hard space. */
  predicate IsBlank(c: char) {
    c as int in {9, 11, 12, 13, 32, 0x85, 0xA0}
  }

  predicate Blanks(s: string) {
    forall i :: 0 <= i < |s| ==> IsBlank(s[i])
  }

  predicate Solid(s: string) {
    s != "" ==> !IsBlank(s[0]) && !IsBlank(s[|s| - 1])
  }

  predicate Bracketed(s: string) {
    |s| >= 2 && s[0] == '[' && s[|s| - 1] == ']'
  }

  predicate Remark(s: string) {
    s != "" && (s[0] == ';' || s[0] == '#')
  }

  function Spelt(w: Spelling): string {
    match w
    case Noise(left, body, right) => left + body + right
    case Head(left, name, right) => left + ("[" + name + "]") + right
    case Item(left, key, gap, value, right) => left + (key + gap + "=" + value) + right
  }

  predicate Legible(w: Spelling) {
    match w
    case Noise(left, body, right) =>
      Blanks(left) && Blanks(right) && '\n' !in body && Solid(body)
      && (body == "" || Remark(body) || ('=' !in body && !Bracketed(body)))
    case Head(left, name, right) => Blanks(left) && Blanks(right) && '\n' !in name
    case Item(left, key, gap, value, right) =>
      Blanks(left) && Blanks(gap) && Blanks(right) && '\n' !in key && '\n' !in value
      && '=' !in key && Solid(key) && !Remark(key) && (key == "" ==> gap == "")
      && (value != "" ==> !IsBlank(value[|value| - 1]))
      && !(key != "" && key[0] == '[' && value != "" && value[|value| - 1] == ']')
  }

  /** What a line adds: nothing, a header or an entry. */
  function Meaning(w: Spelling): seq<Line> {
    match w
    case Noise(_, _, _) => []
    case Head(_, name, _) => [Header(name)]
    case Item(_, key, _, value, _) => [Pair(key, value)]
  }

  function SpeltAll(ws: seq<Spelling>): (lines: seq<string>)
    ensures |lines| == |ws|
  {
    seq(|ws|, i requires 0 <= i < |ws| => Spelt(ws[i]))
  }

  function Meanings(ws: seq<Spelling>): seq<Line> {
    if ws == [] then [] else Meanings(ws[..|ws| - 1]) + Meaning(ws[|ws| - 1])
  }

  /** Lines with a bare line feed between each two. */
  function Joined(lines: seq<string>): string
    requires lines != []
  {
    if |lines| == 1 then lines[0] else (lines[0] + "\n") + Joined(lines[1..])
  }

  predicate AllLegible(ws: seq<Spelling>) {
    forall i :: 0 <= i < |ws| ==> Legible(ws[i])
  }

  // ---------- settings as the marks they are made of ----------

  function PairsOf(es: seq<Entry>): (ms: seq<Line>)
    ensures |ms| == |es|
  {
    seq(|es|, i requires 0 <= i < |es| => Pair(es[i].key, es[i].value))
  }

  function Marks(secs: seq<Section>): seq<Line> {
    if secs == [] then []
    else Marks(secs[..|secs| - 1]) + ([Header(secs[|secs| - 1].name)] + PairsOf(secs[|secs| - 1].entries))
  }

  /** Entries before any header belong to a section without a name. */
  function Headed(ms: seq<Line>): seq<Line> {
    if ms != [] && ms[0].Pair? then [Header("")] + ms else ms
  }

  /** Settings without their last mark. */
  function Shortened(a: seq<Section>): seq<Section>
    requires a != []
  {
    var x := a[|a| - 1];
    if x.entries == [] then a[..|a| - 1]
    else a[..|a| - 1] + [x.(entries := x.entries[..|x.entries| - 1])]
  }

  function LastMark(a: seq<Section>): Line
    requires a != []
  {
    var x := a[|a| - 1];
    if x.entries == [] then Header(x.name)
    else var e := x.entries[|x.entries| - 1]; Pair(e.key, e.value)
  }

  lemma MarksEnd(a: seq<Section>)
    ensures a == [] <==> Marks(a) == []
    ensures a != [] ==> Marks(a) == Marks(Shortened(a)) + [LastMark(a)]
  {
    if a != [] && a[|a| - 1].entries != [] {
      var es := a[|a| - 1].entries;
      assert PairsOf(es) == PairsOf(es[..|es| - 1]) + [LastMark(a)];
      assert Shortened(a)[..|a| - 1] == a[..|a| - 1];
    }
  }

  lemma SameEnd(xs: seq<Line>, x: Line, ys: seq<Line>, y: Line)
    requires xs + [x] == ys + [y]
    ensures xs == ys && x == y
  {
    assert (xs + [x])[|xs|] == x && (ys + [y])[|ys|] == y;
    assert (xs + [x])[..|xs|] == xs && (ys + [y])[..|ys|] == ys;
  }

  /** Settings are determined by their marks. */
  lemma {:induction false} MarksDetermine(a: seq<Section>, b: seq<Section>)
    requires Marks(a) == Marks(b)
    ensures a == b
    decreases |Marks(a)|
  {
    MarksEnd(a);
    MarksEnd(b);
    hide Marks;
    if a != [] && b != [] {
      SameEnd(Marks(Shortened(a)), LastMark(a), Marks(Shortened(b)), LastMark(b));
      MarksDetermine(Shortened(a), Shortened(b));
      Restored(a);
      Restored(b);
    }
  }

  lemma Restored(a: seq<Section>)
    requires a != []
    ensures var s := Shortened(a);
            match LastMark(a)
            case Skip => false
            case Header(name) => a == s + [Section(name, [])]
            case Pair(key, value) =>
              s != [] && a == s[..|s| - 1] + [s[|s| - 1].(entries := s[|s| - 1].entries + [Entry(key, value)])]
  {
    var x := a[|a| - 1];
    if x.entries != [] {
      assert x.entries == x.entries[..|x.entries| - 1] + [x.entries[|x.entries| - 1]];
      assert a == a[..|a| - 1] + [x];
    }
  }

  lemma AbsorbMarks(secs: seq<Section>, line: Line)
    ensures Marks(Absorb(secs, line)) ==
            match line
            case Skip => Marks(secs)
            case Header(_) => Marks(secs) + [line]
            case Pair(_, _) => (if secs == [] then [Header("")] else Marks(secs)) + [line]
  {
    var after := Absorb(secs, line);
    MarksEnd(after);
    if line.Header? {
      assert after[..|after| - 1] == secs;
    } else if line.Pair? {
      if secs == [] {
        assert Shortened(after) == [Section("", [])];
        assert [Section("", [])][..0] == [];
      } else {
        assert Shortened(after) == secs;
      }
    }
  }

  // ---------- a spelt line is read as what it means ----------

  lemma BlankIsSpace(c: char)
    ensures IsBlank(c) ==> IsSpace(c) && c != '\n' && c != '='
    ensures IsSpace(c) && c != '\n' ==> IsBlank(c)
  {
  }

  lemma {:induction false} TrimLeftOf(left: string, s: string)
    requires Blanks(left) && (s != "" ==> !IsSpace(s[0]))
    ensures TrimLeft(left + s) == s
  {
    hide IsSpace, IsBlank;
    if left == "" {
      assert left + s == s;
    } else {
      BlankIsSpace(left[0]);
      assert (left + s)[1..] == left[1..] + s;
      TrimLeftOf(left[1..], s);
    }
  }

  lemma {:induction false} TrimRightOf(s: string, right: string)
    requires Blanks(right) && (s != "" ==> !IsSpace(s[|s| - 1]))
    ensures TrimRight(s + right) == s
  {
    hide IsSpace, IsBlank;
    if right == "" {
      assert s + right == s;
    } else {
      var n := |right| - 1;
      BlankIsSpace(right[n]);
      assert (s + right)[..|s + right| - 1] == s + right[..n];
      TrimRightOf(s, right[..n]);
    }
  }

  lemma SolidIsTrimmed(s: string)
    requires '\n' !in s
    ensures Solid(s) <==> Trimmed(s)
    ensures s != "" ==> (IsBlank(s[0]) <==> IsSpace(s[0])) && (IsBlank(s[|s| - 1]) <==> IsSpace(s[|s| - 1]))
  {
    hide IsBlank, IsSpace;
    if s != "" {
      BlankIsSpace(s[0]);
      BlankIsSpace(s[|s| - 1]);
    }
  }

  lemma TrimOf(left: string, body: string, right: string)
    requires Blanks(left) && Blanks(right) && Trimmed(body)
    ensures Trim(left + body + right) == body
  {
    hide TrimLeft, Blanks;
    if body == "" {
      BlanksAdd(left, right);
      assert left + body + right == (left + right) + "";
      TrimLeftOf(left + right, "");
      assert TrimRight("") == "";
    } else {
      assert left + body + right == left + (body + right);
      TrimLeftOf(left, body + right);
      TrimRightOf(body, right);
    }
  }

  lemma BlanksAdd(a: string, b: string)
    requires Blanks(a) && Blanks(b)
    ensures Blanks(a + b)
  {
  }

  lemma CrIsABlank(left: string, body: string, right: string)
    requires Blanks(left) && Blanks(right) && Trimmed(body)
    ensures Trim(DropCr(left + body + right)) == body
  {
    hide Trim;
    var raw := left + body + right;
    if raw != "" && raw[|raw| - 1] == '\r' {
      if right != "" {
        assert raw[..|raw| - 1] == left + body + right[..|right| - 1];
        TrimOf(left, body, right[..|right| - 1]);
      } else {
        assert body == "";
        assert raw[..|raw| - 1] == left[..|left| - 1] + body + right;
        TrimOf(left[..|left| - 1], body, right);
      }
    } else {
      TrimOf(left, body, right);
    }
  }

  function Core(w: Spelling): string {
    match w
    case Noise(_, body, _) => body
    case Head(_, name, _) => "[" + name + "]"
    case Item(_, key, gap, value, _) => key + gap + "=" + value
  }

  lemma CoreIsTrimmed(w: Spelling)
    requires Legible(w)
    ensures Trimmed(Core(w)) && '\n' !in Core(w)
  {
    match w
    case Noise(_, body, _) => SolidIsTrimmed(body);
    case Head(_, name, _) =>
      var line := "[" + name + "]";
      assert line[0] == '[' && line[|line| - 1] == ']';
    case Item(_, key, gap, value, _) =>
      SolidIsTrimmed(key);
      SolidIsTrimmed(value);
      ItemEnds(key, gap, value);
      BlanksHoldNoLineFeed(gap);
  }

  lemma BlanksHoldNoLineFeed(s: string)
    requires Blanks(s)
    ensures '\n' !in s && '=' !in s
  {
    hide IsBlank;
    forall i | 0 <= i < |s| ensures s[i] != '\n' && s[i] != '=' {
      BlankIsSpace(s[i]);
    }
  }

  /** An entry starts like its key and ends like its value. */
  lemma ItemEnds(key: string, gap: string, value: string)
    ensures var line := key + gap + "=" + value;
            |line| > |key + gap| && line[|key + gap|] == '='
            && line[..|key + gap|] == key + gap && line[|key + gap| + 1..] == value
            && (key != "" ==> line[0] == key[0]) && (key + gap == "" ==> line[0] == '=')
            && line[|line| - 1] == if value == "" then '=' else value[|value| - 1]
  {
    var line := key + gap + "=" + value;
    assert line[..|key + gap|] == key + gap;
  }

  lemma SpeltIsCore(w: Spelling)
    requires Legible(w)
    ensures Trim(DropCr(Spelt(w))) == Core(w) && '\n' !in Spelt(w)
  {
    hide Trim, DropCr, Trimmed;
    CoreIsTrimmed(w);
    hide Solid, Bracketed, Remark;
    BlanksHoldNoLineFeed(w.left);
    BlanksHoldNoLineFeed(w.right);
    CrIsABlank(w.left, Core(w), w.right);
  }

  function Reading(w: Spelling): Line {
    match w
    case Noise(_, _, _) => Skip
    case Head(_, name, _) => Header(name)
    case Item(_, key, _, value, _) => Pair(key, value)
  }

  lemma ReadsAsMeant(w: Spelling)
    requires Legible(w)
    ensures Classify(Spelt(w)) == Reading(w)
  {
    hide Trim, DropCr, Spelt, Blanks, Solid, IndexOf;
    SpeltIsCore(w);
    match w
    case Noise(_, body, _) =>
      hide Legible;
      StrayLine(body);
    case Head(_, name, _) =>
      var line := "[" + name + "]";
      assert line[0] == '[' && line[|line| - 1] == ']' && line[1..|line| - 1] == name;
    case Item(_, key, gap, value, _) =>
      ItemEnds(key, gap, value);
      KeyOf(key, gap, value);
  }

  lemma StrayLine(body: string)
    ensures '=' !in body ==> IndexOf(body, '=') == |body|
    ensures Bracketed(body) <==> IsHeader(body)
    ensures Remark(body) <==> IsComment(body)
  {
    if IndexOf(body, '=') < |body| {
      assert body[IndexOf(body, '=')] == '=';
    }
  }

  lemma KeyOf(key: string, gap: string, value: string)
    requires '=' !in key && '\n' !in key && Blanks(gap) && Solid(key) && (key == "" ==> gap == "")
    ensures IndexOf(key + gap + "=" + value, '=') == |key + gap|
    ensures Trim(key + gap) == key
  {
    hide Trim, IndexOf;
    BlanksHoldNoLineFeed(gap);
    SolidIsTrimmed(key);
    TrimOf("", key, gap);
    assert "" + key + gap == key + gap;
    ItemEnds(key, gap, value);
    FirstIndex(key + gap + "=" + value, '=', |key + gap|);
  }

  // ---------- whole texts ----------

  lemma Absent(s: string)
    ensures '\n' !in s ==> IndexOf(s, '\n') == |s|
  {
    if IndexOf(s, '\n') < |s| {
      assert s[IndexOf(s, '\n')] == '\n';
    }
  }

  lemma {:induction false} SplitJoined(lines: seq<string>)
    requires lines != [] && forall l :: l in lines ==> '\n' !in l
    ensures SplitLines(Joined(lines)) == lines
  {
    var l := lines[0];
    if |lines| == 1 {
      assert lines == [l];
      Absent(l);
    } else {
      var more := Joined(lines[1..]);
      var text := (l + "\n") + more;
      assert text[|l|] == '\n' && '\n' !in l && text[..|l|] == l;
      FirstIndex(text, '\n', |l|);
      assert text[..|l|] == l && text[|l| + 1..] == more;
      SplitJoined(lines[1..]);
      assert lines == [l] + lines[1..];
    }
  }

  lemma {:induction false} ReadAll(ws: seq<Spelling>)
    requires AllLegible(ws)
    ensures Marks(ReadLines([], SpeltAll(ws))) == Headed(Meanings(ws))
    decreases |ws|
  {
    hide Classify, Absorb, Legible, Spelt;
    if ws == [] {
      assert SpeltAll(ws) == [];
    } else {
      var n := |ws| - 1;
      assert SpeltAll(ws)[..n] == SpeltAll(ws[..n]);
      hide Marks, Headed, SpeltAll, Meaning;
      ReadAll(ws[..n]);
      ReadOneMore(ReadLines([], SpeltAll(ws[..n])), Meanings(ws[..n]), ws[n]);
    }
  }

  lemma ReadOneMore(secs: seq<Section>, ms: seq<Line>, w: Spelling)
    requires Marks(secs) == Headed(ms) && Legible(w)
    ensures Marks(Absorb(secs, Classify(Spelt(w)))) == Headed(ms + Meaning(w))
  {
    hide Legible, Spelt, Headed, Absorb, Classify;
    ReadsAsMeant(w);
    AbsorbMarks(secs, Reading(w));
    MarksEnd(secs);
    hide Marks;
    HeadedGrows(ms, Reading(w));
  }

  lemma HeadedGrows(ms: seq<Line>, m: Line)
    ensures ms == [] <==> Headed(ms) == []
    ensures ms != [] ==> Headed(ms + [m]) == Headed(ms) + [m]
    ensures ms == [] ==> Headed(ms + [m]) == if m.Pair? then [Header(""), m] else [m]
    ensures ms + [] == ms
  {
  }

  lemma LinesHoldNoLineFeed(ws: seq<Spelling>)
    requires AllLegible(ws)
    ensures forall l :: l in SpeltAll(ws) ==> '\n' !in l
  {
    hide Legible, Spelt;
    forall i | 0 <= i < |ws| ensures '\n' !in Spelt(ws[i]) {
      SpeltIsCore(ws[i]);
    }
  }

  /** A text of legible lines is read as the headers and entries it spells, in order and with
    * repetitions; entries before any header go under an unnamed section. */
  lemma TextSays(ws: seq<Spelling>, data: seq<byte>)
    requires ws != [] && AllLegible(ws) && FromLatin1(data) == Joined(SpeltAll(ws))
    ensures Marks(Parse(data)) == Headed(Meanings(ws))
  {
    hide AllLegible, ReadLines, SplitLines, Joined, FromLatin1;
    LinesHoldNoLineFeed(ws);
    SplitJoined(SpeltAll(ws));
    ReadAll(ws);
  }

  /** Two texts that spell the same headers and entries are read alike, whatever carriage
    * returns, blanks, comments, stray lines or last terminator either has. */
  lemma SpellingIsIrrelevant(vs: seq<Spelling>, ws: seq<Spelling>, a: seq<byte>, b: seq<byte>)
    requires vs != [] && AllLegible(vs) && FromLatin1(a) == Joined(SpeltAll(vs))
    requires ws != [] && AllLegible(ws) && FromLatin1(b) == Joined(SpeltAll(ws))
    requires Meanings(vs) == Meanings(ws)
    ensures Parse(a) == Parse(b)
  {
    hide Parse, FromLatin1, Joined;
    TextSays(vs, a);
    TextSays(ws, b);
    MarksDetermine(Parse(a), Parse(b));
  }

  // ---------- every text is made of legible lines ----------

  lemma OneMoreBlank(c: char, s: string)
    requires Blanks(s) && IsSpace(c) && c != '\n'
    ensures Blanks([c] + s) && Blanks(s + [c])
  {
    hide IsBlank, IsSpace;
    BlankIsSpace(c);
  }

  lemma Regroup(s: string, left: string, t: string)
    requires s != "" && s[1..] == left + t
    ensures s == ([s[0]] + left) + t
  {
  }

  lemma RegroupEnd(s: string, t: string, right: string)
    requires s != "" && s[..|s| - 1] == t + right
    ensures s == t + (right + [s[|s| - 1]])
  {
  }

  lemma {:induction false} LeftBlanks(s: string) returns (left: string)
    requires '\n' !in s
    ensures Blanks(left) && s == left + TrimLeft(s)
  {
    hide IsSpace;
    if s != "" && IsSpace(s[0]) {
      var more := LeftBlanks(s[1..]);
      hide Blanks;
      OneMoreBlank(s[0], more);
      Regroup(s, more, TrimLeft(s[1..]));
      left := [s[0]] + more;
    } else {
      left := "";
    }
  }

  lemma {:induction false} RightBlanks(s: string) returns (right: string)
    requires '\n' !in s
    ensures Blanks(right) && s == TrimRight(s) + right
  {
    hide IsSpace;
    if s != "" && IsSpace(s[|s| - 1]) {
      var n := |s| - 1;
      var more := RightBlanks(s[..n]);
      hide Blanks;
      OneMoreBlank(s[n], more);
      RegroupEnd(s, TrimRight(s[..n]), more);
      right := more + [s[n]];
    } else {
      right := "";
    }
  }

  lemma LineIsLegible(raw: string) returns (w: Spelling)
    requires '\n' !in raw
    ensures Legible(w) && Spelt(w) == raw
  {
    hide TrimLeft, TrimRight, Blanks, Solid;
    var left := LeftBlanks(raw);
    var inner := TrimLeft(raw);
    assert '\n' !in inner;
    var right := RightBlanks(inner);
    var body := TrimRight(inner);
    assert '\n' !in body && Trimmed(body) && raw == left + body + right;
    SolidIsTrimmed(body);
    if body == "" || Remark(body) || ('=' !in body && !Bracketed(body)) {
      w := Noise(left, body, right);
    } else if Bracketed(body) {
      w := Head(left, body[1..|body| - 1], right);
      assert body == "[" + body[1..|body| - 1] + "]";
    } else {
      w := BodyIsItem(left, body, right);
    }
  }

  lemma BodyIsItem(left: string, body: string, right: string) returns (w: Spelling)
    requires Blanks(left) && Blanks(right) && '\n' !in body && Solid(body) && '=' in body && !Remark(body) && !Bracketed(body)
    ensures Legible(w) && Spelt(w) == left + body + right
  {
    hide TrimRight, Blanks, IndexOf, IsBlank, IsSpace;
    var eq := IndexOf(body, '=');
    var front, value := body[..eq], body[eq + 1..];
    var gap := RightBlanks(front);
    var key := TrimRight(front);
    assert body == key + gap + "=" + value;
    if eq > 0 {
      SolidIsTrimmed(front);
      KeepsFirst(front);
      SolidIsTrimmed(key);
    }
    assert value != "" ==> value[|value| - 1] == body[|body| - 1];
    w := Item(left, key, gap, value, right);
  }

  /** Every text is made of legible lines, so TextSays tells what every text is read as. */
  lemma EveryTextIsSpelt(data: seq<byte>) returns (ws: seq<Spelling>)
    ensures ws != [] && AllLegible(ws) && FromLatin1(data) == Joined(SpeltAll(ws))
  {
    hide Joined, SplitLines;
    var lines := SplitLines(FromLatin1(data));
    JoinedOfSplit(FromLatin1(data));
    ws := [];
    for i := 0 to |lines|
      invariant |ws| == i && AllLegible(ws) && SpeltAll(ws) == lines[..i]
    {
      var w := LineIsLegible(lines[i]);
      hide Legible, Spelt;
      ws := ws + [w];
    }
    assert lines[..|lines|] == lines;
  }

  lemma {:induction false} JoinedOfSplit(text: string)
    ensures SplitLines(text) != [] && Joined(SplitLines(text)) == text
    decreases |text|
  {
    hide Joined, IndexOf;
    var i := IndexOf(text, '\n');
    if i < |text| {
      JoinedOfSplit(text[i + 1..]);
      JoinedStep(text, i, SplitLines(text[i + 1..]));
    } else {
      JoinedOne(text);
    }
  }

  lemma JoinedOne(line: string)
    ensures Joined([line]) == line
  {
  }

  lemma JoinedStep(text: string, i: nat, more: seq<string>)
    requires i < |text| && text[i] == '\n' && more != [] && Joined(more) == text[i + 1..]
    ensures Joined([text[..i]] + more) == text
  {
    var lines := [text[..i]] + more;
    assert lines[1..] == more && lines[0] == text[..i] && |lines| > 1;
    assert Joined(lines) == (text[..i] + "\n") + Joined(more);
    hide Joined;
    assert text == (text[..i] + "\n") + text[i + 1..];
  }

  // ---------- bare line feeds ----------

  function PlainItems(es: seq<Entry>): (ws: seq<Spelling>)
    ensures |ws| == |es|
  {
    seq(|es|, i requires 0 <= i < |es| => Item("", es[i].key, "", es[i].value, ""))
  }

  /** The printed lines of settings, as spellings. */
  function Plainly(secs: seq<Section>): seq<Spelling> {
    if secs == [] then [Noise("", "", "")]
    else
      var s := secs[|secs| - 1];
      Plainly(secs[..|secs| - 1]) + [Head("", s.name, "")] + PlainItems(s.entries) + [Noise("", "", "")]
  }

  lemma {:induction false} MeaningsOfSum(vs: seq<Spelling>, ws: seq<Spelling>)
    ensures Meanings(vs + ws) == Meanings(vs) + Meanings(ws)
    decreases |ws|
  {
    hide Meaning;
    if ws == [] {
      assert vs + ws == vs;
    } else {
      var n := |ws| - 1;
      assert (vs + ws)[..|vs + ws| - 1] == vs + ws[..n];
      MeaningsOfSum(vs, ws[..n]);
      assert Meanings(vs + ws) == Meanings(vs + ws[..n]) + Meaning(ws[n]);
      AssociateLines(Meanings(vs), Meanings(ws[..n]), Meaning(ws[n]));
    }
  }

  lemma AssociateLines(a: seq<Line>, b: seq<Line>, c: seq<Line>)
    ensures a + (b + c) == (a + b) + c
  {
  }

  lemma {:induction false} MeaningsOfItems(es: seq<Entry>)
    ensures Meanings(PlainItems(es)) == PairsOf(es)
    decreases |es|
  {
    if es != [] {
      var n := |es| - 1;
      assert PlainItems(es)[..n] == PlainItems(es[..n]);
      MeaningsOfItems(es[..n]);
      assert PairsOf(es) == PairsOf(es[..n]) + [Pair(es[n].key, es[n].value)];
    }
  }

  lemma PlainEntry(e: Entry)
    requires WellFormedEntry(e)
    ensures Legible(Item("", e.key, "", e.value, "")) && Spelt(Item("", e.key, "", e.value, "")) == EntryText(e)
  {
    hide IsBlank, IsSpace, TrimRight, Latin1, EntryText;
    NothingAround(e);
    TextEnds(e);
    SolidIsTrimmed(e.key);
    SolidIsTrimmed(e.value);
    TrimmedValueEnds(e.value);
  }

  lemma NothingAround(e: Entry)
    ensures "" + (e.key + "" + "=" + e.value) + "" == EntryText(e)
  {
    assert e.key + "" == e.key;
  }

  lemma TextEnds(e: Entry)
    ensures var text := EntryText(e);
            |text| > |e.key| && ('\n' !in text ==> '\n' !in e.key && '\n' !in e.value)
            && (e.key != "" ==> text[0] == e.key[0])
            && (e.key != "" && e.value != "" ==> |text| >= 2 && text[|text| - 1] == e.value[|e.value| - 1])
  {
    var text := EntryText(e);
    assert text[..|e.key|] == e.key && text[|e.key| + 1..] == e.value;
  }

  lemma TrimmedValueEnds(v: string)
    requires TrimRight(v) == v
    ensures v != "" ==> !IsSpace(v[|v| - 1])
  {
  }

  lemma PlainSection(s: Section)
    requires WellFormedSection(s)
    ensures Legible(Head("", s.name, "")) && Spelt(Head("", s.name, "")) == HeaderText(s.name)
    ensures AllLegible(PlainItems(s.entries)) && SpeltAll(PlainItems(s.entries)) == EntryLines(s.entries)
  {
    hide WellFormedEntry;
    forall i | 0 <= i < |s.entries|
      ensures Legible(PlainItems(s.entries)[i]) && Spelt(PlainItems(s.entries)[i]) == EntryText(s.entries[i]) {
      PlainEntry(s.entries[i]);
    }
  }

  lemma SpeltOfSum(vs: seq<Spelling>, ws: seq<Spelling>)
    ensures SpeltAll(vs + ws) == SpeltAll(vs) + SpeltAll(ws)
  {
  }

  lemma {:induction false} PlainlySays(secs: seq<Section>)
    requires WellFormed(secs)
    ensures AllLegible(Plainly(secs)) && SpeltAll(Plainly(secs)) == Lines(secs) && Meanings(Plainly(secs)) == Marks(secs)
    decreases |secs|
  {
    hide Legible, Spelt, WellFormedSection, PlainItems, EntryLines, PairsOf, HeaderText, Headed;
    PlainBlank();
    if secs == [] {
      OneSpelt(Noise("", "", ""));
    } else {
      var n := |secs| - 1;
      PlainlySays(secs[..n]);
      assert WellFormedSection(secs[n]);
      hide AllLegible, SpeltAll;
      MoreSpelt(Plainly(secs[..n]), Lines(secs[..n]), secs[n]);
      MoreSays(Plainly(secs[..n]), Marks(secs[..n]), secs[n]);
    }
  }

  lemma PlainBlank()
    ensures Legible(Noise("", "", "")) && Spelt(Noise("", "", "")) == ""
  {
  }

  lemma MoreSpelt(ws: seq<Spelling>, lines: seq<string>, s: Section)
    requires WellFormedSection(s) && AllLegible(ws) && SpeltAll(ws) == lines
    ensures var all := ws + [Head("", s.name, "")] + PlainItems(s.entries) + [Noise("", "", "")];
            AllLegible(all) && SpeltAll(all) == lines + [HeaderText(s.name)] + EntryLines(s.entries) + [""]
  {
    hide Legible, Spelt, WellFormedSection, PlainItems, EntryLines, HeaderText;
    PlainBlank();
    PlainSection(s);
    SpeltOfSum(ws, [Head("", s.name, "")]);
    SpeltOfSum(ws + [Head("", s.name, "")], PlainItems(s.entries));
    SpeltOfSum(ws + [Head("", s.name, "")] + PlainItems(s.entries), [Noise("", "", "")]);
    hide SpeltAll;
    OneSpelt(Head("", s.name, ""));
    OneSpelt(Noise("", "", ""));
  }

  lemma OneSpelt(w: Spelling)
    ensures SpeltAll([w]) == [Spelt(w)] && Meanings([w]) == Meaning(w)
  {
    assert [w][..0] == [];
  }

  lemma MoreSays(ws: seq<Spelling>, ms: seq<Line>, s: Section)
    requires Meanings(ws) == ms
    ensures Meanings(ws + [Head("", s.name, "")] + PlainItems(s.entries) + [Noise("", "", "")])
            == ms + ([Header(s.name)] + PairsOf(s.entries))
  {
    hide Meanings, PlainItems, PairsOf, Spelt;
    MeaningsOfItems(s.entries);
    OneSpelt(Head("", s.name, ""));
    OneSpelt(Noise("", "", ""));
    MeaningsOfSum(ws, [Head("", s.name, "")]);
    MeaningsOfSum(ws + [Head("", s.name, "")], PlainItems(s.entries));
    MeaningsOfSum(ws + [Head("", s.name, "")] + PlainItems(s.entries), [Noise("", "", "")]);
  }

  /** Well-formed settings written with bare line feeds, with or without a last one. */
  lemma BareLineFeeds(secs: seq<Section>, terminated: bool, data: seq<byte>)
    requires WellFormed(secs) && FromLatin1(data) == Joined(Lines(secs) + if terminated then [""] else [])
    ensures Parse(data) == secs
  {
    hide Parse, FromLatin1, Joined, Lines;
    hide AllLegible, SpeltAll, Meanings, Marks, Headed;
    PlainlySays(secs);
    var ws := Plainly(secs);
    assert Lines(secs) + [] == Lines(secs);
    if terminated {
      ws := BlankAtTheEnd(ws);
    }
    TextSays(ws, data);
    MarksStartWithHeader(secs);
    MarksDetermine(Parse(data), secs);
  }

  lemma BlankAtTheEnd(ws: seq<Spelling>) returns (more: seq<Spelling>)
    requires AllLegible(ws)
    ensures more != [] && AllLegible(more) && SpeltAll(more) == SpeltAll(ws) + [""] && Meanings(more) == Meanings(ws)
  {
    hide Legible, Spelt, Meanings;
    PlainBlank();
    more := ws + [Noise("", "", "")];
    OneSpelt(Noise("", "", ""));
    SpeltOfSum(ws, [Noise("", "", "")]);
    MeaningsOfSum(ws, [Noise("", "", "")]);
    assert Meanings(ws) + [] == Meanings(ws);
  }

  lemma {:induction false} MarksStartWithHeader(secs: seq<Section>)
    ensures Headed(Marks(secs)) == Marks(secs)
    ensures secs != [] ==> Marks(secs) != [] && Marks(secs)[0].Header?
    decreases |secs|
  {
    if secs != [] {
      MarksStartWithHeader(secs[..|secs| - 1]);
    }
  }

  // ---------- what the printer writes ----------

  /** One byte per character, as the reader takes it; what Latin-1 has not got is a question mark. */
  lemma Latin1Bytes(s: string, data: seq<byte>, i: nat)
    ensures i < |s| ==> ToLatin1(s)[i] as int == if s[i] as int < 256 then s[i] as int else 63
    ensures i < |data| ==> FromLatin1(data)[i] as int == data[i] as int
  {
  }

  lemma Latin1OfSum(a: string, b: string)
    ensures ToLatin1(a + b) == ToLatin1(a) + ToLatin1(b)
  {
  }

  lemma TerminateMore(lines: seq<string>, line: string)
    ensures Terminate(lines + [line]) == Terminate(lines) + (line + "\r\n")
  {
    assert (lines + [line])[..|lines|] == lines;
  }

  lemma LinesOfMore(secs: seq<Section>, s: Section)
    ensures Lines(secs + [s]) == Lines(secs) + [HeaderText(s.name)] + EntryLines(s.entries) + [""]
  {
    assert (secs + [s])[..|secs|] == secs;
  }

  /** The printed text starts with an empty line; a section adds its bracketed name and an
    * empty line, and an entry goes just before that empty line. Lines end in CR LF. */
  lemma PrintedLayout(secs: seq<Section>, name: string, es: seq<Entry>, e: Entry) returns (front: seq<byte>)
    ensures Serialise([]) == [13, 10]
    ensures Serialise(secs + [Section(name, [])]) == Serialise(secs) + (ToLatin1("[" + name + "]") + [13, 10]) + [13, 10]
    ensures Serialise(secs + [Section(name, es)]) == front + [13, 10]
    ensures Serialise(secs + [Section(name, es + [e])]) == front + (ToLatin1(e.key + "=" + e.value) + [13, 10]) + [13, 10]
  {
    hide Lines, Terminate, EntryText, EntryLines;
    assert Lines([]) == [] + [""] && Terminate([]) == "" by {
      NothingPrinted();
    }
    TerminatedBytes([], "");
    LinesOfMore(secs, Section(name, []));
    LinesOfMore(secs, Section(name, es));
    LinesOfMore(secs, Section(name, es + [e]));
    EntriesPrinted(es, e);
    var head := Lines(secs) + [HeaderText(name)];
    TerminatedBytes(Lines(secs), HeaderText(name));
    TerminatedBytes(head, "");
    assert head + [] == head;
    TerminatedBytes(head + EntryLines(es), "");
    TerminatedBytes(head + EntryLines(es), EntryText(e));
    TerminatedBytes(head + EntryLines(es) + [EntryText(e)], "");
    assert head + EntryLines(es + [e]) == head + EntryLines(es) + [EntryText(e)];
    hide ToLatin1;
    front := ToLatin1(Terminate(head + EntryLines(es)));
    EntryIsKeyAndValue(e);
  }

  lemma EntryIsKeyAndValue(e: Entry)
    ensures EntryText(e) == e.key + "=" + e.value
  {
  }

  lemma NothingPrinted()
    ensures Lines([]) == [""] && Terminate([]) == ""
  {
  }

  lemma EntriesPrinted(es: seq<Entry>, e: Entry)
    ensures EntryLines([]) == [] && EntryLines(es + [e]) == EntryLines(es) + [EntryText(e)]
  {
  }

  lemma TerminatedBytes(lines: seq<string>, line: string)
    ensures ToLatin1(Terminate(lines + [line])) == ToLatin1(Terminate(lines)) + (ToLatin1(line) + [13, 10])
    ensures ToLatin1("") == []
  {
    hide Terminate;
    TerminateMore(lines, line);
    Latin1OfSum(Terminate(lines), line + "\r\n");
    Latin1OfSum(line, "\r\n");
    assert ToLatin1("\r\n") == [13, 10];
  }
}
