/** The body of the load request: options packed into words, strings of any length in front
  * of a fixed tail. Main result: the body determines everything the options make visible,
  * and nothing else.
  */
module LoadExt {
  import opened BeIo
  import opened Wrappers

  const WORD: nat := 0x1_0000_0000

  /** Texts are their UTF-8 bytes. */
  datatype Text = Text(bytes: seq<byte>)

  datatype DebugFlags = DebugFlags(
    useElfPriority: bool, useElfStack: bool, enableDebugModule: bool,
    disablePpuDebug: bool, disableSpuDebug: bool, waitForBdvd: bool)

  datatype ExtraOptions = ExtraOptions(
    lv2ExceptionHandler: bool, remotePlay: bool, gcmDebug: bool, loadLibprof: bool, coreDump: bool,
    remotePlayAvc: bool, smartImageCapture: bool, memoryAccessTrap: bool, gameAttribute: byte, patchBoot: bool)

  datatype Options = Options(
    priority: u32, stackSize: u32, cmdline: seq<byte>, homeDir: seq<byte>, debug: DebugFlags,
    enableExtraOptions: bool, extra: ExtraOptions, coreDumpLocation: u64,
    rsxProfilingTool: bool, highMemoryFootprint: bool, gcmCaptureMode: bool)

  // ---------- texts ----------

  const APP_HOME: seq<byte> := [47, 97, 112, 112, 95, 104, 111, 109, 101, 47]
  const DEV: seq<byte> := [47, 100, 101, 118, 95]
  const HOST_ROOT: seq<byte> := [47, 104, 111, 115, 116, 95, 114, 111, 111, 116, 47]
  const HOME: seq<byte> := [72, 79, 77, 69, 61]
  const SLASH: byte := 47

  function FileName(path: seq<byte>): (name: seq<byte>)
    ensures SLASH !in name && |name| <= |path| && path[|path| - |name|..] == name
    ensures |name| < |path| ==> path[|path| - |name| - 1] == SLASH
  {
    if path == [] || path[|path| - 1] == SLASH then []
    else FileName(path[..|path| - 1]) + [path[|path| - 1]]
  }

  /** The path the console opens: its own paths stay, a host path keeps its file name. */
  function WirePath(file: seq<byte>): seq<byte> {
    if APP_HOME <= file || DEV <= file || HOST_ROOT <= file then file else APP_HOME + FileName(file)
  }

  predicate IsSpace(c: byte) {
    c == 32 || (9 <= c <= 13)
  }

  /** How far the first run without blanks reaches. */
  function WordLength(s: seq<byte>): (n: nat)
    ensures n <= |s| && (forall i :: 0 <= i < n ==> !IsSpace(s[i])) && (n < |s| ==> IsSpace(s[n]))
  {
    if s == [] || IsSpace(s[0]) then 0 else 1 + WordLength(s[1..])
  }

  /** The command line cut at blanks, empty pieces skipped. */
  function Words(s: seq<byte>): seq<Text>
    decreases |s|
  {
    if s == [] then []
    else if IsSpace(s[0]) then Words(s[1..])
    else [Text(s[..WordLength(s)])] + Words(s[WordLength(s)..])
  }

  function Environment(homeDir: seq<byte>): seq<Text> {
    if homeDir == [] then [] else [Text(HOME + homeDir)]
  }

  predicate AllNulFree(ts: seq<Text>) {
    forall i :: 0 <= i < |ts| ==> 0 !in ts[i].bytes
  }

  lemma {:induction false} WordsAreNulFree(s: seq<byte>)
    requires 0 !in s
    ensures AllNulFree(Words(s))
    decreases |s|
  {
    if s != [] {
      if IsSpace(s[0]) {
        WordsAreNulFree(s[1..]);
      } else {
        WordsAreNulFree(s[WordLength(s)..]);
      }
    }
  }

  function Concatenated(ts: seq<Text>): seq<byte> {
    if ts == [] then [] else ts[0].bytes + Concatenated(ts[1..])
  }

  function NonBlank(s: seq<byte>): seq<byte> {
    if s == [] then [] else (if IsSpace(s[0]) then [] else [s[0]]) + NonBlank(s[1..])
  }

  lemma {:induction false} NonBlankOfSum(a: seq<byte>, b: seq<byte>)
    ensures NonBlank(a + b) == NonBlank(a) + NonBlank(b)
  {
    if a == [] {
      assert a + b == b;
    } else {
      assert (a + b)[1..] == a[1..] + b;
      NonBlankOfSum(a[1..], b);
    }
  }

  lemma {:induction false} NonBlankOfWord(w: seq<byte>)
    requires forall i :: 0 <= i < |w| ==> !IsSpace(w[i])
    ensures NonBlank(w) == w
  {
    if w != [] {
      NonBlankOfWord(w[1..]);
    }
  }

  /** The pieces are non-empty, hold no blank, and together spell the rest of the line. */
  lemma {:induction false} WordsSpellTheLine(s: seq<byte>)
    ensures Concatenated(Words(s)) == NonBlank(s)
    ensures forall i :: 0 <= i < |Words(s)| ==> Words(s)[i].bytes != [] && NonBlank(Words(s)[i].bytes) == Words(s)[i].bytes
    decreases |s|
  {
    if s != [] {
      if IsSpace(s[0]) {
        WordsSpellTheLine(s[1..]);
      } else {
        var n := WordLength(s);
        assert s == s[..n] + s[n..];
        NonBlankOfSum(s[..n], s[n..]);
        NonBlankOfWord(s[..n]);
        WordsSpellTheLine(s[n..]);
      }
    }
  }

  function Joined(ts: seq<Text>): seq<byte> {
    if ts == [] then [] else ts[0].bytes + [32] + Joined(ts[1..])
  }

  lemma {:induction false} WordLengthOf(w: seq<byte>, rest: seq<byte>)
    requires (forall i :: 0 <= i < |w| ==> !IsSpace(w[i])) && rest != [] && IsSpace(rest[0])
    ensures WordLength(w + rest) == |w|
  {
    if w != [] {
      assert (w + rest)[1..] == w[1..] + rest;
      WordLengthOf(w[1..], rest);
    } else {
      assert w + rest == rest;
    }
  }

  /** Arguments that hold no blank come back from a command line that joins them. */
  lemma {:induction false} WordsOfJoined(ts: seq<Text>)
    requires forall k :: 0 <= k < |ts| ==> ts[k].bytes != [] && NonBlank(ts[k].bytes) == ts[k].bytes
    ensures Words(Joined(ts)) == ts
    decreases |ts|
  {
    if ts != [] {
      var w, rest := ts[0].bytes, [32] + Joined(ts[1..]);
      NonBlankHasNone(w);
      assert Joined(ts) == w + rest;
      WordLengthOf(w, rest);
      assert (w + rest)[..|w|] == w && (w + rest)[|w|..] == rest;
      assert rest[1..] == Joined(ts[1..]);
      WordsOfJoined(ts[1..]);
      assert Words(rest) == Words(rest[1..]);
      assert [Text(w)] + ts[1..] == ts;
    }
  }

  lemma {:induction false} NonBlankIsShorter(s: seq<byte>)
    ensures |NonBlank(s)| <= |s|
  {
    if s != [] {
      NonBlankIsShorter(s[1..]);
    }
  }

  lemma {:induction false} NonBlankHasNone(w: seq<byte>)
    requires NonBlank(w) == w
    ensures forall i :: 0 <= i < |w| ==> !IsSpace(w[i])
  {
    if w != [] {
      NonBlankIsShorter(w[1..]);
      assert NonBlank(w)[1..] == w[1..];
      NonBlankHasNone(w[1..]);
    }
  }

  lemma {:induction false} FileNameIsNulFree(file: seq<byte>)
    requires 0 !in file
    ensures 0 !in FileName(file)
  {
    if file != [] {
      FileNameIsNulFree(file[..|file| - 1]);
    }
  }

  lemma AppHomeIsNulFree(name: seq<byte>)
    requires 0 !in name
    ensures 0 !in APP_HOME + name
  {
    assert forall i :: 0 <= i < 10 ==> APP_HOME[i] != 0;
  }

  lemma WirePathIsNulFree(file: seq<byte>)
    requires 0 !in file
    ensures 0 !in WirePath(file)
  {
    hide FileName, APP_HOME, DEV, HOST_ROOT;
    FileNameIsNulFree(file);
    AppHomeIsNulFree(FileName(file));
  }

  // ---------- packed words ----------

  function Bit(on: bool, mask: nat): nat {
    if on then mask else 0
  }

  function IsSet(v: nat, mask: nat): bool
    requires mask > 0
  {
    v / mask % 2 == 1
  }

  function DebugWord(d: DebugFlags): (w: u32) {
    Bit(d.enableDebugModule, 0x1) + Bit(d.useElfPriority, 0x100) + Bit(d.useElfStack, 0x200)
    + Bit(d.waitForBdvd, 0x2000) + Bit(d.disablePpuDebug, 0x1_0000) + Bit(d.disableSpuDebug, 0x2_0000)
  }

  function ExtraWord(x: ExtraOptions): (w: u64) {
    Bit(x.lv2ExceptionHandler, 0x1) + Bit(x.remotePlay, 0x2) + Bit(x.gcmDebug, 0x4) + Bit(x.loadLibprof, 0x8)
    + Bit(x.coreDump, 0x10) + Bit(x.remotePlayAvc, 0x20) + Bit(x.smartImageCapture, 0x40)
    + Bit(x.memoryAccessTrap, 0x80) + x.gameAttribute % 16 * 0x100 + Bit(x.patchBoot, 0x1000)
  }

  /** Or-ing in one more bit. */
  function Or(v: nat, mask: nat): (w: nat)
    requires mask > 0
  {
    if IsSet(v, mask) then v else v + mask
  }

  function UnpackDebug(w: u32): DebugFlags {
    DebugFlags(IsSet(w, 0x100), IsSet(w, 0x200), IsSet(w, 0x1), IsSet(w, 0x1_0000), IsSet(w, 0x2_0000), IsSet(w, 0x2000))
  }

  function UnpackExtra(w: u64): ExtraOptions {
    ExtraOptions(IsSet(w, 0x1), IsSet(w, 0x2), IsSet(w, 0x4), IsSet(w, 0x8), IsSet(w, 0x10), IsSet(w, 0x20),
                 IsSet(w, 0x40), IsSet(w, 0x80), w / 0x100 % 16, IsSet(w, 0x1000))
  }

  /** One hexadecimal digit of flags. */
  function Digit(a: bool, b: bool, c: bool, d: bool): (n: nat)
    ensures n < 16
    ensures IsSet(n, 1) == a && IsSet(n, 2) == b && IsSet(n, 4) == c && IsSet(n, 8) == d
  {
    Bit(a, 1) + Bit(b, 2) + Bit(c, 4) + Bit(d, 8)
  }

  lemma EvenShift(a: nat, b: nat)
    ensures (a + 2 * b) % 2 == a % 2
  {
  }

  lemma LowBit(n: nat, h: nat, m: nat, j: nat)
    requires n < 16 && m > 0 && 2 * m * j == 16
    ensures IsSet(n + 16 * h, m) == IsSet(n, m)
  {
    assert n == n / m * m + n % m;
    assert 16 * h == 2 * (j * h) * m;
    assert n + 16 * h == (n / m + 2 * (j * h)) * m + n % m;
    QuotientIs(n + 16 * h, m, n / m + 2 * (j * h), n % m);
    EvenShift(n / m, j * h);
  }

  lemma LowDigit(n: nat, h: nat)
    requires n < 16
    ensures (n + 16 * h) % 16 == n
    ensures IsSet(n + 16 * h, 1) == IsSet(n, 1) && IsSet(n + 16 * h, 2) == IsSet(n, 2)
    ensures IsSet(n + 16 * h, 4) == IsSet(n, 4) && IsSet(n + 16 * h, 8) == IsSet(n, 8)
  {
    hide IsSet;
    LowBit(n, h, 1, 8);
    LowBit(n, h, 2, 4);
    LowBit(n, h, 4, 2);
    LowBit(n, h, 8, 1);
  }

  /** The digits above see the word without its lowest digit. */
  lemma HighDigits(n: nat, h: nat, m: nat)
    requires n < 16 && m > 0
    ensures (n + 16 * h) / (16 * m) == h / m && IsSet(n + 16 * h, 16 * m) == IsSet(h, m)
  {
    assert h == h / m * m + h % m;
    assert 16 * h == h / m * (16 * m) + 16 * (h % m);
    QuotientIs(n + 16 * h, 16 * m, h / m, n + 16 * (h % m));
  }

  lemma DebugDigits(d: DebugFlags)
    ensures DebugWord(d) ==
            Digit(d.enableDebugModule, false, false, false)
            + 16 * (0 + 16 * (Digit(d.useElfPriority, d.useElfStack, false, false)
                              + 16 * (Digit(false, d.waitForBdvd, false, false)
                                      + 16 * Digit(d.disablePpuDebug, d.disableSpuDebug, false, false))))
  {
    hide IsSet;
  }

  lemma DebugWordUnpacks(d: DebugFlags)
    ensures UnpackDebug(DebugWord(d)) == d
  {
    hide IsSet, Digit, Bit, DebugWord;
    DebugDigits(d);
    var n0, n2 := Digit(d.enableDebugModule, false, false, false), Digit(d.useElfPriority, d.useElfStack, false, false);
    var n3, n4 := Digit(false, d.waitForBdvd, false, false), Digit(d.disablePpuDebug, d.disableSpuDebug, false, false);
    var h3 := n3 + 16 * n4;
    var h2 := n2 + 16 * h3;
    var h1 := 0 + 16 * h2;
    LowDigit(n0, h1);
    HighDigits(n0, h1, 0x10); HighDigits(0, h2, 1); LowDigit(n2, h3);
    HighDigits(n0, h1, 0x20); HighDigits(0, h2, 2);
    HighDigits(n0, h1, 0x200); HighDigits(0, h2, 0x20); HighDigits(n2, h3, 2); LowDigit(n3, n4);
    HighDigits(n0, h1, 0x1000); HighDigits(0, h2, 0x100); HighDigits(n2, h3, 0x10); HighDigits(n3, n4, 1);
    HighDigits(n0, h1, 0x2000); HighDigits(0, h2, 0x200); HighDigits(n2, h3, 0x20); HighDigits(n3, n4, 2);
  }

  lemma ExtraDigits(x: ExtraOptions)
    ensures ExtraWord(x) ==
            Digit(x.lv2ExceptionHandler, x.remotePlay, x.gcmDebug, x.loadLibprof)
            + 16 * (Digit(x.coreDump, x.remotePlayAvc, x.smartImageCapture, x.memoryAccessTrap)
                    + 16 * (x.gameAttribute % 16 + 16 * Digit(x.patchBoot, false, false, false)))
  {
    hide IsSet;
  }

  /** The attribute keeps its four low bits. */
  lemma ExtraWordUnpacks(x: ExtraOptions)
    ensures UnpackExtra(ExtraWord(x)) == x.(gameAttribute := x.gameAttribute % 16)
  {
    hide IsSet, Digit, Bit, ExtraWord;
    ExtraDigits(x);
    var n0 := Digit(x.lv2ExceptionHandler, x.remotePlay, x.gcmDebug, x.loadLibprof);
    var n1 := Digit(x.coreDump, x.remotePlayAvc, x.smartImageCapture, x.memoryAccessTrap);
    var n2, n3 := x.gameAttribute % 16, Digit(x.patchBoot, false, false, false);
    var h2 := n2 + 16 * n3;
    var h1 := n1 + 16 * h2;
    LowDigit(n0, h1);
    LowDigit(n1, h2);
    LowDigit(n2, n3);
    HighDigits(n0, h1, 1); HighDigits(n0, h1, 2); HighDigits(n0, h1, 4); HighDigits(n0, h1, 8);
    HighDigits(n0, h1, 0x10); HighDigits(n1, h2, 1);
    HighDigits(n0, h1, 0x100); HighDigits(n1, h2, 0x10); HighDigits(n2, n3, 1);
  }

  method PackDebug(d: DebugFlags) returns (w: u32)
    ensures w == DebugWord(d)
  {
    w := 0;
    if d.useElfPriority {
      w := Or(w, 0x100);
    }
    if d.useElfStack {
      w := Or(w, 0x200);
    }
    if d.enableDebugModule {
      w := Or(w, 0x1);
    }
    if d.disablePpuDebug {
      w := Or(w, 0x1_0000);
    }
    if d.disableSpuDebug {
      w := Or(w, 0x2_0000);
    }
    if d.waitForBdvd {
      w := Or(w, 0x2000);
    }
  }

  /** One `if (on) v |= mask`, the mask lying above everything set so far. */
  method OrFlag(v: nat, on: bool, mask: nat) returns (w: nat)
    requires v < mask
    ensures w == v + Bit(on, mask) < 2 * mask
  {
    w := v;
    if on {
      w := Or(w, mask);
    }
  }

  method PackExtra(x: ExtraOptions) returns (w: u64)
    ensures w == ExtraWord(x)
  {
    hide Bit;
    var v: nat := OrFlag(0, x.lv2ExceptionHandler, 0x1);
    v := OrFlag(v, x.remotePlay, 0x2);
    v := OrFlag(v, x.gcmDebug, 0x4);
    v := OrFlag(v, x.loadLibprof, 0x8);
    v := OrFlag(v, x.coreDump, 0x10);
    v := OrFlag(v, x.remotePlayAvc, 0x20);
    v := OrFlag(v, x.smartImageCapture, 0x40);
    v := OrFlag(v, x.memoryAccessTrap, 0x80);
    v := v + x.gameAttribute % 16 * 0x100;
    v := OrFlag(v, x.patchBoot, 0x1000);
    w := v;
  }

  // ---------- the body ----------

  /** What the body spells out. */
  datatype Image = Image(
    priority: u32, path: seq<byte>, argv: seq<Text>, envv: seq<Text>, debugWord: u32, stackSize: u32,
    extraWord: u64, extraOn: u64, coreDumpWord: u64, profilingWord: u64, captureWord: u64)

  function Flag(on: bool): u64 {
    if on then 1 else 0
  }

  function ImageOf(file: seq<byte>, o: Options): Image {
    Image(o.priority, WirePath(file), Words(o.cmdline), Environment(o.homeDir), DebugWord(o.debug), o.stackSize,
          if o.enableExtraOptions then ExtraWord(o.extra) else 0, Flag(o.enableExtraOptions),
          if o.extra.coreDump then o.coreDumpLocation else 0,
          Bit(o.rsxProfilingTool, 1) + Bit(o.highMemoryFootprint, 2), Flag(o.gcmCaptureMode))
  }

  function Strings(ts: seq<Text>): seq<byte> {
    if ts == [] then [] else Strings(ts[..|ts| - 1]) + (ts[|ts| - 1].bytes + [0])
  }

  function Listed(ts: seq<Text>): seq<byte> {
    BigEndian(4, |ts| % WORD) + Strings(ts)
  }

  function OptionWords(i: Image): seq<byte> {
    BigEndian(8, i.extraWord) + (BigEndian(8, i.extraOn) + (BigEndian(8, i.coreDumpWord)
    + (BigEndian(8, i.profilingWord) + (BigEndian(8, i.captureWord) + Zeros(88)))))
  }

  function Tail(i: Image): seq<byte> {
    BigEndian(4, i.debugWord) + (BigEndian(4, i.stackSize) + (BigEndian(4, 0) + (BigEndian(8, 0) + OptionWords(i))))
  }

  function Body(i: Image): seq<byte> {
    BigEndian(4, i.priority) + (i.path + [0] + (Listed(i.argv) + (Listed(i.envv) + Tail(i))))
  }

  method AppendStrings(out: ByteVector, ts: seq<Text>)
    modifies out
    ensures out.bytes == old(out.bytes) + Listed(ts)
  {
    hide BigEndian;
    out.AppendU32(|ts| % WORD);
    ghost var before := out.bytes;
    for k := 0 to |ts|
      invariant out.bytes == before + Strings(ts[..k])
    {
      assert ts[..k + 1][..k] == ts[..k];
      out.Append(ts[k].bytes);
      out.Append([0]);
    }
    assert ts[..|ts|] == ts;
  }

  method AppendTail(out: ByteVector, i: Image)
    modifies out
    ensures out.bytes == old(out.bytes) + Tail(i)
  {
    hide BigEndian, OptionWords;
    out.AppendU32(i.debugWord);
    out.AppendU32(i.stackSize);
    out.AppendU32(0);
    out.AppendU64(0);
    AppendOptionWords(out, i);
  }

  method AppendOptionWords(out: ByteVector, i: Image)
    modifies out
    ensures out.bytes == old(out.bytes) + OptionWords(i)
  {
    hide BigEndian;
    out.AppendU64(i.extraWord);
    out.AppendU64(i.extraOn);
    out.AppendU64(i.coreDumpWord);
    out.AppendU64(i.profilingWord);
    out.AppendU64(i.captureWord);
    ghost var before := out.bytes;
    var k: int := 5;
    while k <= 15
      invariant 5 <= k <= 16 && out.bytes == before + Zeros(8 * (k - 5))
    {
      ZeroWord();
      out.AppendU64(0);
      k := k + 1;
    }
  }

  lemma ZeroWord()
    ensures BigEndian(8, 0) == Zeros(8)
  {
    assert BigEndian(4, 0) == Zeros(4);
  }

  /** The builder of the load request. */
  method BuildBody(file: seq<byte>, o: Options) returns (out: ByteVector)
    ensures fresh(out) && out.bytes == Body(ImageOf(file, o))
  {
    hide Body, WirePath, Words, Bit, DebugWord, ExtraWord;
    var path := WirePath(file);
    var debugWord := PackDebug(o.debug);
    var argv := Words(o.cmdline);
    var envv := [];
    if o.homeDir != [] {
      envv := [Text(HOME + o.homeDir)];
    }
    var d0 := PackExtra(o.extra);
    var d3: nat := OrFlag(0, o.rsxProfilingTool, 0x1);
    d3 := OrFlag(d3, o.highMemoryFootprint, 0x2);
    var image := Image(o.priority, path, argv, envv, debugWord, o.stackSize,
                       if o.enableExtraOptions then d0 else 0, if o.enableExtraOptions then 1 else 0,
                       if o.extra.coreDump then o.coreDumpLocation else 0, d3, if o.gcmCaptureMode then 1 else 0);
    out := WriteBody(image);
  }

  method WriteBody(i: Image) returns (out: ByteVector)
    ensures fresh(out) && out.bytes == Body(i)
  {
    hide BigEndian, Tail, Listed;
    out := new ByteVector();
    out.AppendU32(i.priority);
    out.Append(i.path);
    out.Append([0]);
    AppendStrings(out, i.argv);
    AppendStrings(out, i.envv);
    AppendTail(out, i);
  }

  // ---------- reading it back ----------

  datatype Taken<T> = Taken(value: T, rest: seq<byte>)

  function TakeWord(b: seq<byte>): Option<Taken<u32>> {
    if |b| < 4 then None else Some(Taken(U32At(b, 0), b[4..]))
  }

  function TakeString(b: seq<byte>): (r: Option<Taken<seq<byte>>>)
    ensures r.Some? ==> |r.value.rest| < |b|
  {
    var s := CString(b);
    if |s| == |b| then None else Some(Taken(s, b[|s| + 1..]))
  }

  function TakeStrings(b: seq<byte>, n: nat): Option<Taken<seq<Text>>>
    decreases n
  {
    if n == 0 then Some(Taken([], b))
    else
      match TakeString(b)
      case None => None
      case Some(first) =>
        match TakeStrings(first.rest, n - 1)
        case None => None
        case Some(others) => Some(Taken([Text(first.value)] + others.value, others.rest))
  }

  function TakeListed(b: seq<byte>): Option<Taken<seq<Text>>> {
    match TakeWord(b)
    case None => None
    case Some(n) => TakeStrings(n.rest, n.value)
  }

  /** The five option words, after the reserved word and the version. */
  function DecodeTail(i: Image, b: seq<byte>): Option<Image> {
    if |b| != 148 then None
    else Some(i.(debugWord := U32At(b, 0), stackSize := U32At(b, 4), extraWord := U64At(b, 20), extraOn := U64At(b, 28),
                 coreDumpWord := U64At(b, 36), profilingWord := U64At(b, 44), captureWord := U64At(b, 52)))
  }

  function Decode(b: seq<byte>): Option<Image> {
    match TakeWord(b)
    case None => None
    case Some(priority) =>
      match TakeString(priority.rest)
      case None => None
      case Some(path) =>
        match TakeListed(path.rest)
        case None => None
        case Some(argv) =>
          match TakeListed(argv.rest)
          case None => None
          case Some(envv) =>
            DecodeTail(Image(priority.value, path.value, argv.value, envv.value, 0, 0, 0, 0, 0, 0, 0), envv.rest)
  }

  lemma TakeWordOf(v: u32, rest: seq<byte>)
    ensures TakeWord(BigEndian(4, v) + rest) == Some(Taken(v, rest))
  {
    hide BigEndian;
    var b := BigEndian(4, v) + rest;
    assert b[0..4] == BigEndian(4, v);
    ReadU32(b, 0, v);
  }

  lemma TakeStringOf(s: seq<byte>, rest: seq<byte>)
    requires 0 !in s
    ensures TakeString(s + [0] + rest) == Some(Taken(s, rest))
  {
    CStringOf(s, rest);
  }

  lemma StringsLast(ts: seq<Text>)
    requires ts != []
    ensures Strings(ts) == Strings(ts[..|ts| - 1]) + (ts[|ts| - 1].bytes + [0])
  {
  }

  lemma {:induction false} StringsFront(ts: seq<Text>)
    requires ts != []
    ensures Strings(ts) == ts[0].bytes + [0] + Strings(ts[1..])
  {
    var n := |ts| - 1;
    StringsLast(ts);
    if n == 0 {
      assert Strings(ts[..0]) == [] && Strings(ts[1..]) == [];
    } else {
      hide Strings;
      StringsFront(ts[..n]);
      StringsLast(ts[1..]);
      assert ts[..n][1..] == ts[1..][..n - 1] && ts[1..][n - 1] == ts[n];
      Associate(ts[0].bytes + [0], Strings(ts[1..][..n - 1]), ts[n].bytes + [0]);
    }
  }

  lemma Associate(a: seq<byte>, b: seq<byte>, c: seq<byte>)
    ensures (a + b) + c == a + (b + c)
  {
  }

  lemma {:induction false} TakeStringsOf(ts: seq<Text>, rest: seq<byte>)
    requires AllNulFree(ts)
    ensures TakeStrings(Strings(ts) + rest, |ts|) == Some(Taken(ts, rest))
    decreases |ts|
  {
    hide TakeString;
    if ts == [] {
      assert Strings(ts) + rest == rest;
    } else {
      StringsFront(ts);
      assert Strings(ts) + rest == ts[0].bytes + [0] + (Strings(ts[1..]) + rest);
      TakeStringOf(ts[0].bytes, Strings(ts[1..]) + rest);
      TakeStringsOf(ts[1..], rest);
      assert [Text(ts[0].bytes)] + ts[1..] == ts;
    }
  }

  lemma TakeListedOf(ts: seq<Text>, rest: seq<byte>)
    requires AllNulFree(ts) && |ts| < 0x1_0000_0000
    ensures TakeListed(Listed(ts) + rest) == Some(Taken(ts, rest))
  {
    hide BigEndian, TakeStrings, TakeWord, Strings;
    assert Listed(ts) + rest == BigEndian(4, |ts|) + (Strings(ts) + rest);
    TakeWordOf(|ts|, Strings(ts) + rest);
    TakeStringsOf(ts, rest);
  }

  predicate Readable(i: Image) {
    0 !in i.path && AllNulFree(i.argv) && AllNulFree(i.envv) && |i.argv| < WORD && |i.envv| < WORD
  }

  lemma OptionWordsAt(front: seq<byte>, i: Image)
    requires |front| == 20
    ensures var b := front + OptionWords(i);
            |b| == 148 && U64At(b, 20) == i.extraWord && U64At(b, 28) == i.extraOn && U64At(b, 36) == i.coreDumpWord
            && U64At(b, 44) == i.profilingWord && U64At(b, 52) == i.captureWord
  {
    hide BigEndian, Zeros;
    var b := front + OptionWords(i);
    assert b[20..28] == BigEndian(8, i.extraWord) && b[28..36] == BigEndian(8, i.extraOn);
    assert b[36..44] == BigEndian(8, i.coreDumpWord) && b[44..52] == BigEndian(8, i.profilingWord);
    assert b[52..60] == BigEndian(8, i.captureWord);
    ReadU64(b, 20, i.extraWord);
    ReadU64(b, 28, i.extraOn);
    ReadU64(b, 36, i.coreDumpWord);
    ReadU64(b, 44, i.profilingWord);
    ReadU64(b, 52, i.captureWord);
  }

  lemma DecodeTailOf(j: Image, i: Image)
    ensures DecodeTail(j, Tail(i)) ==
            Some(Image(j.priority, j.path, j.argv, j.envv, i.debugWord, i.stackSize, i.extraWord, i.extraOn,
                       i.coreDumpWord, i.profilingWord, i.captureWord))
  {
    hide BigEndian, OptionWords;
    var b := Tail(i);
    var front := BigEndian(4, i.debugWord) + (BigEndian(4, i.stackSize) + (BigEndian(4, 0) + BigEndian(8, 0)));
    assert b == front + OptionWords(i);
    OptionWordsAt(front, i);
    assert b[0..4] == BigEndian(4, i.debugWord) && b[4..8] == BigEndian(4, i.stackSize);
    ReadU32(b, 0, i.debugWord);
    ReadU32(b, 4, i.stackSize);
  }

  /** The decoder recovers the whole image, for strings of every length. */
  lemma DecodeOfBody(i: Image)
    requires Readable(i)
    ensures Decode(Body(i)) == Some(i)
  {
    hide BigEndian, TakeWord, TakeString, TakeListed, DecodeTail, Tail, Listed;
    var envv := Listed(i.envv) + Tail(i);
    var argv := Listed(i.argv) + envv;
    TakeWordOf(i.priority, i.path + [0] + argv);
    TakeStringOf(i.path, argv);
    TakeListedOf(i.argv, envv);
    TakeListedOf(i.envv, Tail(i));
    DecodeTailOf(Image(i.priority, i.path, i.argv, i.envv, 0, 0, 0, 0, 0, 0, 0), i);
  }

  // ---------- what the options make visible ----------

  /** The options as far as the console can tell: extra options only when enabled, the
    * attribute's low four bits, a dump location only with a core dump. */
  datatype Seen = Seen(
    priority: u32, stackSize: u32, path: seq<byte>, argv: seq<Text>, envv: seq<Text>, debug: DebugFlags,
    extra: Option<ExtraOptions>, coreDumpLocation: u64,
    rsxProfilingTool: bool, highMemoryFootprint: bool, gcmCaptureMode: bool)

  function SeenOf(file: seq<byte>, o: Options): Seen {
    Seen(o.priority, o.stackSize, WirePath(file), Words(o.cmdline), Environment(o.homeDir), o.debug,
         if o.enableExtraOptions then Some(o.extra.(gameAttribute := o.extra.gameAttribute % 16)) else None,
         if o.extra.coreDump then o.coreDumpLocation else 0,
         o.rsxProfilingTool, o.highMemoryFootprint, o.gcmCaptureMode)
  }

  function Unpack(i: Image): Seen {
    Seen(i.priority, i.stackSize, i.path, i.argv, i.envv, UnpackDebug(i.debugWord),
         if i.extraOn == 1 then Some(UnpackExtra(i.extraWord)) else None, i.coreDumpWord,
         IsSet(i.profilingWord, 1), IsSet(i.profilingWord, 2), i.captureWord == 1)
  }

  lemma UnpackOfImage(file: seq<byte>, o: Options)
    ensures Unpack(ImageOf(file, o)) == SeenOf(file, o)
  {
    hide WirePath, Words, Environment, UnpackDebug, UnpackExtra, DebugWord, ExtraWord;
    DebugWordUnpacks(o.debug);
    ExtraWordUnpacks(o.extra);
  }

  lemma ImageOfSeen(file: seq<byte>, o: Options, file': seq<byte>, o': Options)
    requires SeenOf(file, o) == SeenOf(file', o')
    ensures ImageOf(file, o) == ImageOf(file', o')
  {
    hide WirePath, Words, Environment, DebugWord, ExtraWord;
    MasksAttribute(o.extra);
    MasksAttribute(o'.extra);
  }

  lemma MasksAttribute(x: ExtraOptions)
    ensures ExtraWord(x) == ExtraWord(x.(gameAttribute := x.gameAttribute % 16))
  {
    hide Bit;
  }

  predicate Plain(file: seq<byte>, o: Options) {
    0 !in file && 0 !in o.cmdline && 0 !in o.homeDir && |Words(o.cmdline)| < WORD
  }

  lemma EnvironmentIsNulFree(homeDir: seq<byte>)
    requires 0 !in homeDir
    ensures AllNulFree(Environment(homeDir)) && |Environment(homeDir)| <= 1
  {
  }

  lemma ImageIsReadable(file: seq<byte>, o: Options)
    requires Plain(file, o)
    ensures Readable(ImageOf(file, o))
  {
    hide WirePath, Words, Environment, DebugWord, ExtraWord;
    WirePathIsNulFree(file);
    WordsAreNulFree(o.cmdline);
    EnvironmentIsNulFree(o.homeDir);
  }

  /** The console can recover everything visible. */
  lemma BodyDecodes(file: seq<byte>, o: Options)
    requires Plain(file, o)
    ensures var d := Decode(Body(ImageOf(file, o)));
            d.Some? && Unpack(d.value) == SeenOf(file, o)
  {
    hide Decode, Body, Unpack, Readable;
    ImageIsReadable(file, o);
    DecodeOfBody(ImageOf(file, o));
    UnpackOfImage(file, o);
  }

  /** Two loads have the same body exactly when they look the same to the console. */
  lemma SameBodyIffSameSeen(file: seq<byte>, o: Options, file': seq<byte>, o': Options)
    requires Plain(file, o) && Plain(file', o')
    ensures Body(ImageOf(file, o)) == Body(ImageOf(file', o')) <==> SeenOf(file, o) == SeenOf(file', o')
  {
    hide *;
    BodyDecodes(file, o);
    BodyDecodes(file', o');
    if SeenOf(file, o) == SeenOf(file', o') {
      ImageOfSeen(file, o, file', o');
    }
  }
}
