/** The host file server: one reply per request, over three handle tables that share one
  * descriptor counter.
  *
  * `Step` is the server as a state machine; `Server` is the object that updates its
  * tables in place, proved to take the same steps. What the host's file system answers
  * during a request is a `Host` value, chosen freely for every request.
  */
module HostFileServer {
  import opened BeIo
  import opened Wrappers
  import opened HostPaths
  import Deci3 = Deci3Codec
  import Drfp = DrfpCodec

  const CATEGORY: u16 := 0x0110
  const FIRST_FD: u32 := 0x1000
  const FD_LIMIT: nat := 0x1_0000_0000
  const READ_CAP: nat := 0x4000

  const OK: u32 := 0
  const ENOENT: u32 := 0x8001_0006
  const EINVAL: u32 := 0x8001_001d
  const EBADF: u32 := 0x8001_002a
  const EIO: u32 := 0x8001_002b
  const EEXIST: u32 := 0x8001_0014
  const EISDIR: u32 := 0x8001_0012
  const ENOTDIR: u32 := 0x8001_002e
  const ENOTEMPTY: u32 := 0x8001_0036

  /** How a host file is opened. */
  datatype OpenMode = OpenMode(read: bool, write: bool, truncate: bool, append: bool)
  datatype HostFile = HostFile(path: string, mode: OpenMode)
  datatype Synth = Synth(content: seq<byte>, pos: int)
  datatype DirCursor = DirCursor(entries: seq<seq<byte>>, local: string, pos: nat)

  datatype State = State(
    files: map<u32, HostFile>,
    synths: map<u32, Synth>,
    dirs: map<u32, DirCursor>,
    nextFd: u32,
    transfers: set<string>,
    root: string,
    sfo: seq<byte>)
  {
    predicate Live(fd: u32) {
      fd in files || fd in synths || fd in dirs
    }
  }

  /** Everything the operating system may answer while one request is handled. */
  datatype Host = Host(
    present: bool,
    targetExists: bool,
    isDir: bool,
    isEmptyDir: bool,
    opens: bool,
    succeeds: bool,
    written: int,
    data: seq<byte>,
    entries: seq<seq<byte>>,
    stat: Drfp.Stat,
    filePos: int,
    fileSize: int,
    now: u64)

  // ---------- reading a request ----------

  function Text(b: seq<byte>): string {
    seq(|b|, i requires 0 <= i < |b| => b[i] as char)
  }

  /** The text at `off` up to its NUL or the end of the payload. */
  function PathAt(payload: seq<byte>, off: nat): string {
    if off <= |payload| then Text(CString(payload[off..])) else ""
  }

  function Lower(s: string): (t: string)
    ensures |t| == |s|
  {
    seq(|s|, i requires 0 <= i < |s| => if 'A' <= s[i] <= 'Z' then (s[i] as int + 32) as char else s[i])
  }

  predicate EndsWith(s: string, suffix: string) {
    |suffix| <= |s| && Lower(s[|s| - |suffix|..]) == Lower(suffix)
  }

  predicate IsParamSfo(path: string) {
    || EndsWith(path, "PS3_GAME/PARAM.SFO") || EndsWith(path, "PS3_GAME\\PARAM.SFO")
    || EndsWith(path, "/PARAM.SFO") || EndsWith(path, "\\PARAM.SFO")
    || Lower(path) == Lower("PARAM.SFO")
  }

  predicate Flag(flags: u32, bit: nat)
    requires bit > 0
  {
    flags / bit % 2 == 1
  }

  const WRONLY: nat := 0x1
  const RDWR: nat := 0x2
  const CREAT: nat := 0x40
  const EXCL: nat := 0x80
  const TRUNC: nat := 0x200
  const APPEND: nat := 0x400

  predicate WantsWrite(flags: u32) {
    Flag(flags, WRONLY) || Flag(flags, RDWR)
  }

  /** Reading and writing wins over writing alone; only a writer truncates or appends. */
  function ModeOf(flags: u32): (m: OpenMode)
    ensures m.read || m.write
    ensures (m.truncate || m.append ==> m.write) && (m.write <==> WantsWrite(flags))
  {
    var write := WantsWrite(flags);
    OpenMode(Flag(flags, RDWR) || !write, write, write && Flag(flags, TRUNC), write && Flag(flags, APPEND))
  }

  /** A 64-bit word read as a signed number. */
  function Signed(v: u64): int {
    if v < 0x8000_0000_0000_0000 then v else v as int - 0x1_0000_0000_0000_0000
  }

  function Low32(v: int): u32 {
    v % 0x1_0000_0000
  }

  function High32(v: int): u32 {
    v / 0x1_0000_0000 % 0x1_0000_0000
  }

  function Min(a: int, b: int): int {
    if a <= b then a else b
  }

  function Max(a: int, b: int): int {
    if a >= b then a else b
  }

  // ---------- the handlers that only answer ----------

  function Result(q: Drfp.Request, result: u32): seq<byte>
    requires q.code <= Drfp.LAST_CODE
  {
    Drfp.Build(q.code + 1, q.seqNo, Drfp.Word(result))
  }

  function SynthStat(s: State, h: Host): Drfp.Stat {
    Drfp.Stat(0x8180, h.now, h.now, h.now, Low32(|s.sfo|))
  }

  function Local(s: State, q: Drfp.Request, off: nat): string {
    Resolve(s.transfers, s.root, PathAt(q.payload, off))
  }

  function OnInit(q: Drfp.Request): seq<byte> {
    Drfp.Build(Drfp.INIT + 1, q.seqNo, Drfp.Word(0) + Drfp.Word(15))
  }

  function OnStat(s: State, q: Drfp.Request, h: Host): seq<byte>
    requires q.code == Drfp.STAT
  {
    if IsParamSfo(PathAt(q.payload, 0)) then
      Drfp.Build(Drfp.STAT + 1, q.seqNo, Drfp.StatBody(OK, SynthStat(s, h)))
    else if Local(s, q, 0) == "" || !h.present then Result(q, ENOENT)
    else Drfp.Build(Drfp.STAT + 1, q.seqNo, Drfp.StatBody(OK, h.stat))
  }

  function OnWrite(s: State, q: Drfp.Request, h: Host): seq<byte> {
    var result :=
      if |q.payload| < 8 then EINVAL
      else
        var fd := U32At(q.payload, 0);
        if fd in s.synths || fd !in s.files || !s.files[fd].mode.write then EBADF
        else if h.written < 0 then EIO
        else OK;
    Drfp.Build(Drfp.WRITE + 1, q.seqNo, Drfp.WriteBody(result, Low32(h.written)))
  }

  function OnMkdir(s: State, q: Drfp.Request, h: Host): seq<byte>
    requires q.code == Drfp.MKDIR
  {
    if |q.payload| < 8 then Result(q, EINVAL)
    else if Local(s, q, 8) == "" then Result(q, ENOENT)
    else if h.present then Result(q, EEXIST)
    else if !h.succeeds then Result(q, EIO)
    else Result(q, OK)
  }

  function OnRmdir(s: State, q: Drfp.Request, h: Host): seq<byte>
    requires q.code == Drfp.RMDIR
  {
    if Local(s, q, 0) == "" || !h.present then Result(q, ENOENT)
    else if !h.isDir then Result(q, ENOTDIR)
    else if !h.isEmptyDir then Result(q, ENOTEMPTY)
    else if !h.succeeds then Result(q, EIO)
    else Result(q, OK)
  }

  function OnFtruncate(s: State, q: Drfp.Request, h: Host): seq<byte>
    requires q.code == Drfp.FTRUNCATE
  {
    if |q.payload| < 12 then Result(q, EINVAL)
    else
      var fd := U32At(q.payload, 0);
      if fd in s.synths || fd !in s.files then Result(q, EBADF)
      else if !h.succeeds then Result(q, EIO)
      else Result(q, OK)
  }

  function OnTruncate(s: State, q: Drfp.Request, h: Host): seq<byte>
    requires q.code == Drfp.TRUNCATE
  {
    if |q.payload| < 8 then Result(q, EINVAL)
    else if Local(s, q, 8) == "" || !h.present then Result(q, ENOENT)
    else if h.isDir then Result(q, EISDIR)
    else if !h.opens || !h.succeeds then Result(q, EIO)
    else Result(q, OK)
  }

  function OnRename(s: State, q: Drfp.Request, h: Host): seq<byte>
    requires q.code == Drfp.RENAME
  {
    var newOff := |PathAt(q.payload, 0)| + 1;
    if Local(s, q, 0) == "" || Local(s, q, newOff) == "" || !h.present then Result(q, ENOENT)
    else if h.targetExists then Result(q, EEXIST)
    else if !h.succeeds then Result(q, EIO)
    else Result(q, OK)
  }

  function OnUnlink(s: State, q: Drfp.Request, h: Host): seq<byte>
    requires q.code == Drfp.UNLINK
  {
    if Local(s, q, 0) == "" || !h.present then Result(q, ENOENT)
    else if h.isDir then Result(q, EISDIR)
    else if !h.succeeds then Result(q, EIO)
    else Result(q, OK)
  }

  function OnFstat(s: State, q: Drfp.Request, h: Host): seq<byte>
    requires q.code == Drfp.FSTAT
  {
    if |q.payload| < 4 then Result(q, EINVAL)
    else
      var fd := U32At(q.payload, 0);
      if fd in s.synths then
        Drfp.Build(Drfp.FSTAT + 1, q.seqNo,
          Drfp.StatBody(OK, SynthStat(s, h).(size := Low32(|s.synths[fd].content|))))
      else if fd !in s.files then Result(q, EBADF)
      else Drfp.Build(Drfp.FSTAT + 1, q.seqNo, Drfp.StatBody(OK, h.stat))
  }

  // ---------- the handlers that change the tables ----------

  function OpenReply(q: Drfp.Request, result: u32, fd: u32): seq<byte> {
    Drfp.Build(Drfp.OPEN + 1, q.seqNo, Drfp.Word(result) + Drfp.Word(fd))
  }

  /** The next descriptor; the counter is 32 bits wide and wraps. */
  function Bump(fd: u32): u32 {
    (fd as int + 1) % FD_LIMIT
  }

  function OnOpen(s: State, q: Drfp.Request, h: Host): (State, seq<byte>) {
    if |q.payload| < 8 then (s, OpenReply(q, EINVAL, 0))
    else
      var flags := U32At(q.payload, 0);
      var write := WantsWrite(flags);
      if !write && IsParamSfo(PathAt(q.payload, 8)) then
        (s.(synths := s.synths[s.nextFd := Synth(s.sfo, 0)], nextFd := Bump(s.nextFd)), OpenReply(q, OK, s.nextFd))
      else if Local(s, q, 8) == "" || (!h.present && !Flag(flags, CREAT)) then (s, OpenReply(q, ENOENT, 0))
      else if h.present && Flag(flags, CREAT) && Flag(flags, EXCL) then (s, OpenReply(q, EEXIST, 0))
      else if !h.opens then (s, OpenReply(q, if write then EIO else ENOENT, 0))
      else
        (s.(files := s.files[s.nextFd := HostFile(Local(s, q, 8), ModeOf(flags))], nextFd := Bump(s.nextFd)),
         OpenReply(q, OK, s.nextFd))
  }

  function OnClose(s: State, q: Drfp.Request): (State, seq<byte>)
    requires q.code == Drfp.CLOSE
  {
    if |q.payload| < 4 then (s, Result(q, EINVAL))
    else
      var fd := U32At(q.payload, 0);
      if fd in s.synths then (s.(synths := s.synths - {fd}), Result(q, OK))
      else if fd in s.files then (s.(files := s.files - {fd}), Result(q, OK))
      else (s, Result(q, EBADF))
  }

  function OnDopen(s: State, q: Drfp.Request, h: Host): (State, seq<byte>) {
    if Local(s, q, 0) == "" || !h.present then
      (s, Drfp.Build(Drfp.DOPEN + 1, q.seqNo, Drfp.DopenBody(ENOENT, 0)))
    else if !h.isDir then
      (s, Drfp.Build(Drfp.DOPEN + 1, q.seqNo, Drfp.DopenBody(ENOTDIR, 0)))
    else
      (s.(dirs := s.dirs[s.nextFd := DirCursor(h.entries, Local(s, q, 0), 0)], nextFd := Bump(s.nextFd)),
       Drfp.Build(Drfp.DOPEN + 1, q.seqNo, Drfp.DopenBody(OK, s.nextFd)))
  }

  function OnDclose(s: State, q: Drfp.Request): (State, seq<byte>)
    requires q.code == Drfp.DCLOSE
  {
    if |q.payload| < 4 then (s, Result(q, EINVAL))
    else
      var fd := U32At(q.payload, 0);
      if fd !in s.dirs then (s, Result(q, EBADF))
      else (s.(dirs := s.dirs - {fd}), Result(q, OK))
  }

  function DreadReply(q: Drfp.Request, result: u32, entry: seq<byte>): seq<byte>
    requires |entry| < FD_LIMIT
  {
    Drfp.Build(Drfp.DREAD + 1, q.seqNo, Drfp.DreadBody(result, entry))
  }

  function Kind(h: Host): byte {
    if h.isDir then 1 else 2
  }

  function OnDread(s: State, q: Drfp.Request, h: Host): (State, seq<byte>) {
    if |q.payload| < 8 then (s, DreadReply(q, EINVAL, []))
    else
      var fd := U32At(q.payload, 0);
      if fd !in s.dirs then (s, DreadReply(q, EBADF, []))
      else
        var d := s.dirs[fd];
        if d.pos >= |d.entries| || U32At(q.payload, 4) < Drfp.DIRENT_SIZE then (s, DreadReply(q, OK, []))
        else (s.(dirs := s.dirs[fd := d.(pos := d.pos + 1)]),
              DreadReply(q, OK, Drfp.Dirent(Kind(h), d.entries[d.pos])))
  }

  function ReadReply(q: Drfp.Request, result: u32, data: seq<byte>): seq<byte>
    requires |data| < FD_LIMIT
  {
    Drfp.Build(Drfp.READ + 1, q.seqNo, Drfp.ReadBody(result, data))
  }

  function Cap(nbytes: nat): (n: nat)
    ensures n <= READ_CAP
  {
    if nbytes > READ_CAP then READ_CAP else nbytes
  }

  /** `mid(pos, n)` of the program's byte arrays: what there is of the range. */
  function Mid(b: seq<byte>, pos: int, n: nat): (m: seq<byte>)
    ensures |m| <= n
  {
    if 0 <= pos <= |b| then Drfp.Left(b[pos..], n) else []
  }

  function OnRead(s: State, q: Drfp.Request, h: Host): (State, seq<byte>) {
    if |q.payload| < 8 then (s, ReadReply(q, EINVAL, []))
    else
      var fd := U32At(q.payload, 0);
      var cap := Cap(U32At(q.payload, 4));
      if fd in s.synths then
        var f := s.synths[fd];
        var take := Min(cap, Max(0, |f.content| - f.pos));
        (s.(synths := s.synths[fd := f.(pos := f.pos + take)]), ReadReply(q, OK, Mid(f.content, f.pos, take)))
      else if fd !in s.files then (s, ReadReply(q, EBADF, []))
      else (s, ReadReply(q, OK, Drfp.Left(h.data, cap)))
  }

  function SeekReply(q: Drfp.Request, target: int): seq<byte> {
    Drfp.Build(Drfp.SEEK + 1, q.seqNo, Drfp.Word(0) + Drfp.Word(Low32(target)) + Drfp.Word(High32(target)))
  }

  function Target(base: u32, pos: int, size: int, off: int): Option<int> {
    match base
    case 0 => Some(off)
    case 1 => Some(pos + off)
    case 2 => Some(size + off)
    case _ => None
  }

  function OnSeek(s: State, q: Drfp.Request, h: Host): (State, seq<byte>)
    requires q.code == Drfp.SEEK
  {
    if |q.payload| < 16 then (s, Result(q, EINVAL))
    else
      var fd := U32At(q.payload, 0);
      var off := Signed(U64At(q.payload, 4));
      var base := U32At(q.payload, 12);
      if fd in s.synths then
        var f := s.synths[fd];
        var target := Target(base, f.pos, |f.content|, off);
        if target.None? || !(0 <= target.value <= |f.content|) then (s, Result(q, EINVAL))
        else (s.(synths := s.synths[fd := f.(pos := target.value)]), SeekReply(q, target.value))
      else if fd !in s.files then (s, Result(q, EBADF))
      else
        var target := Target(base, h.filePos, h.fileSize, off);
        if target.None? || !h.succeeds then (s, Result(q, EINVAL)) else (s, SeekReply(q, target.value))
  }

  // ---------- the state machine ----------

  /** One parsed request: the next state and the reply. */
  function Handle(s: State, q: Drfp.Request, h: Host): (State, seq<byte>)
    requires q.code <= Drfp.LAST_CODE
  {
    if q.code == Drfp.INIT then (s, OnInit(q))
    else if q.code == Drfp.STAT then (s, OnStat(s, q, h))
    else if q.code == Drfp.OPEN then OnOpen(s, q, h)
    else if q.code == Drfp.CLOSE then OnClose(s, q)
    else if q.code == Drfp.READ then OnRead(s, q, h)
    else if q.code == Drfp.WRITE then (s, OnWrite(s, q, h))
    else if q.code == Drfp.MKDIR then (s, OnMkdir(s, q, h))
    else if q.code == Drfp.RMDIR then (s, OnRmdir(s, q, h))
    else if q.code == Drfp.DOPEN then OnDopen(s, q, h)
    else if q.code == Drfp.DCLOSE then OnDclose(s, q)
    else if q.code == Drfp.DREAD then OnDread(s, q, h)
    else if q.code == Drfp.FTRUNCATE then (s, OnFtruncate(s, q, h))
    else if q.code == Drfp.TRUNCATE then (s, OnTruncate(s, q, h))
    else if q.code == Drfp.RENAME then (s, OnRename(s, q, h))
    else if q.code == Drfp.UNLINK then (s, OnUnlink(s, q, h))
    else if q.code == Drfp.FSTAT then (s, OnFstat(s, q, h))
    else if q.code == Drfp.SEEK then OnSeek(s, q, h)
    else (s, Result(q, ENOENT))
  }

  datatype Event =
    | Frame(category: u16, payload: seq<byte>, host: Host)
    | ResetTables
    | ServeDir(dir: string)
    | Authorise(path: string)
    | Forget(path: string)

  function Authorised(transfers: set<string>, chain: seq<string>): set<string> {
    transfers + (set p | p in chain)
  }

  /** One event: the next state and the message sent back, if any. */
  function Step(s: State, e: Event): (State, Option<seq<byte>>) {
    match e
    case ResetTables => (s.(files := map[], synths := map[], dirs := map[]), None)
    case ServeDir(dir) => (s.(root := CleanPath(dir)), None)
    case Authorise(path) => (s.(transfers := Authorised(s.transfers, Chain(path))), None)
    case Forget(path) => (s.(transfers := s.transfers - {Normalise(path)}), None)
    case Frame(category, payload, h) =>
      if category != CATEGORY || Drfp.Parse(payload).None? then (s, None)
      else
        var r := Handle(s, Drfp.Parse(payload).value, h);
        (r.0, Some(r.1))
  }

  function Run(s: State, es: seq<Event>): State
    decreases |es|
  {
    if es == [] then s else Step(Run(s, es[..|es| - 1]), es[|es| - 1]).0
  }

  function Start(sfo: seq<byte>): State {
    State(map[], map[], map[], FIRST_FD, {}, "", sfo)
  }

  /** The frame a reply travels in. */
  function Envelope(cfwDex: bool, reply: seq<byte>): Deci3.Frame {
    Deci3.Frame(0, 0x4854, if cfwDex then 0 else 0x0200_0000, CATEGORY, reply)
  }
}
