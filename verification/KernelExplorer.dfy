/** The kernel explorer: it asks for a list, then asks about every item of the list, and
  * announces the result when the answers are in.
  *
  * Requests are found again by their sequence number in `pending`. The numbers come from
  * the session's counter, which other controllers use too. `lost` names the numbers whose
  * send the link refuses. An info parser keeps the payload it accepts; its fields are not
  * taken apart here.
  */
module KernelExplorer {
  import opened BeIo
  import opened Wrappers
  import Deci3Codec
  import DbgpCodec
  import Sessions = SessionController

  const DBGP_CATEGORY: u16 := 0x0200
  const ENVELOPE: u32 := 0x0210_0000

  datatype Category = Mutex | LwMutex | Cond | EventQueue | Module | Thread | Process

  predicate IsSync(c: Category) {
    c.Mutex? || c.LwMutex? || c.Cond? || c.EventQueue?
  }

  datatype Command = List(c: Category) | Info(c: Category) | Memory | Containers | Action

  predicate Owned(cmd: Command, c: Category) {
    cmd == List(c) || cmd == Info(c) || (cmd == Memory && c == Process)
  }

  datatype Pending = Pending(cmd: Command, pid: u32, handle: u32)

  datatype Entry = Entry(id: u64, fields: seq<byte>)
  datatype Summary = Summary(pid: u32, info: Option<seq<byte>>, memory: Option<seq<byte>>)

  datatype Accum =
    | Sync(pid: u32, remaining: seq<u32>, info: seq<Entry>)
    | Counted(pid: u32, expected: nat, received: nat, info: seq<Entry>)
    | Joined(summaries: seq<Summary>, left: seq<u32>, gotList: bool)

  /** Each category has its own kind of accumulator. */
  predicate Suits(c: Category, a: Accum) {
    if IsSync(c) then a.Sync? else if c == Process then a.Joined? else a.Counted?
  }

  datatype Table = Table(
    mutexes: Accum, lwMutexes: Accum, conds: Accum, eventQueues: Accum,
    modules: Accum, threads: Accum, processes: Accum)
  {
    function Of(c: Category): Accum {
      match c
      case Mutex => mutexes
      case LwMutex => lwMutexes
      case Cond => conds
      case EventQueue => eventQueues
      case Module => modules
      case Thread => threads
      case Process => processes
    }

    function With(c: Category, a: Accum): (r: Table)
      ensures r.Of(c) == a && forall d :: d != c ==> r.Of(d) == Of(d)
    {
      match c
      case Mutex => this.(mutexes := a)
      case LwMutex => this.(lwMutexes := a)
      case Cond => this.(conds := a)
      case EventQueue => this.(eventQueues := a)
      case Module => this.(modules := a)
      case Thread => this.(threads := a)
      case Process => this.(processes := a)
    }
  }

  const NOTHING := Table(
    Sync(0, [], []), Sync(0, [], []), Sync(0, [], []), Sync(0, [], []),
    Counted(0, 0, 0, []), Counted(0, 0, 0, []), Joined([], [], false))

  type Accums = t: Table | forall c :: Suits(c, t.Of(c)) witness NOTHING

  datatype Signal =
    | Ready(c: Category, pid: u32, info: seq<Entry>)
    | ProcessesReady(summaries: seq<Summary>)
    | ContainersReady(pid: u32, containers: seq<DbgpCodec.Container>)

  predicate About(g: Signal, c: Category) {
    (g.Ready? && g.c == c) || (g.ProcessesReady? && c == Process)
  }

  datatype State = State(seqNo: u32, pending: map<u32, Pending>, accums: Accums, signals: seq<Signal>)

  function Start(seqNo: u32): State {
    State(seqNo, map[], NOTHING, [])
  }

  datatype Event =
    | Refresh(c: Category, pid: u32, lost: set<u32>)
    | RefreshContainers(pid: u32, lost: set<u32>)
    | Act(pid: u32, lost: set<u32>)
    | Received(frame: Deci3Codec.Frame, lost: set<u32>)
    | Elsewhere(taken: nat)
    | Restarted(msecs: nat)

  // ---------- requests ----------

  function Send(s: State, cmd: Command, pid: u32, handle: u32, lost: set<u32>): State {
    var q := s.seqNo;
    State(Sessions.NextSeq(q),
          if q in lost then s.pending - {q} else s.pending[q := Pending(cmd, pid, handle)],
          s.accums, s.signals)
  }

  /** The requests one list item causes. */
  function AskOne(s: State, c: Category, pid: u32, h: u32, lost: set<u32>): State {
    if c == Process then Send(Send(s, Info(Process), h, 0, lost), Memory, h, 0, lost)
    else Send(s, Info(c), pid, h, lost)
  }

  function Ask(s: State, c: Category, pid: u32, hs: seq<u32>, lost: set<u32>): State {
    if hs == [] then s
    else AskOne(Ask(s, c, pid, hs[..|hs| - 1], lost), c, pid, hs[|hs| - 1], lost)
  }

  // ---------- lists ----------

  function Refreshed(c: Category, a: Accum, pid: u32): (r: Accum)
    requires Suits(c, a)
    ensures Suits(c, r)
  {
    if IsSync(c) then Sync(pid, [], [])
    else if c == Process then Joined([], [], false)
    else Counted(pid, 0, if c == Thread then a.received else 0, [])
  }

  /** What a list reply lists; a thread list can be malformed. */
  function Handles(c: Category, payload: seq<byte>): Option<seq<u32>> {
    match c
    case Thread =>
      (match DbgpCodec.Threads(payload)
       case None => None
       case Some(t) => Some(LowWords(t.ppu)))
    case Process => Some(DbgpCodec.ProcessList(payload))
    case _ => Some(DbgpCodec.HandleList(payload))
  }

  function LowWords(ids: seq<u64>): (hs: seq<u32>)
    ensures |hs| == |ids|
  {
    seq(|ids|, i requires 0 <= i < |ids| => ids[i] % 0x1_0000_0000)
  }

  function Fresh(pids: seq<u32>): (ss: seq<Summary>)
    ensures |ss| == |pids|
  {
    seq(|pids|, i requires 0 <= i < |pids| => Summary(pids[i], None, None))
  }

  function Listed(c: Category, a: Accum, pid: u32, hs: seq<u32>): (r: Accum)
    requires Suits(c, a)
    ensures Suits(c, r)
  {
    if IsSync(c) then Sync(a.pid, hs, [])
    else if c == Process then Joined(a.summaries + Fresh(hs), a.left + hs, true)
    else Counted(pid, |hs|, 0, [])
  }

  /** A list that names nothing ends the exchange; a sync list does so silently. */
  function EmptyList(c: Category, pid: u32): seq<Signal> {
    if IsSync(c) then []
    else if c == Process then [ProcessesReady([])]
    else [Ready(c, pid, [])]
  }

  function ListReply(s: State, c: Category, pid: u32, payload: seq<byte>, lost: set<u32>): State {
    match Handles(c, payload)
    case None => s.(signals := s.signals + EmptyList(c, pid))
    case Some(hs) =>
      var t := s.(accums := s.accums.With(c, Listed(c, s.accums.Of(c), pid, hs)));
      if hs == [] then t.(signals := s.signals + EmptyList(c, pid)) else Ask(t, c, pid, hs, lost)
  }

  // ---------- items ----------

  function MinSize(cmd: Command): nat {
    match cmd
    case Info(Mutex) => 0x44
    case Info(LwMutex) => 0x24
    case Info(Cond) => 0x24
    case Info(EventQueue) => 0x28
    case Info(Module) => 0x238
    case Info(Thread) => 36
    case _ => 28
  }

  function ParseInfo(p: Pending, payload: seq<byte>): Option<Entry> {
    if |payload| < MinSize(p.cmd) then None
    else
      var id := if p.cmd == Info(Module) then p.handle
                else if p.cmd == Info(Thread) then U64At(payload, 0)
                else U32At(payload, 0);
      Some(Entry(id, payload))
  }

  function Parsed(p: Pending, payload: seq<byte>): seq<Entry> {
    match ParseInfo(p, payload)
    case None => []
    case Some(e) => [e]
  }

  function Without(hs: seq<u32>, h: u32): (r: seq<u32>)
    ensures forall x :: x in r <==> x in hs && x != h
  {
    if hs == [] then []
    else
      var front := Without(hs[..|hs| - 1], h);
      if hs[|hs| - 1] == h then front else front + [hs[|hs| - 1]]
  }

  function Filled(s: Summary, p: Pending, payload: seq<byte>): Summary {
    if p.cmd == Memory then s.(memory := Some(payload)) else s.(info := Some(payload))
  }

  /** The first summary of `pid` takes the parsed part. */
  function Fill(ss: seq<Summary>, p: Pending, payload: seq<byte>): (r: seq<Summary>)
    ensures |r| == |ss|
  {
    if ss == [] then []
    else if ss[0].pid == p.pid then [Filled(ss[0], p, payload)] + ss[1..]
    else [ss[0]] + Fill(ss[1..], p, payload)
  }

  /** What the answer to `p` does to its accumulator. */
  function Absorb(a: Accum, p: Pending, payload: seq<byte>): (r: Accum)
    ensures forall c :: Suits(c, a) ==> Suits(c, r)
  {
    match a
    case Sync(pid, remaining, info) => Sync(pid, Without(remaining, p.handle), info + Parsed(p, payload))
    case Counted(pid, expected, received, info) => Counted(pid, expected, received + 1, info + Parsed(p, payload))
    case Joined(summaries, left, gotList) =>
      Joined(if |payload| < 28 then summaries else Fill(summaries, p, payload),
             if p.cmd == Memory then Without(left, p.pid) else left, gotList)
  }

  /** What it announces, the answer being absorbed in `a` already. */
  function Announce(a: Accum, p: Pending, payload: seq<byte>): seq<Signal> {
    match a
    case Sync(pid, remaining, info) =>
      if p.cmd.Info? && remaining == [] then [Ready(p.cmd.c, pid, info)] else []
    case Counted(pid, expected, received, info) =>
      if p.cmd.Info? && received >= expected then [Ready(p.cmd.c, if p.cmd.c == Thread then p.pid else pid, info)]
      else []
    case Joined(summaries, left, gotList) =>
      if gotList && left == [] && (p.cmd == Memory || |payload| >= 28) then [ProcessesReady(summaries)] else []
  }

  // ---------- frames ----------

  /** The frame passes every check in front of the table lookup. */
  predicate Accepted(f: Deci3Codec.Frame) {
    f.category == DBGP_CATEGORY && f.sessionB == ENVELOPE && |f.payload| >= 20 && f.payload[0] >= 0x80
    && DbgpCodec.DecodeResponse(f.payload).Some?
  }

  function Answer(f: Deci3Codec.Frame): DbgpCodec.Response
    requires Accepted(f)
  {
    DbgpCodec.DecodeResponse(f.payload).value
  }

  /** The frame a response travels in, its checksum included. */
  function FrameOf(r: DbgpCodec.Response): Deci3Codec.Frame {
    var b := DbgpCodec.ResponseBytes(r, 0);
    Deci3Codec.Frame(0, 0x5448, ENVELOPE, DBGP_CATEGORY,
                     DbgpCodec.ResponseBytes(r, DbgpCodec.Trailer(b[..|b| - 1])))
  }

  /** Every response with the reply bit whose length field covers its payload is taken as
    * what it is. */
  lemma FrameIsAccepted(r: DbgpCodec.Response)
    requires r.cmd >= 0x8000_0000 && r.dataLen as int >= |r.payload|
    ensures Accepted(FrameOf(r)) && Answer(FrameOf(r)) == r && |FrameOf(r).payload| == 21 + |r.payload|
  {
    var b := DbgpCodec.ResponseBytes(r, 0);
    var t := DbgpCodec.Trailer(b[..|b| - 1]);
    hide DbgpCodec.Trailer, DbgpCodec.DecodeResponse;
    DbgpCodec.DecodesIffLengthCovers(r, t);
    FirstByte(r, t);
  }

  lemma FirstByte(r: DbgpCodec.Response, t: byte)
    requires r.cmd >= 0x8000_0000
    ensures DbgpCodec.ResponseBytes(r, t)[0] >= 0x80
  {
    var b := DbgpCodec.ResponseBytes(r, t);
    assert b[0..4] == BigEndian(4, r.cmd);
    hide BigEndian;
    ReadU32(b, 0, r.cmd);
  }

  function Reply(s: State, p: Pending, payload: seq<byte>, lost: set<u32>): State {
    match p.cmd
    case List(c) => ListReply(s, c, p.pid, payload, lost)
    case Containers =>
      (match DbgpCodec.Containers(payload)
       case None => s
       case Some(cs) => s.(signals := s.signals + [ContainersReady(p.pid, cs)]))
    case Action => s
    case Info(c) => Part(s, c, p, payload)
    case Memory => Part(s, Process, p, payload)
  }

  function Part(s: State, c: Category, p: Pending, payload: seq<byte>): State {
    var a := Absorb(s.accums.Of(c), p, payload);
    s.(accums := s.accums.With(c, a), signals := s.signals + Announce(a, p, payload))
  }

  function Step(s: State, e: Event): State {
    match e
    case Refresh(c, pid, lost) =>
      Send(s.(accums := s.accums.With(c, Refreshed(c, s.accums.Of(c), pid))),
           List(c), if c == Process then 0 else pid, 0, lost)
    case RefreshContainers(pid, lost) => Send(s, Containers, pid, 0, lost)
    case Act(pid, lost) => if pid == 0 then s else Send(s, Action, pid, 0, lost)
    case Received(f, lost) =>
      if !Accepted(f) || Answer(f).reqId !in s.pending then s
      else
        var q := Answer(f).reqId;
        Reply(s.(pending := s.pending - {q}), s.pending[q], Answer(f).payload, lost)
    case Elsewhere(n) => s.(seqNo := (s.seqNo + n) % 0x1_0000_0000)
    case Restarted(msecs) => s.(seqNo := Sessions.RestartedSeq(msecs))
  }

  function Run(s: State, es: seq<Event>): State {
    if es == [] then s else Step(Run(s, es[..|es| - 1]), es[|es| - 1])
  }

  // ---------- the object ----------

  method RemoveAll(hs: seq<u32>, h: u32) returns (r: seq<u32>)
    ensures r == Without(hs, h)
  {
    r := [];
    for i := 0 to |hs|
      invariant r == Without(hs[..i], h)
    {
      assert hs[..i + 1][..i] == hs[..i];
      if hs[i] != h {
        r := r + [hs[i]];
      }
    }
    assert hs[..|hs|] == hs;
  }

  method FillFirst(ss: seq<Summary>, p: Pending, payload: seq<byte>) returns (r: seq<Summary>)
    ensures r == Fill(ss, p, payload)
  {
    hide Fill, Filled;
    r := ss;
    for i := 0 to |ss|
      invariant r == ss && Absent(ss[..i], p.pid)
    {
      assert ss[..i + 1] == ss[..i] + [ss[i]];
      if ss[i].pid == p.pid {
        FillsAt(ss, p, payload, i);
        r := ss[i := Filled(ss[i], p, payload)];
        return;
      }
    }
    assert ss[..|ss|] == ss;
    FillsNone(ss, p, payload);
  }

  predicate Absent(ss: seq<Summary>, pid: u32) {
    forall s :: s in ss ==> s.pid != pid
  }

  lemma {:induction false} FillsAt(ss: seq<Summary>, p: Pending, payload: seq<byte>, i: nat)
    requires i < |ss| && ss[i].pid == p.pid && Absent(ss[..i], p.pid)
    ensures Fill(ss, p, payload) == ss[i := Filled(ss[i], p, payload)]
  {
    hide Filled;
    if i > 0 {
      assert ss[0] in ss[..i] && ss[1..][..i - 1] == ss[..i][1..];
      FillsAt(ss[1..], p, payload, i - 1);
    }
  }

  lemma {:induction false} FillsNone(ss: seq<Summary>, p: Pending, payload: seq<byte>)
    requires Absent(ss, p.pid)
    ensures Fill(ss, p, payload) == ss
  {
    if ss != [] {
      FillsNone(ss[1..], p, payload);
    }
  }

  class Explorer {
    const session: Sessions.Session
    var pending: map<u32, Pending>
    var accums: Accums
    var signals: seq<Signal>

    function Snapshot(): State
      reads this, session
    {
      State(session.dbgshlSeq, pending, accums, signals)
    }

    constructor (session: Sessions.Session)
      ensures this.session == session && Snapshot() == Start(session.dbgshlSeq)
    {
      this.session := session;
      pending, accums, signals := map[], NOTHING, [];
    }

    /** The entry goes in before the send and comes out again when the send fails. */
    method SendDbgp(cmd: Command, pid: u32, handle: u32, lost: set<u32>) returns (seqNo: u32)
      modifies this`pending, session`dbgshlSeq
      ensures Snapshot() == Send(old(Snapshot()), cmd, pid, handle, lost)
      ensures seqNo == if old(session.dbgshlSeq) in lost then 0 else old(session.dbgshlSeq)
      ensures pending == if old(session.dbgshlSeq) in lost then old(pending) - {old(session.dbgshlSeq)}
                         else old(pending)[old(session.dbgshlSeq) := Pending(cmd, pid, handle)]
      ensures session.dbgshlSeq == Sessions.NextSeq(old(session.dbgshlSeq))
    {
      seqNo := session.NextDbgshlSeq();
      pending := pending[seqNo := Pending(cmd, pid, handle)];
      if seqNo in lost {
        pending := pending - {seqNo};
        assert pending == old(pending) - {seqNo};
        seqNo := 0;
      }
    }

    method OnRefresh(c: Category, pid: u32, lost: set<u32>)
      modifies this, session`dbgshlSeq
      ensures Snapshot() == Step(old(Snapshot()), Refresh(c, pid, lost))
      ensures accums.Of(c) == if c == Process then Joined([], [], false)
                              else if c == Module then Counted(pid, 0, 0, [])
                              else if c == Thread then Counted(pid, 0, old(accums.Of(Thread)).received, [])
                              else Sync(pid, [], [])
      ensures old(session.dbgshlSeq) !in lost ==>
                pending == old(pending)[old(session.dbgshlSeq) := Pending(List(c), if c == Process then 0 else pid, 0)]
    {
      accums := accums.With(c, Refreshed(c, accums.Of(c), pid));
      var _ := SendDbgp(List(c), if c == Process then 0 else pid, 0, lost);
    }

    method OnRefreshContainers(pid: u32, lost: set<u32>)
      modifies this, session`dbgshlSeq
      ensures Snapshot() == Step(old(Snapshot()), RefreshContainers(pid, lost))
      ensures old(session.dbgshlSeq) !in lost ==> pending == old(pending)[old(session.dbgshlSeq) := Pending(Containers, pid, 0)]
    {
      var _ := SendDbgp(Containers, pid, 0, lost);
    }

    method OnAct(pid: u32, lost: set<u32>)
      modifies this, session`dbgshlSeq
      ensures Snapshot() == Step(old(Snapshot()), Act(pid, lost))
      ensures pid == 0 ==> pending == old(pending) && session.dbgshlSeq == old(session.dbgshlSeq)
      ensures pid != 0 && old(session.dbgshlSeq) !in lost ==>
                pending == old(pending)[old(session.dbgshlSeq) := Pending(Action, pid, 0)]
    {
      if pid == 0 {
        return;
      }
      var _ := SendDbgp(Action, pid, 0, lost);
    }

    method AskAll(c: Category, pid: u32, hs: seq<u32>, lost: set<u32>)
      modifies this, session`dbgshlSeq
      ensures Snapshot() == Ask(old(Snapshot()), c, pid, hs, lost)
    {
      for i := 0 to |hs|
        invariant Snapshot() == Ask(old(Snapshot()), c, pid, hs[..i], lost)
      {
        assert hs[..i + 1][..i] == hs[..i];
        if c == Process {
          var _ := SendDbgp(Info(Process), hs[i], 0, lost);
          var _ := SendDbgp(Memory, hs[i], 0, lost);
        } else {
          var _ := SendDbgp(Info(c), pid, hs[i], lost);
        }
      }
      assert hs[..|hs|] == hs;
    }

    method OnListReply(c: Category, pid: u32, payload: seq<byte>, lost: set<u32>)
      modifies this, session`dbgshlSeq
      ensures Snapshot() == ListReply(old(Snapshot()), c, pid, payload, lost)
    {
      var listed := Handles(c, payload);
      if listed == None {
        signals := signals + EmptyList(c, pid);
        return;
      }
      accums := accums.With(c, Listed(c, accums.Of(c), pid, listed.value));
      if listed.value == [] {
        signals := signals + EmptyList(c, pid);
        return;
      }
      AskAll(c, pid, listed.value, lost);
    }

    method OnSyncInfo(c: Category, st: Accum, p: Pending, payload: seq<byte>)
      requires IsSync(c) && st == accums.Of(c) && p.cmd == Info(c)
      modifies this`accums, this`signals
      ensures accums == old(accums).With(c, Absorb(st, p, payload))
      ensures signals == old(signals) + Announce(Absorb(st, p, payload), p, payload)
    {
      var info := st.info;
      var parsed := ParseInfo(p, payload);
      if parsed.Some? {
        info := info + [parsed.value];
      }
      var remaining := RemoveAll(st.remaining, p.handle);
      accums := accums.With(c, Sync(st.pid, remaining, info));
      if remaining == [] {
        signals := signals + [Ready(c, st.pid, info)];
      }
    }

    method OnCountedInfo(c: Category, st: Accum, p: Pending, payload: seq<byte>)
      requires (c == Module || c == Thread) && st == accums.Of(c) && p.cmd == Info(c)
      modifies this`accums, this`signals
      ensures accums == old(accums).With(c, Absorb(st, p, payload))
      ensures signals == old(signals) + Announce(Absorb(st, p, payload), p, payload)
    {
      var info := st.info;
      var parsed := ParseInfo(p, payload);
      if parsed.Some? {
        info := info + [parsed.value];
      }
      var received := st.received + 1;
      accums := accums.With(c, Counted(st.pid, st.expected, received, info));
      if received >= st.expected {
        signals := signals + [Ready(c, if c == Thread then p.pid else st.pid, info)];
      }
    }

    method OnProcessPart(p: Pending, payload: seq<byte>)
      requires (p.cmd == Info(Process) || p.cmd == Memory)
      modifies this`accums, this`signals
      ensures accums == old(accums).With(Process, Absorb(old(accums).Of(Process), p, payload))
      ensures signals == old(signals) + Announce(accums.Of(Process), p, payload)
    {
      var st := accums.Of(Process);
      var summaries, left := st.summaries, st.left;
      if |payload| >= 28 {
        summaries := FillFirst(summaries, p, payload);
      } else if p.cmd != Memory {
        return;
      }
      if p.cmd == Memory {
        left := RemoveAll(left, p.pid);
      }
      accums := accums.With(Process, Joined(summaries, left, st.gotList));
      if st.gotList && left == [] {
        signals := signals + [ProcessesReady(summaries)];
      }
    }

    method OnFrameReceived(f: Deci3Codec.Frame, lost: set<u32>)
      modifies this, session`dbgshlSeq
      ensures Snapshot() == Step(old(Snapshot()), Received(f, lost))
    {
      hide Reply;
      if f.category != DBGP_CATEGORY || f.sessionB != ENVELOPE || |f.payload| < 20 || f.payload[0] < 0x80 {
        return;
      }
      var r := DbgpCodec.DecodeResponse(f.payload);
      if r == None || r.value.reqId !in pending {
        return;
      }
      var p := pending[r.value.reqId];
      pending := pending - {r.value.reqId};
      Dispatch(p, r.value.payload, lost);
    }

    method Dispatch(p: Pending, payload: seq<byte>, lost: set<u32>)
      modifies this, session`dbgshlSeq
      ensures Snapshot() == Reply(old(Snapshot()), p, payload, lost)
    {
      hide Absorb, Announce, ListReply;
      match p.cmd {
        case List(c) =>
          OnListReply(c, p.pid, payload, lost);
        case Info(c) =>
          var st := accums.Of(c);
          if IsSync(c) {
            OnSyncInfo(c, st, p, payload);
          } else if c != Process {
            OnCountedInfo(c, st, p, payload);
          } else {
            OnProcessPart(p, payload);
          }
        case Memory =>
          OnProcessPart(p, payload);
        case Containers =>
          var cs := DbgpCodec.ParseContainerInfo(payload);
          if cs.Some? {
            signals := signals + [ContainersReady(p.pid, cs.value)];
          }
        case Action =>
      }
    }
  }
}
