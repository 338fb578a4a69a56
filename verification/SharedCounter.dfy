/** The session, the kernel explorer and the file explorer side by side, on one counter.
  *
  * Main results, over every run: the debug stream is only open in a ready session; two
  * ready signals are separated by a reset; inside one epoch the three tables never hold
  * the same number, so a frame answers at most one request. A handshake that restarts the
  * counter keeps this exactly when no outstanding number is at or beyond the restart.
  */
module SharedCounter {
  import opened BeIo
  import opened Wrappers
  import Deci3Codec
  import DbgpCodec
  import S = SessionController
  import K = KernelExplorer
  import F = FileExplorer
  import L = KernelExplorerLaws

  datatype World = World(session: S.State, kernel: K.State, files: F.State)

  datatype Event =
    | OfSession(s: S.Event)
    | OfKernel(k: K.Event)
    | OfFiles(f: F.Event)
    | Arrived(frame: Deci3Codec.Frame, lost: set<u32>)
    | ActionsTake(n: nat)

  predicate OneCounter(w: World) {
    w.kernel.seqNo == w.session.seqNo
  }

  function Boot(dex: bool): World {
    World(S.Start(dex), K.Start(S.FIRST_SEQ), F.Start())
  }

  function WithSession(w: World, s: S.State): World {
    World(s, w.kernel.(seqNo := s.seqNo), w.files)
  }

  function WithKernel(w: World, k: K.State): World {
    World(w.session.(seqNo := k.seqNo), k, w.files)
  }

  function WithDesk(w: World, d: F.Desk): World {
    World(d.session, w.kernel.(seqNo := d.session.seqNo), d.files)
  }

  const TARGET_TO_HOST: u16 := 0x5448
  const FILE_OPERATION_REPLY: u32 := 0x8020_000F

  /** What the dispatcher tells the file explorer about a frame. */
  function Routed(f: Deci3Codec.Frame): Option<F.Event> {
    if f.category != 0x0200 || f.direction != TARGET_TO_HOST || |f.payload| < 20
       || U32At(f.payload, 0) != FILE_OPERATION_REPLY then None
    else
      var bodyLen, avail := U32At(f.payload, 8), |f.payload| - 16;
      var take := if bodyLen < avail then bodyLen else avail;
      var marker := if take >= 8 then U32At(f.payload, 20) else 0;
      if (marker == 0x11 && take >= 16) || marker == 0x13 then None
      else if marker == 0x09 || marker == 0x0B || marker == 0x0D || marker == 0x17 || marker == 0x19 then
        Some(F.OpReply(U32At(f.payload, 4), marker, U32At(f.payload, 12)))
      else Some(F.ListReply(U32At(f.payload, 4), f.payload[16..16 + take]))
  }

  function Deliver(w: World, f: Deci3Codec.Frame, lost: set<u32>): World {
    var told := match Routed(f)
      case None => w
      case Some(e) => WithDesk(w, F.Step(F.Desk(w.session, w.files), e));
    WithKernel(told, K.Step(told.kernel, K.Received(f, lost)))
  }

  function Step(w: World, e: Event): World {
    match e
    case OfSession(s) => WithSession(w, S.Step(w.session, s))
    case OfKernel(k) => WithKernel(w, K.Step(w.kernel, k))
    case OfFiles(f) => WithDesk(w, F.Step(F.Desk(w.session, w.files), f))
    case Arrived(f, lost) => Deliver(w, f, lost)
    case ActionsTake(n) => WithSession(w, F.Taken(w.session, n))
  }

  /** The explorers' own events; frames and the counter reach them through the world. */
  predicate Genuine(e: Event) {
    match e
    case OfKernel(k) => k.Refresh? || k.RefreshContainers? || k.Act?
    case OfFiles(f) => f.ListDirectory? || f.StartOp? || f.Transfer?
    case _ => true
  }

  predicate AllGenuine(es: seq<Event>) {
    forall i :: 0 <= i < |es| ==> Genuine(es[i])
  }

  function Run(w: World, es: seq<Event>): World {
    if es == [] then w else Step(Run(w, es[..|es| - 1]), es[|es| - 1])
  }

  // ---------- session laws ----------

  predicate Alternates(marks: seq<S.Mark>) {
    forall i :: 0 <= i < |marks| - 1 && marks[i].SessionReady? ==> !marks[i + 1].SessionReady?
  }

  predicate SessionSound(s: S.State) {
    (s.streamOpen ==> s.ready)
    && (s.ready <==> s.marks != [] && s.marks[|s.marks| - 1].SessionReady?)
    && Alternates(s.marks)
  }

  lemma SessionStep(s: S.State, e: S.Event)
    requires SessionSound(s)
    ensures SessionSound(S.Step(s, e))
    ensures s.marks <= S.Step(s, e).marks
  {
  }

  lemma WorldSessionStep(w: World, e: Event)
    requires SessionSound(w.session)
    ensures SessionSound(Step(w, e).session)
    ensures w.session.marks <= Step(w, e).session.marks
  {
    hide K.Step;
    if e.OfSession? {
      SessionStep(w.session, e.s);
    }
  }

  /** Over every run, an open stream means a ready session. */
  lemma {:induction false} StreamNeedsSession(dex: bool, es: seq<Event>)
    ensures SessionSound(Run(Boot(dex), es).session)
  {
    if es != [] {
      StreamNeedsSession(dex, es[..|es| - 1]);
      WorldSessionStep(Run(Boot(dex), es[..|es| - 1]), es[|es| - 1]);
    }
  }

  /** Over every run, some reset lies between any two ready signals. */
  lemma ReadySignalsAreSeparated(dex: bool, es: seq<Event>, i: nat, j: nat)
    requires i < j < |Run(Boot(dex), es).session.marks|
    requires Run(Boot(dex), es).session.marks[i].SessionReady? && Run(Boot(dex), es).session.marks[j].SessionReady?
    ensures exists k :: i < k < j && !Run(Boot(dex), es).session.marks[k].SessionReady?
  {
    StreamNeedsSession(dex, es);
    assert !Run(Boot(dex), es).session.marks[i + 1].SessionReady?;
  }

  // ---------- numbers ----------

  function Cost(e: Event): nat {
    match e
    case OfSession(_) => 0
    case OfKernel(k) => L.Cost(k)
    case OfFiles(f) => FilesCost(f)
    case Arrived(f, _) => |f.payload|
    case ActionsTake(n) => n
  }

  function FilesCost(f: F.Event): nat {
    if f.ListDirectory? then 5 else 1
  }

  function CostAll(es: seq<Event>): nat {
    if es == [] then 0 else CostAll(es[..|es| - 1]) + Cost(es[|es| - 1])
  }

  /** Every entry of `t` was there in `s` or carries a number issued on the way. */
  predicate OnlyNew(s: K.State, t: K.State) {
    s.seqNo <= t.seqNo
    && forall q: u32 :: q in t.pending ==> (q in s.pending && t.pending[q] == s.pending[q]) || s.seqNo <= q < t.seqNo
  }

  lemma SendKeys(s: K.State, cmd: K.Command, pid: u32, h: u32, lost: set<u32>)
    requires s.seqNo + 1 < 0x1_0000_0000
    ensures OnlyNew(s, K.Send(s, cmd, pid, h, lost)) && K.Send(s, cmd, pid, h, lost).seqNo == s.seqNo + 1
  {
    hide K.Suits;
  }

  lemma OnlyNewThrough(s: K.State, m: K.State, t: K.State)
    requires OnlyNew(s, m) && OnlyNew(m, t)
    ensures OnlyNew(s, t)
  {
  }

  lemma AskOneKeys(s: K.State, c: K.Category, pid: u32, h: u32, lost: set<u32>)
    requires s.seqNo + L.Stride(c) < 0x1_0000_0000
    ensures OnlyNew(s, K.AskOne(s, c, pid, h, lost)) && K.AskOne(s, c, pid, h, lost).seqNo == s.seqNo + L.Stride(c)
  {
    hide K.Send, OnlyNew;
    if c == K.Process {
      var m := K.Send(s, K.Info(c), h, 0, lost);
      SendKeys(s, K.Info(c), h, 0, lost);
      SendKeys(m, K.Memory, h, 0, lost);
      OnlyNewThrough(s, m, K.AskOne(s, c, pid, h, lost));
    } else {
      SendKeys(s, K.Info(c), pid, h, lost);
    }
  }

  lemma {:induction false} AskKeys(s: K.State, c: K.Category, pid: u32, hs: seq<u32>, lost: set<u32>)
    requires s.seqNo + L.Stride(c) * |hs| < 0x1_0000_0000
    ensures OnlyNew(s, K.Ask(s, c, pid, hs, lost)) && K.Ask(s, c, pid, hs, lost).seqNo == s.seqNo + L.Stride(c) * |hs|
  {
    if hs != [] {
      hide OnlyNew, K.AskOne, K.Suits;
      var n := |hs| - 1;
      var m := K.Ask(s, c, pid, hs[..n], lost);
      AskKeys(s, c, pid, hs[..n], lost);
      AskOneKeys(m, c, pid, hs[n], lost);
      OnlyNewThrough(s, m, K.Ask(s, c, pid, hs, lost));
    }
  }

  lemma ReplyKeys(s: K.State, p: K.Pending, payload: seq<byte>, lost: set<u32>)
    requires s.seqNo + |payload| < 0x1_0000_0000
    ensures OnlyNew(s, K.Reply(s, p, payload, lost)) && K.Reply(s, p, payload, lost).seqNo <= s.seqNo + |payload|
  {
    hide K.Part, K.Ask, K.Listed, K.Handles, K.EmptyList;
    if p.cmd.List? && K.Handles(p.cmd.c, payload).Some? {
      var c, hs := p.cmd.c, K.Handles(p.cmd.c, payload).value;
      L.HandlesAreFew(c, payload);
      var m := s.(accums := s.accums.With(c, K.Listed(c, s.accums.Of(c), p.pid, hs)));
      AskKeys(m, c, p.pid, hs, lost);
    } else if p.cmd.Info? || p.cmd == K.Memory {
      PartKeys(s, if p.cmd.Info? then p.cmd.c else K.Process, p, payload);
    }
  }

  lemma PartKeys(s: K.State, c: K.Category, p: K.Pending, payload: seq<byte>)
    ensures K.Part(s, c, p, payload).pending == s.pending && K.Part(s, c, p, payload).seqNo == s.seqNo
  {
  }

  lemma ReceivedKeys(s: K.State, f: Deci3Codec.Frame, lost: set<u32>)
    requires s.seqNo + |f.payload| < 0x1_0000_0000
    ensures var t := K.Step(s, K.Received(f, lost));
            OnlyNew(s, t) && t.seqNo <= s.seqNo + |f.payload|
    ensures !(K.Accepted(f) && K.Answer(f).reqId in s.pending) ==> K.Step(s, K.Received(f, lost)) == s
  {
    hide K.Reply, K.Accepted, K.Answer;
    if K.Accepted(f) && K.Answer(f).reqId in s.pending {
      var q := K.Answer(f).reqId;
      var m := s.(pending := s.pending - {q});
      L.AnswerIsShorter(f);
      ReplyKeys(m, s.pending[q], K.Answer(f).payload, lost);
    }
  }

  lemma KernelKeys(s: K.State, e: K.Event)
    requires (e.Refresh? || e.RefreshContainers? || e.Act?) && s.seqNo + L.Cost(e) < 0x1_0000_0000
    ensures OnlyNew(s, K.Step(s, e)) && K.Step(s, e).seqNo <= s.seqNo + L.Cost(e)
  {
    hide K.Send, K.Refreshed;
    match e
    case Refresh(c, pid, lost) =>
      assert K.Suits(c, K.Refreshed(c, s.accums.Of(c), pid));
      var m := s.(accums := s.accums.With(c, K.Refreshed(c, s.accums.Of(c), pid)));
      SendKeys(m, K.List(c), if c == K.Process then 0 else pid, 0, lost);
    case RefreshContainers(pid, lost) => SendKeys(s, K.Containers, pid, 0, lost);
    case Act(pid, lost) => if pid != 0 { SendKeys(s, K.Action, pid, 0, lost); }
  }

  // ---------- the three tables ----------

  predicate Listing(w: World, q: u32) {
    w.files.listSeq != 0 && q == w.files.listSeq
  }

  /** No number is held twice. */
  predicate Disjoint(w: World) {
    (forall q: u32 :: q in w.kernel.pending ==> q !in w.files.ops && !Listing(w, q))
    && (forall q: u32 :: q in w.files.ops ==> !Listing(w, q))
  }

  /** The counter is beyond every number held. */
  predicate Beyond(w: World, seqNo: u32) {
    (forall q: u32 :: q in w.kernel.pending ==> q < seqNo)
    && (forall q: u32 :: q in w.files.ops ==> q < seqNo)
    && (w.files.listSeq != 0 ==> w.files.listSeq < seqNo)
  }

  predicate Apart(w: World) {
    OneCounter(w) && Disjoint(w) && Beyond(w, w.session.seqNo)
  }

  /** Entries that were there before are the same or gone: none is overwritten. */
  predicate OldOnlyLeave(w: World, v: World) {
    w.session.seqNo <= v.session.seqNo
    && (forall q: u32 :: q in v.kernel.pending && q < w.session.seqNo ==>
          q in w.kernel.pending && v.kernel.pending[q] == w.kernel.pending[q])
    && (forall q: u32 :: q in v.files.ops && q < w.session.seqNo ==> q in w.files.ops && v.files.ops[q] == w.files.ops[q])
    && (v.files.listSeq != 0 && v.files.listSeq < w.session.seqNo ==> v.files.listSeq == w.files.listSeq)
  }

  predicate Restarts(w: World, e: Event) {
    e.OfSession? && e.s.HandshakeAcked? && w.session.subToken != 0 && !w.session.ready
  }

  lemma KernelMoves(w: World, k: K.State)
    requires Apart(w) && OnlyNew(w.kernel, k)
    ensures Apart(WithKernel(w, k)) && OldOnlyLeave(w, WithKernel(w, k))
  {
  }

  lemma DeskMoves(w: World, f: F.Event)
    requires Apart(w) && w.session.seqNo + FilesCost(f) < 0x1_0000_0000
    ensures var v := WithDesk(w, F.Step(F.Desk(w.session, w.files), f));
            Apart(v) && OldOnlyLeave(w, v) && v.session.seqNo <= w.session.seqNo + FilesCost(f)
  {
    hide K.Suits, Apart, OldOnlyLeave;
    match f
    case ListDirectory(path, linkReady, haveSettings) =>
      if linkReady && w.session.ready {
        ListingMoves(w, path, haveSettings);
      } else {
        StaysPut(w);
        SameCounter(w);
      }
    case StartOp(op, linkReady, sent) => StartMoves(w, f);
    case Transfer(linkReady, sent) => StartMoves(w, f);
    case SessionInvalidated => InvalidationMoves(w);
    case _ => RoutedMoves(w, f);
  }

  lemma ListingMoves(w: World, path: string, haveSettings: bool)
    requires Apart(w) && w.session.ready && w.session.seqNo + 5 < 0x1_0000_0000
    ensures var v := WithDesk(w, F.Step(F.Desk(w.session, w.files), F.ListDirectory(path, true, haveSettings)));
            Apart(v) && OldOnlyLeave(w, v) && v.session.seqNo <= w.session.seqNo + 5
  {
    hide K.Suits;
  }

  lemma StartMoves(w: World, f: F.Event)
    requires Apart(w) && w.session.seqNo + 1 < 0x1_0000_0000 && (f.StartOp? || f.Transfer?)
    ensures var v := WithDesk(w, F.Step(F.Desk(w.session, w.files), f));
            Apart(v) && OldOnlyLeave(w, v) && v.session.seqNo <= w.session.seqNo + 1
  {
    hide K.Suits;
  }

  lemma InvalidationMoves(w: World)
    requires Apart(w)
    ensures var v := WithDesk(w, F.Step(F.Desk(w.session, w.files), F.SessionInvalidated));
            Apart(v) && OldOnlyLeave(w, v) && v.session.seqNo == w.session.seqNo
  {
    hide K.Suits;
  }

  lemma RoutedMoves(w: World, f: F.Event)
    requires Apart(w) && (f.OpReply? || f.ListReply?)
    ensures var v := WithDesk(w, F.Step(F.Desk(w.session, w.files), f));
            Apart(v) && OldOnlyLeave(w, v) && v.session.seqNo == w.session.seqNo
  {
    hide K.Suits;
  }

  lemma ThroughTwo(w: World, m: World, v: World)
    requires OldOnlyLeave(w, m) && OldOnlyLeave(m, v)
    ensures OldOnlyLeave(w, v)
  {
  }

  lemma ApartStep(w: World, e: Event)
    requires Apart(w) && Genuine(e) && !Restarts(w, e) && w.session.seqNo + Cost(e) < 0x1_0000_0000
    ensures Apart(Step(w, e)) && OldOnlyLeave(w, Step(w, e)) && Step(w, e).session.seqNo <= w.session.seqNo + Cost(e)
  {
    match e
    case OfSession(s) => SessionKeeps(w, s);
    case OfKernel(k) =>
      KernelKeys(w.kernel, k);
      hide K.Step, OnlyNew;
      KernelMoves(w, K.Step(w.kernel, k));
    case OfFiles(f) => DeskMoves(w, f);
    case Arrived(f, lost) => DeliverKeeps(w, f, lost);
    case ActionsTake(n) => CounterMoves(w, F.Taken(w.session, n));
  }

  lemma CounterMoves(w: World, s: S.State)
    requires Apart(w) && w.session.seqNo <= s.seqNo
    ensures Apart(WithSession(w, s)) && OldOnlyLeave(w, WithSession(w, s))
  {
  }

  lemma SessionKeeps(w: World, s: S.Event)
    requires Apart(w) && !Restarts(w, OfSession(s))
    ensures var v := WithSession(w, S.Step(w.session, s));
            Apart(v) && OldOnlyLeave(w, v) && v.session.seqNo == w.session.seqNo
  {
    CounterMoves(w, S.Step(w.session, s));
  }

  lemma DeliverKeeps(w: World, f: Deci3Codec.Frame, lost: set<u32>)
    requires Apart(w) && w.session.seqNo + |f.payload| < 0x1_0000_0000
    ensures var v := Deliver(w, f, lost);
            Apart(v) && OldOnlyLeave(w, v) && v.session.seqNo <= w.session.seqNo + |f.payload|
  {
    hide K.Step, OnlyNew, Apart, OldOnlyLeave, Routed;
    var told := w;
    StaysPut(w);
    var r := Routed(f);
    if r.Some? {
      RoutedIsReply(f);
      told := WithDesk(w, F.Step(F.Desk(w.session, w.files), r.value));
      RoutedMoves(w, r.value);
    }
    assert told.kernel.seqNo == told.session.seqNo by { SameCounter(told); }
    ReceivedKeys(told.kernel, f, lost);
    KernelMoves(told, K.Step(told.kernel, K.Received(f, lost)));
    ThroughTwo(w, told, Deliver(w, f, lost));
  }

  lemma SameCounter(w: World)
    requires Apart(w)
    ensures w.kernel.seqNo == w.session.seqNo
  {
  }

  lemma StaysPut(w: World)
    ensures OldOnlyLeave(w, w)
  {
  }

  lemma RoutedIsReply(f: Deci3Codec.Frame)
    ensures Routed(f).Some? ==>
            |f.payload| >= 20 && (Routed(f).value.OpReply? || Routed(f).value.ListReply?) && Routed(f).value.seqNo == U32At(f.payload, 4)
  {
  }

  // ---------- epochs ----------

  /** No handshake restarts the counter on the way. */
  predicate SameEpoch(w: World, es: seq<Event>) {
    forall i :: 0 <= i < |es| ==> !Restarts(Run(w, es[..i]), es[i])
  }

  /** Over every run inside one epoch the three tables stay apart, and an outstanding
    * request keeps its entry until it is answered. */
  lemma {:induction false} TablesStayApart(w: World, es: seq<Event>)
    requires Apart(w) && AllGenuine(es) && SameEpoch(w, es) && w.session.seqNo + CostAll(es) < 0x1_0000_0000
    ensures Apart(Run(w, es)) && OldOnlyLeave(w, Run(w, es)) && Run(w, es).session.seqNo <= w.session.seqNo + CostAll(es)
  {
    if es == [] {
      StaysPut(w);
    } else {
      hide Step, Apart, OldOnlyLeave, Restarts, Cost;
      var n := |es| - 1;
      assert SameEpoch(w, es[..n]) by {
        assert forall i :: 0 <= i < n ==> es[..n][..i] == es[..i];
      }
      TablesStayApart(w, es[..n]);
      ApartStep(Run(w, es[..n]), es[n]);
      ThroughTwo(w, Run(w, es[..n]), Run(w, es));
    }
  }

  /** In such a world a frame answers at most one request of one controller. */
  lemma FrameAnswersOne(w: World, f: Deci3Codec.Frame, lost: set<u32>)
    requires Apart(w) && w.session.seqNo + |f.payload| < 0x1_0000_0000
    ensures var v := Deliver(w, f, lost);
            (v.files.ops != w.files.ops ==> v.files.listSeq == w.files.listSeq && v.kernel == w.kernel)
            && (v.files.listSeq != w.files.listSeq ==> v.files.ops == w.files.ops && v.kernel == w.kernel)
            && (v.kernel != w.kernel ==> v.files.ops == w.files.ops && v.files.listSeq == w.files.listSeq)
  {
    var r := Routed(f);
    RoutedIsReply(f);
    if r.Some? {
      var told := WithDesk(w, F.Step(F.Desk(w.session, w.files), r.value));
      assert told.kernel == w.kernel;
      assert K.Accepted(f) ==> K.Answer(f).reqId == U32At(f.payload, 4);
      hide K.Step, Routed, K.Accepted, K.Answer, K.Suits;
      ReceivedKeys(told.kernel, f, lost);
    }
  }

  lemma BootIsApart(dex: bool)
    ensures Apart(Boot(dex))
  {
  }

  /** No signal of the session reaches the tables: whatever the session goes through, every
    * outstanding request, listing and operation is still there afterwards. */
  lemma {:induction false} SessionEmptiesNoTable(w: World, es: seq<Event>)
    requires forall i :: 0 <= i < |es| ==> es[i].OfSession?
    ensures Run(w, es).kernel.pending == w.kernel.pending && Run(w, es).files == w.files
  {
    hide S.Step;
    if es != [] {
      SessionEmptiesNoTable(w, es[..|es| - 1]);
    }
  }

  // ---------- the next epoch ----------

  function Handshake(msecs: nat): Event {
    OfSession(S.HandshakeAcked(msecs))
  }

  /** The events stay in the epoch they start in, and its counter does not wrap. */
  predicate WithinEpoch(w: World, es: seq<Event>) {
    AllGenuine(es) && SameEpoch(w, es) && w.session.seqNo + CostAll(es) < 0x1_0000_0000
  }

  /** A handshake restarts the counter. In the epoch it opens no number is ever held twice,
    * whatever happens, if and only if every number still held from before lies below the
    * restart. A number at or beyond it is reached by the counter and handed out again. */
  lemma NextEpochIsSafeIff(w: World, msecs: nat)
    requires Apart(w) && Restarts(w, Handshake(msecs))
    ensures (forall es :: WithinEpoch(Step(w, Handshake(msecs)), es) ==> Disjoint(Run(Step(w, Handshake(msecs)), es)))
       <==> Beyond(w, S.RestartedSeq(msecs))
  {
    hide K.Suits, Run, Disjoint, Beyond, WithinEpoch, S.RestartedSeq;
    var v := Step(w, Handshake(msecs));
    RestartMoves(w, msecs);
    if Beyond(w, S.RestartedSeq(msecs)) {
      forall es | WithinEpoch(v, es) ensures Disjoint(Run(v, es)) {
        EpochStaysApart(v, es);
      }
    } else {
      var q := HeldBeyond(w, S.RestartedSeq(msecs));
      var es := [ActionsTake(q - v.session.seqNo), Taking(v, q)];
      TakenAgain(v, q);
      assert WithinEpoch(v, es) && !Disjoint(Run(v, es));
    }
  }

  lemma RestartMoves(w: World, msecs: nat)
    requires Apart(w) && Restarts(w, Handshake(msecs))
    ensures var v := Step(w, Handshake(msecs));
            v.session.seqNo == S.RestartedSeq(msecs) >= 0x1000 && v.session.ready && OneCounter(v)
            && v.kernel.pending == w.kernel.pending && v.files == w.files
            && (Beyond(w, S.RestartedSeq(msecs)) ==> Apart(v))
            && forall q: u32 :: Holds(w, q) ==> Holds(v, q) && q < 0xFFFF_FFFF
  {
  }

  lemma EpochStaysApart(v: World, es: seq<Event>)
    requires Apart(v) && WithinEpoch(v, es)
    ensures Disjoint(Run(v, es))
  {
    TablesStayApart(v, es);
  }

  predicate Holds(w: World, q: u32) {
    q in w.kernel.pending || q in w.files.ops || Listing(w, q)
  }

  lemma HeldBeyond(w: World, seqNo: u32) returns (q: u32)
    requires !Beyond(w, seqNo)
    ensures Holds(w, q) && q >= seqNo
  {
    if k: u32 :| k in w.kernel.pending && k >= seqNo {
      q := k;
    } else if k: u32 :| k in w.files.ops && k >= seqNo {
      q := k;
    } else {
      q := w.files.listSeq;
    }
  }

  /** A request of a controller that does not hold `q` itself. */
  function Taking(v: World, q: u32): Event {
    if q in v.kernel.pending then OfFiles(F.StartOp(F.Delete, true, true)) else OfKernel(K.Refresh(K.Mutex, 7, {}))
  }

  /** Two events hand a held number out again. */
  lemma TakenAgain(v: World, q: u32)
    requires OneCounter(v) && v.session.ready && Holds(v, q) && v.session.seqNo <= q < 0xFFFF_FFFF && q != 0
    ensures var es := [ActionsTake(q - v.session.seqNo), Taking(v, q)];
            WithinEpoch(v, es) && !Disjoint(Run(v, es))
  {
    hide K.Step, K.Suits, Restarts, Disjoint, OneCounter, Holds, F.Step;
    var take, e := ActionsTake(q - v.session.seqNo), Taking(v, q);
    RunOfTwo(v, take, e);
    var m := Step(v, take);
    CounterReaches(v, q);
    if q in v.kernel.pending {
      DeleteTakes(m, q);
    } else {
      RefreshTakes(m, q);
    }
    assert !Restarts(v, take) && !Restarts(m, e) by {
      NoHandshake(v, take);
      NoHandshake(m, e);
    }
  }

  lemma NoHandshake(v: World, e: Event)
    requires !e.OfSession?
    ensures !Restarts(v, e)
  {
  }

  lemma CounterReaches(v: World, q: u32)
    requires OneCounter(v) && v.session.seqNo <= q && Holds(v, q)
    ensures var m := Step(v, ActionsTake(q - v.session.seqNo));
            m.session == v.session.(seqNo := q) && m.kernel == v.kernel.(seqNo := q) && m.files == v.files && Holds(m, q)
  {
  }

  lemma DeleteTakes(m: World, q: u32)
    requires q in m.kernel.pending && m.session.seqNo == q != 0 && m.session.ready
    ensures !Disjoint(Step(m, OfFiles(F.StartOp(F.Delete, true, true))))
  {
    hide K.Suits;
    var t := Step(m, OfFiles(F.StartOp(F.Delete, true, true)));
    assert q in t.files.ops && q in t.kernel.pending;
  }

  lemma RefreshTakes(m: World, q: u32)
    requires Holds(m, q) && q !in m.kernel.pending && m.kernel.seqNo == q
    ensures !Disjoint(Step(m, OfKernel(K.Refresh(K.Mutex, 7, {}))))
  {
    hide K.Suits;
    var t := Step(m, OfKernel(K.Refresh(K.Mutex, 7, {})));
    assert t.files == m.files;
    assert q in t.kernel.pending;
  }

  lemma RunOfTwo(v: World, a: Event, b: Event)
    ensures Run(v, [a, b]) == Step(Step(v, a), b) && CostAll([a, b]) == Cost(a) + Cost(b)
    ensures Run(v, [a, b][..0]) == v && Run(v, [a, b][..1]) == Step(v, a)
  {
    hide Step, Cost;
    OneMoreEvent(v, [], a);
    OneMoreEvent(v, [a], b);
    assert [] + [a] == [a] && [a] + [b] == [a, b] && [a, b][..1] == [a] && [a, b][..0] == [];
  }

  lemma OneMoreEvent(v: World, es: seq<Event>, e: Event)
    ensures Run(v, es + [e]) == Step(Run(v, es), e) && CostAll(es + [e]) == CostAll(es) + Cost(e)
  {
    hide Step, Cost;
    assert (es + [e])[..|es|] == es;
  }

  /** A first epoch: a mutex refresh is still unanswered when the console reaps the session
    * and grants a new one. */
  function Reaped(msecs: nat): World {
    var granted := Step(Step(Boot(false), OfSession(S.Token(1))), OfSession(S.SubToken(1)));
    var ready := Step(granted, OfSession(S.HandshakeAcked(msecs)));
    var asked := Step(ready, OfKernel(K.Refresh(K.Mutex, 7, {})));
    Step(Step(asked, OfSession(S.Reaped(1))), OfSession(S.SubToken(2)))
  }

  /** What the console sends when it has deleted a file under number `q`. */
  function DeleteDone(q: u32): Deci3Codec.Frame {
    K.FrameOf(DbgpCodec.Response(FILE_OPERATION_REPLY, q, 8, 0, 0, BigEndian(4, 9)))
  }

  lemma DeleteDoneIsRouted(q: u32)
    ensures K.Accepted(DeleteDone(q)) && K.Answer(DeleteDone(q)).reqId == q
    ensures K.Handles(K.Mutex, K.Answer(DeleteDone(q)).payload) == Some([])
    ensures Routed(DeleteDone(q)) == Some(F.OpReply(q, 9, 0))
  {
    var r := DbgpCodec.Response(FILE_OPERATION_REPLY, q, 8, 0, 0, BigEndian(4, 9));
    hide BigEndian, K.FrameOf, DbgpCodec.ResponseBytes, DbgpCodec.Words;
    K.FrameIsAccepted(r);
    NoHandlesIn(BigEndian(4, 9));
    WordsOfFrame(r, 9);
  }

  lemma NoHandlesIn(p: seq<byte>)
    requires p == BigEndian(4, 9)
    ensures DbgpCodec.HandleList(p) == []
  {
    hide BigEndian;
  }

  lemma WordsOfFrame(r: DbgpCodec.Response, marker: u32)
    requires r.payload == BigEndian(4, marker)
    ensures var f := K.FrameOf(r);
            |f.payload| == 25 && f.category == 0x0200 && f.direction == TARGET_TO_HOST
            && U32At(f.payload, 0) == r.cmd && U32At(f.payload, 4) == r.reqId && U32At(f.payload, 8) == r.dataLen
            && U32At(f.payload, 12) == r.processId && U32At(f.payload, 20) == marker
  {
    hide BigEndian, DbgpCodec.Trailer;
    var p := K.FrameOf(r).payload;
    assert p[0..4] == BigEndian(4, r.cmd) && p[4..8] == BigEndian(4, r.reqId) && p[8..12] == BigEndian(4, r.dataLen);
    assert p[12..16] == BigEndian(4, r.processId) && p[20..24] == BigEndian(4, marker);
    ReadU32(p, 0, r.cmd);
    ReadU32(p, 4, r.reqId);
    ReadU32(p, 8, r.dataLen);
    ReadU32(p, 12, r.processId);
    ReadU32(p, 20, marker);
  }

  /** The kernel explorer keeps the request of the first epoch. When the second one starts
    * at its number or below, a delete can take that number too, and the console's answer to
    * the delete then also retires the mutex list. */
  lemma StaleNumberCrosses(first: nat, second: nat)
    requires S.RestartedSeq(second) <= S.RestartedSeq(first)
    ensures var q := S.RestartedSeq(first);
            var again := Step(Reaped(first), Handshake(second));
            var reached := Step(again, ActionsTake(q - S.RestartedSeq(second)));
            var w := Step(reached, OfFiles(F.StartOp(F.Delete, true, true)));
            var v := Step(w, Arrived(DeleteDone(q), {}));
            q in w.kernel.pending && q in w.files.ops && q !in v.kernel.pending && q !in v.files.ops
  {
    hide Routed, K.Accepted, K.Answer, K.Handles, K.Suits, DeleteDone;
    var q := S.RestartedSeq(first);
    StaleRequest(first);
    DeleteDoneIsRouted(q);
    var again := Step(Reaped(first), Handshake(second));
    var reached := Step(again, ActionsTake(q - S.RestartedSeq(second)));
    assert reached.session.seqNo == q && reached.session.ready;
    var w := Step(reached, OfFiles(F.StartOp(F.Delete, true, true)));
    assert w.files.ops == map[q := F.Delete];
    assert w.kernel.pending == map[q := K.Pending(K.List(K.Mutex), 7, 0)];
    MutexListRetired(w, DeleteDone(q), q);
  }

  lemma MutexListRetired(w: World, f: Deci3Codec.Frame, q: u32)
    requires w.kernel.pending == map[q := K.Pending(K.List(K.Mutex), 7, 0)] && w.files.ops == map[q := F.Delete]
    requires Routed(f) == Some(F.OpReply(q, 9, 0)) && K.Accepted(f) && K.Answer(f).reqId == q
    requires K.Handles(K.Mutex, K.Answer(f).payload) == Some([])
    ensures var v := Deliver(w, f, {}); q !in v.kernel.pending && q !in v.files.ops
  {
    hide Routed, K.Accepted, K.Answer, K.Handles, K.Suits;
  }

  lemma StaleRequest(msecs: nat)
    ensures var w := Reaped(msecs);
            w.kernel.pending == map[S.RestartedSeq(msecs) := K.Pending(K.List(K.Mutex), 7, 0)]
            && w.files == F.Start() && !w.session.ready && w.session.subToken == 2
  {
  }
}
