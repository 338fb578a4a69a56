/** Every call is paired with its own result, however the bytes are cut. */
module RpcPairing {
  import opened BeIo
  import opened Wrappers
  import opened RpcLines
  import opened RpcMessages
  import C = RpcClient
  import S = RpcServer
  import opened RpcSystem

  // ---------- bytes refine queues ----------

  /** The bytes of each direction, half-read ones included, print the queued messages. */
  predicate Refines(codec: Codec, sys: System, f: Flow) {
    f.client == sys.client.(buf := []) && f.served == sys.server.served && f.linked == sys.server.writable
    && f.past == sys.past && NoNewline(sys.client.buf)
    && (if f.linked then
          sys.client.buf + sys.server.out == Wire(codec, f.down) && sys.server.buf + sys.up == Wire(codec, f.up)
        else sys.server.out == [] && sys.server.buf == [] && sys.up == [])
  }

  lemma PrintedStep(codec: Codec, ms: seq<Message>, j: nat)
    requires 0 < j <= |ms|
    ensures Printed(codec, ms[..j]) == [Line(codec.show(ms[0]))] + Printed(codec, ms[1..][..j - 1])
  {
    assert ms[..j][1..] == ms[1..][..j - 1];
  }

  lemma WireGrows(codec: Codec, ms: seq<Message>, m: Message, got: seq<byte>, coming: seq<byte>)
    requires got + coming == Wire(codec, ms)
    ensures got + (coming + OnWire(codec, m)) == Wire(codec, ms + [m])
  {
    WireOfSum(codec, ms, [m]);
    assert Wire(codec, [m]) == OnWire(codec, m) + Wire(codec, []);
    assert got + (coming + OnWire(codec, m)) == (got + coming) + OnWire(codec, m);
  }

  lemma {:induction false} ServingRefines(codec: Codec, serve: S.Serve, s: S.Session, f: Flow, j: nat, read: seq<byte>)
    requires Lawful(codec) && j <= |f.up| && s.served == f.served && s.writable && f.linked
    requires read + s.out == Wire(codec, f.down)
    ensures var t := S.ServeLines(codec, serve, s, Printed(codec, f.up[..j])); var g := ServeSome(serve, f, j);
            t.buf == s.buf && t.writable && t.served == g.served && read + t.out == Wire(codec, g.down)
            && g.client == f.client && g.linked && g.up == f.up[j..]
            && g.past == f.past.(answers := Outcomes(codec, serve, s.served, Printed(codec, f.up[..j]), f.past.answers))
    decreases j
  {
    if j > 0 {
      var m := f.up[0];
      PrintedStep(codec, f.up, j);
      assert PrintsWell(codec, m);
      var s' := S.ServeMessage(codec, serve, s, m);
      WireGrows(codec, f.down, Reply(S.EchoOf(m), serve(f.served, S.CallIn(m))), read, s.out);
      hide Wire, OnWire, Kept, NoNewline;
      ServingRefines(codec, serve, s', ServeOne(serve, f), j - 1, read);
      assert f.up[1..][j - 1..] == f.up[j..];
    } else {
      assert f.up[0..] == f.up;
    }
  }

  lemma {:induction false} DeliveringRefines(codec: Codec, f: Flow, j: nat)
    requires Lawful(codec) && j <= |f.down|
    ensures var g := DeliverSome(f, j);
            g == f.(client := C.HandleLines(codec, f.client, Printed(codec, f.down[..j])), down := f.down[j..])
    decreases j
  {
    if j > 0 {
      PrintedStep(codec, f.down, j);
      assert PrintsWell(codec, f.down[0]);
      hide C.HandleMessage, Kept, NoNewline;
      DeliveringRefines(codec, DeliverOne(f), j - 1);
      assert f.down[1..][j - 1..] == f.down[j..];
    } else {
      assert f.down[0..] == f.down;
    }
  }

  lemma Recut(a: seq<byte>, b: seq<byte>, k: nat)
    requires k <= |b|
    ensures (a + b[..k]) + b[k..] == a + b
  {
  }

  // ---------- events on their way ----------

  function Notices(ms: seq<Message>): seq<Message> {
    if ms == [] then [] else (if ms[0].Notice? then [ms[0]] else []) + Notices(ms[1..])
  }

  lemma {:induction false} NoticesOfSum(xs: seq<Message>, ys: seq<Message>)
    ensures Notices(xs + ys) == Notices(xs) + Notices(ys)
  {
    if xs == [] {
      assert xs + ys == ys;
    } else {
      var m := xs[0];
      NoticesOfSum(xs[1..], ys);
      assert (xs + ys)[0] == m && (xs + ys)[1..] == xs[1..] + ys;
      FirstNotice(xs + ys);
      FirstNotice(xs);
      hide Notices;
      Associate(if m.Notice? then [m] else [], Notices(xs[1..]), Notices(ys));
    }
  }

  lemma Associate(a: seq<Message>, b: seq<Message>, c: seq<Message>)
    ensures a + (b + c) == (a + b) + c
  {
  }

  lemma FirstNotice(ms: seq<Message>)
    requires ms != []
    ensures Notices(ms) == (if ms[0].Notice? then [ms[0]] else []) + Notices(ms[1..])
  {
  }

  /** The events passed on by the client and those still under way to it. */
  function Pipeline(f: Flow): seq<Message> {
    f.client.notices + Notices(f.down)
  }

  lemma {:induction false} ServingKeepsNotices(serve: S.Serve, f: Flow, k: nat)
    requires k <= |f.up|
    ensures Pipeline(ServeSome(serve, f, k)) == Pipeline(f)
    decreases k
  {
    if k > 0 {
      var m := f.up[0];
      var reply := Reply(S.EchoOf(m), serve(f.served, S.CallIn(m)));
      NoticesOfSum(f.down, [reply]);
      assert Notices([reply]) == [];
      ServingKeepsNotices(serve, ServeOne(serve, f), k - 1);
    }
  }

  lemma {:induction false} DeliveringKeepsNotices(f: Flow, k: nat)
    requires k <= |f.down|
    ensures Pipeline(DeliverSome(f, k)) == Pipeline(f)
    decreases k
  {
    if k > 0 {
      OneDelivered(f);
      DeliveringKeepsNotices(DeliverOne(f), k - 1);
    }
  }

  lemma OneDelivered(f: Flow)
    requires f.down != []
    ensures Pipeline(DeliverOne(f)) == Pipeline(f)
  {
    var m := f.down[0];
    if m.Notice? {
      assert f.client.notices + [m] + Notices(f.down[1..]) == f.client.notices + ([m] + Notices(f.down[1..]));
    } else {
      assert [] + Notices(f.down[1..]) == Notices(f.down[1..]);
    }
  }

  lemma ServerReadsRefines(codec: Codec, serve: S.Serve, sys: System, f: Flow, n: nat) returns (g: Flow)
    requires Lawful(codec) && Refines(codec, sys, f) && Sound(serve, f)
    ensures Refines(codec, Step(codec, serve, sys, ServerReads(n)), g) && Sound(serve, g) && Pipeline(g) == Pipeline(f)
  {
    hide Sound, Pipeline, Wire, SplitLines, S.ServeLines, Outcomes, ServeSome;
    var k := AtMost(n, |sys.up|);
    var got := sys.server.buf + sys.up[..k];
    if f.linked {
      Recut(sys.server.buf, sys.up, k);
      PrefixOfWire(codec, f.up, got, sys.up[k..]);
      var split := SplitLines(got);
      var j := |split.lines|;
      ServingRefines(codec, serve, sys.server.(buf := split.rest), f, j, sys.client.buf);
      ServeSomeKeeps(serve, f, j);
      ServingKeepsNotices(serve, f, j);
      g := ServeSome(serve, f, j);
    } else {
      assert got == [];
      NothingToRead(codec, serve, sys.server, sys.past.answers);
      g := f;
    }
  }

  lemma NothingToRead(codec: Codec, serve: S.Serve, s: S.Session, answers: map<int, Outcome>)
    ensures SplitLines([]) == Split([], []) && S.ServeLines(codec, serve, s, []) == s
    ensures Outcomes(codec, serve, s.served, [], answers) == answers
  {
  }

  lemma ClientReadsRefines(codec: Codec, serve: S.Serve, sys: System, f: Flow, n: nat) returns (g: Flow)
    requires Lawful(codec) && Refines(codec, sys, f) && Sound(serve, f)
    ensures Refines(codec, Step(codec, serve, sys, ClientReads(n)), g) && Sound(serve, g) && Pipeline(g) == Pipeline(f)
  {
    hide Sound, Pipeline, Wire, SplitLines, C.HandleLines, DeliverSome, NoNewline;
    var k := AtMost(n, |sys.server.out|);
    var got := sys.client.buf + sys.server.out[..k];
    var split := SplitLines(got);
    RestHasNoNewline(got);
    C.BufferRidesAlong(codec, f.client, split.lines, split.rest);
    C.BufferRidesAlong(codec, f.client, split.lines, []);
    assert sys.client.(buf := split.rest) == f.client.(buf := split.rest);
    assert f.client.(buf := []) == f.client;
    if f.linked {
      Recut(sys.client.buf, sys.server.out, k);
      PrefixOfWire(codec, f.down, got, sys.server.out[k..]);
      var j := |split.lines|;
      DeliveringRefines(codec, f, j);
      DeliverSomeKeeps(serve, f, j);
      DeliveringKeepsNotices(f, j);
      g := DeliverSome(f, j);
    } else {
      assert got == sys.client.buf;
      QuietBuffer(got);
      NoLines(codec, f.client);
      g := f;
    }
  }

  lemma QuietBuffer(b: seq<byte>)
    requires NoNewline(b)
    ensures SplitLines(b) == Split([], b)
  {
    NewlineAtIs(b, |b|);
    Unfinished(b);
  }

  lemma NoLines(codec: Codec, c: C.Client)
    ensures C.HandleLines(codec, c, []) == c
  {
  }

  lemma CallRefines(codec: Codec, serve: S.Serve, sys: System, f: Flow, call: Call, handler: Option<nat>)
    requires Refines(codec, sys, f) && Sound(serve, f)
    ensures Refines(codec, Step(codec, serve, sys, Calls(call, handler)), FlowCalls(f, call, handler))
    ensures Sound(serve, FlowCalls(f, call, handler)) && Pipeline(FlowCalls(f, call, handler)) == Pipeline(f)
  {
    hide QueuesSound, PastSound, HandlersSound, UnderWay, Wire, NoNewline;
    LinkedIsConnected(f);
    CallKeepsQueues(serve, f, call, handler);
    CallKeepsHandlers(serve, f, call, handler);
    CallKeepsUnderWay(f, call, handler);
    if f.linked {
      WireGrows(codec, f.up, Request(f.client.nextId + 1, call), sys.server.buf, sys.up);
    }
  }

  lemma LinkedIsConnected(f: Flow)
    requires QueuesSound(f)
    ensures f.linked <==> C.Connected(f.client)
  {
  }

  lemma NoticeRefines(codec: Codec, serve: S.Serve, sys: System, f: Flow, m: Message) returns (g: Flow)
    requires Refines(codec, sys, f) && Sound(serve, f) && m.Notice?
    ensures Refines(codec, sys.(server := S.Sent(codec, sys.server, m)), g) && Sound(serve, g)
    ensures Pipeline(g) == if f.linked then Pipeline(f) + [m] else Pipeline(f)
  {
    g := f;
    if f.linked {
      OneMoreNotice(f, m);
      NoticeKeeps(serve, f, m);
      g := f.(down := f.down + [m]);
      hide Sound, Wire, OnWire;
      WireGrows(codec, f.down, m, sys.client.buf, sys.server.out);
    }
  }

  lemma OneMoreNotice(f: Flow, m: Message)
    requires m.Notice?
    ensures Pipeline(f.(down := f.down + [m])) == Pipeline(f) + [m]
  {
    NoticesOfSum(f.down, [m]);
    assert Notices([m]) == [m];
  }

  lemma OthersRefine(codec: Codec, serve: S.Serve, sys: System, f: Flow, n: nat) returns (g: Flow)
    requires Refines(codec, sys, f) && Sound(serve, f)
    ensures Refines(codec, Step(codec, serve, sys, OthersServed(n)), g) && Sound(serve, g) && Pipeline(g) == Pipeline(f)
  {
    OthersKeep(serve, f, n);
    hide Sound, Wire, NoNewline;
    g := f.(served := f.served + n);
  }

  lemma UnlinkRefines(codec: Codec, serve: S.Serve, sys: System, f: Flow, e: Event) returns (g: Flow)
    requires Refines(codec, sys, f) && Sound(serve, f) && (e.Disconnects? || e.Connects? || e.LinkDrops?)
    ensures Refines(codec, Step(codec, serve, sys, e), g) && Sound(serve, g) && Pipeline(g) == f.client.notices
  {
    var c := Step(codec, serve, sys, e).client.(buf := []);
    var linked := e == Connects(true);
    NothingPendingUnattached(serve, f);
    hide Sound, C.DropsOf, Pipeline, Wire;
    NothingUnderWay(f, c, linked);
    assert c.nextId == f.client.nextId && linked == C.Connected(c);
    UnlinkedKeeps(serve, f, c, linked);
    g := FlowUnlinked(f, c, linked);
  }

  lemma NothingUnderWay(f: Flow, c: C.Client, linked: bool)
    ensures Pipeline(FlowUnlinked(f, c, linked)) == c.notices
  {
  }

  lemma NothingPendingUnattached(serve: S.Serve, f: Flow)
    requires Sound(serve, f)
    ensures !f.client.attached ==> f.client.pending == map[] && C.Drops(f.client.pending) == multiset{}
  {
  }

  lemma StartRefines(codec: Codec, serve: S.Serve) returns (f: Flow)
    ensures Refines(codec, Start(), f) && Sound(serve, f) && f.down == []
  {
    f := Flow(C.Start(), [], 0, false, [], History(map[], map[], map[]));
  }

  /** Every run of the bytes is a run of sound queues. */
  lemma {:induction false} RunRefines(codec: Codec, serve: S.Serve, es: seq<Event>) returns (f: Flow)
    requires Lawful(codec)
    ensures Refines(codec, Run(codec, serve, es), f) && Sound(serve, f)
  {
    if es == [] {
      f := StartRefines(codec, serve);
    } else {
      hide Step, Refines, Sound, Lawful;
      var n := |es| - 1;
      f := RunRefines(codec, serve, es[..n]);
      f := StepRefines(codec, serve, Run(codec, serve, es[..n]), f, es[n]);
    }
  }

  predicate Unlinks(e: Event) {
    e.Disconnects? || e.Connects? || e.LinkDrops?
  }

  /** What an event does to the events delivered or under way: a broadcast on a live link joins
    * them at the end, and a link that goes takes those under way with it. */
  function Onward(live: bool, delivered: seq<Message>, all: seq<Message>, e: Event): seq<Message> {
    if Unlinks(e) then delivered
    else if e.Broadcasts? && live then all + [Notice(e.target, e.event, e.params)]
    else all
  }

  lemma StepRefines(codec: Codec, serve: S.Serve, sys: System, f: Flow, e: Event) returns (g: Flow)
    requires Lawful(codec) && Refines(codec, sys, f) && Sound(serve, f)
    ensures Refines(codec, Step(codec, serve, sys, e), g) && Sound(serve, g)
    ensures Pipeline(g) == Onward(f.linked, f.client.notices, Pipeline(f), e)
  {
    hide Refines, Sound, Lawful, Pipeline;
    match e
    case Calls(call, handler) =>
      CallRefines(codec, serve, sys, f, call, handler);
      g := FlowCalls(f, call, handler);
    case ServerReads(n) => g := ServerReadsRefines(codec, serve, sys, f, n);
    case Broadcasts(target, event, params) => g := NoticeRefines(codec, serve, sys, f, Notice(target, event, params));
    case ClientReads(n) => g := ClientReadsRefines(codec, serve, sys, f, n);
    case OthersServed(n) => g := OthersRefine(codec, serve, sys, f, n);
    case _ => g := UnlinkRefines(codec, serve, sys, f, e);
  }

  // ---------- main results ----------

  /** Over every run, for every cutting of the bytes and any interleaving of pipelined
    * calls, replies and events: a numbered handler runs at most once, only for a call that
    * was made with it, and an answer it gets is the outcome the server computed for that
    * call. No message is ever reported as malformed. */
  lemma HandlersRunAtMostOnce(codec: Codec, serve: S.Serve, es: seq<Event>)
    requires Lawful(codec)
    ensures var sys := Run(codec, serve, es); var c := sys.client;
            (forall r :: r in c.ran ==> c.ran[r] == 1)
            && (forall r, q :: r in c.ran && q in c.ran && r.id == q.id ==> r == q)
            && (forall r :: r in c.ran ==> r.id in sys.past.wanted && r.handler == sys.past.wanted[r.id] && r.id !in c.pending)
            && (forall r :: r in c.ran && r.Answered? ==>
                  ComputedFor(serve, sys.past, r.id) && r.outcome == sys.past.answers[r.id])
            && c.errors == 0
  {
    var f := RunRefines(codec, serve, es);
    forall r | r in f.client.ran ensures RanRight(f, r) {
    }
  }

  /** Nothing is in flight or half-read in either direction of a live link. */
  predicate Idle(sys: System) {
    sys.server.writable && sys.client.buf == [] && sys.server.out == [] && sys.server.buf == [] && sys.up == []
  }

  /** On an idle live link no handler is outstanding: each has run. */
  lemma IdleMeansAllRan(codec: Codec, serve: S.Serve, es: seq<Event>)
    requires Lawful(codec) && Idle(Run(codec, serve, es))
    ensures var sys := Run(codec, serve, es);
            sys.client.pending == map[] && forall id: int :: id in sys.past.wanted ==> Ran(sys.client, id)
  {
    var f := RunRefines(codec, serve, es);
    hide Run, Wire;
    WireIsNotEmpty(codec, f.up);
    WireIsNotEmpty(codec, f.down);
    forall id: int ensures id !in f.client.pending {
      assert !InUp(f, id) && !InDown(f, id);
    }
    NothingIn(f.client.pending);
    var sys := Run(codec, serve, es);
    forall id: int | id in sys.past.wanted ensures Ran(sys.client, id) {
      assert Ran(f.client, id);
    }
  }

  lemma WireIsNotEmpty(codec: Codec, ms: seq<Message>)
    ensures ms != [] ==> Wire(codec, ms) != []
  {
  }

  lemma NothingIn(m: map<int, nat>)
    requires forall id: int :: id !in m
    ensures m == map[]
  {
    C.Inhabited(m.Keys);
  }

  predicate NoneDropped(c: C.Client) {
    forall r :: r in c.ran ==> r.Answered?
  }

  /** No disconnect, and no second connection. */
  predicate OneConnection(es: seq<Event>) {
    forall i :: 0 <= i < |es| ==> !es[i].Disconnects? && (es[i].Connects? ==> i == 0)
  }

  lemma {:induction false} LinesAnswer(codec: Codec, c: C.Client, lines: seq<Line>)
    requires NoneDropped(c)
    ensures NoneDropped(C.HandleLines(codec, c, lines))
    decreases |lines|
  {
    if lines != [] {
      LinesAnswer(codec, C.HandleLine(codec, c, lines[0]), lines[1..]);
    }
  }

  lemma {:induction false} OnlyAnswers(codec: Codec, serve: S.Serve, es: seq<Event>)
    requires OneConnection(es)
    ensures NoneDropped(Run(codec, serve, es).client)
  {
    if es != [] {
      hide SplitLines, C.HandleLines, C.DropsOf;
      var n := |es| - 1;
      var sys := Run(codec, serve, es[..n]);
      OnlyAnswers(codec, serve, es[..n]);
      match es[n]
      case ClientReads(k) =>
        var data := sys.server.out[..AtMost(k, |sys.server.out|)];
        var split := SplitLines(sys.client.buf + data);
        LinesAnswer(codec, sys.client.(buf := split.rest), split.lines);
      case _ =>
    }
  }

  /** Without a disconnect, when everything has been processed every handler has run exactly
    * once, with its own outcome. */
  lemma EveryCallIsAnswered(codec: Codec, serve: S.Serve, es: seq<Event>, id: int)
    requires Lawful(codec) && OneConnection(es) && Idle(Run(codec, serve, es)) && id in Run(codec, serve, es).past.wanted
    ensures var sys := Run(codec, serve, es);
            ComputedFor(serve, sys.past, id)
            && sys.client.ran[C.Answered(id, sys.past.wanted[id], sys.past.answers[id])] == 1
            && forall r :: r in sys.client.ran && r.id == id ==>
                 r == C.Answered(id, sys.past.wanted[id], sys.past.answers[id])
  {
    hide Run, Lawful, Idle, ComputedFor;
    var sys := Run(codec, serve, es);
    HandlersRunAtMostOnce(codec, serve, es);
    IdleMeansAllRan(codec, serve, es);
    OnlyAnswers(codec, serve, es);
    var r :| r in sys.client.ran && r.id == id;
    assert r.Answered?;
  }

  /** A disconnect fails each outstanding handler exactly once, and none of them had run. */
  lemma DisconnectFailsEach(codec: Codec, serve: S.Serve, es: seq<Event>)
    requires Lawful(codec)
    ensures var before := Run(codec, serve, es).client;
            var after := Step(codec, serve, Run(codec, serve, es), Disconnects).client;
            after.pending == map[]
            && (forall id: int :: id in before.pending ==>
                  !Ran(before, id) && after.ran[C.Dropped(id, before.pending[id])] == 1)
            && |after.ran| == |before.ran| + |before.pending|
  {
    var f := RunRefines(codec, serve, es);
    var before := Run(codec, serve, es).client;
    forall id: int | id in before.pending
      ensures !Ran(before, id) && (before.ran + C.Drops(before.pending))[C.Dropped(id, before.pending[id])] == 1 {
      DropIs(before.pending, C.Dropped(id, before.pending[id]));
      assert forall r :: r in f.client.ran ==> RanRight(f, r);
    }
    DropsCount(before.pending, before.pending.Keys);
  }

  lemma {:induction false} DropsCount(pending: map<int, nat>, ids: set<int>)
    requires ids <= pending.Keys
    ensures |C.DropsOf(pending, ids)| == |ids|
    decreases |ids|
  {
    C.Inhabited(ids);
    if ids != {} {
      var id: int :| id in ids;
      C.DropsStep(pending, ids, id);
      DropsCount(pending, ids - {id});
    }
  }
}
