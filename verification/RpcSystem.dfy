/** One client and the server joined by two byte streams that deliver in pieces of any size,
  * while the server answers other clients in between.
  *
  * The byte-level system refines a machine of message queues, and the pairing of calls with
  * handlers is proved on the queues. `asked`, `wanted` and `answers` are history: the call
  * and the handler behind each number, and the outcome the server computed for it.
  */
module RpcSystem {
  import opened BeIo
  import opened Wrappers
  import opened RpcLines
  import opened RpcMessages
  import C = RpcClient
  import S = RpcServer

  datatype History = History(asked: map<int, Call>, wanted: map<int, nat>, answers: map<int, Outcome>)

  datatype Event =
    | Calls(call: Call, handler: Option<nat>)
    | ServerReads(n: nat)
    | Broadcasts(target: string, event: string, params: string)
    | ClientReads(n: nat)
    | OthersServed(n: nat)
    | Disconnects
    | Connects(ok: bool)
    | LinkDrops

  // ---------- bytes ----------

  /** `server.out` holds the bytes under way to the client, `up` those to the server. */
  datatype System = System(client: C.Client, up: seq<byte>, server: S.Session, past: History)

  function Start(): System {
    System(C.Start(), [], S.Session([], 0, false, []), History(map[], map[], map[]))
  }

  function Noted(h: History, id: int, call: Call, handler: Option<nat>): History {
    History(h.asked[id := call], if handler.Some? then h.wanted[id := handler.value] else h.wanted, h.answers)
  }

  /** The outcomes the server computes for the given lines. */
  function Outcomes(codec: Codec, serve: S.Serve, served: nat, lines: seq<Line>, answers: map<int, Outcome>): map<int, Outcome>
    decreases |lines|
  {
    if lines == [] then answers
    else
      match codec.parse(lines[0].bytes)
      case None => Outcomes(codec, serve, served, lines[1..], answers)
      case Some(m) => Outcomes(codec, serve, served + 1, lines[1..], Recorded(serve, served, m, answers))
  }

  function Recorded(serve: S.Serve, served: nat, m: Message, answers: map<int, Outcome>): map<int, Outcome> {
    match S.EchoOf(m)
    case None => answers
    case Some(id) => answers[id := serve(served, S.CallIn(m))]
  }

  function AtMost(n: nat, k: nat): nat {
    if n < k then n else k
  }

  /** Both ends of a link that is gone; the server forgets the client. */
  function Unlinked(sys: System, c: C.Client): System {
    System(c, [], S.Session([], sys.server.served, false, []), sys.past)
  }

  function Step(codec: Codec, serve: S.Serve, sys: System, e: Event): System {
    match e
    case Calls(call, handler) =>
      sys.(client := C.Calling(sys.client, handler),
           up := sys.up + C.CallBytes(codec, sys.client, call),
           past := if C.Connected(sys.client) then Noted(sys.past, sys.client.nextId + 1, call, handler) else sys.past)
    case ServerReads(n) =>
      var k := AtMost(n, |sys.up|);
      var lines := SplitLines(sys.server.buf + sys.up[..k]).lines;
      sys.(up := sys.up[k..], server := S.Receive(codec, serve, sys.server, sys.up[..k]),
           past := sys.past.(answers := Outcomes(codec, serve, sys.server.served, lines, sys.past.answers)))
    case Broadcasts(target, event, params) =>
      sys.(server := S.Sent(codec, sys.server, Notice(target, event, params)))
    case ClientReads(n) =>
      var k := AtMost(n, |sys.server.out|);
      sys.(client := C.Receive(codec, sys.client, sys.server.out[..k]), server := sys.server.(out := sys.server.out[k..]))
    case OthersServed(n) => sys.(server := sys.server.(served := sys.server.served + n))
    case Disconnects => Unlinked(sys, C.Disconnected(sys.client))
    case Connects(ok) =>
      var v := Unlinked(sys, C.Connecting(sys.client, ok));
      v.(server := v.server.(writable := ok))
    case LinkDrops => Unlinked(sys, sys.client.(open := false))
  }

  function Run(codec: Codec, serve: S.Serve, es: seq<Event>): System {
    if es == [] then Start() else Step(codec, serve, Run(codec, serve, es[..|es| - 1]), es[|es| - 1])
  }

  // ---------- queues ----------

  /** The same system with whole messages in the queues and nothing half-read. */
  datatype Flow = Flow(client: C.Client, up: seq<Message>, served: nat, linked: bool, down: seq<Message>, past: History)

  function ServeOne(serve: S.Serve, f: Flow): Flow
    requires f.up != []
  {
    var m := f.up[0];
    f.(up := f.up[1..], served := f.served + 1,
       down := if f.linked then f.down + [Reply(S.EchoOf(m), serve(f.served, S.CallIn(m)))] else f.down,
       past := f.past.(answers := Recorded(serve, f.served, m, f.past.answers)))
  }

  function ServeSome(serve: S.Serve, f: Flow, k: nat): Flow
    requires k <= |f.up|
    decreases k
  {
    if k == 0 then f else ServeSome(serve, ServeOne(serve, f), k - 1)
  }

  function DeliverOne(f: Flow): Flow
    requires f.down != []
  {
    f.(client := C.HandleMessage(f.client, f.down[0]), down := f.down[1..])
  }

  function DeliverSome(f: Flow, k: nat): Flow
    requires k <= |f.down|
    decreases k
  {
    if k == 0 then f else DeliverSome(DeliverOne(f), k - 1)
  }

  function FlowCalls(f: Flow, call: Call, handler: Option<nat>): Flow {
    var id := f.client.nextId + 1;
    f.(client := C.Calling(f.client, handler),
       up := if C.Connected(f.client) then f.up + [Request(id, call)] else f.up,
       past := if C.Connected(f.client) then Noted(f.past, id, call, handler) else f.past)
  }

  function FlowUnlinked(f: Flow, c: C.Client, linked: bool): Flow {
    Flow(c, [], f.served, linked, [], f.past)
  }

  // ---------- the invariant of the queues ----------

  predicate InUp(f: Flow, id: int) {
    exists i :: 0 <= i < |f.up| && f.up[i].Request? && f.up[i].id == id
  }

  predicate InDown(f: Flow, id: int) {
    exists i :: 0 <= i < |f.down| && C.AnswersTo(f.down[i]) == id
  }

  /** A queued request carries its own call and has not been served. */
  predicate AwaitsServing(f: Flow, m: Message) {
    m.Request? && 1 <= m.id <= f.client.nextId && m.id in f.past.asked && f.past.asked[m.id] == m.call
    && m.id !in f.past.answers
  }

  /** A queued reply carries the outcome computed for its number. */
  predicate AwaitsDelivery(f: Flow, m: Message) {
    m.Notice?
    || (m.Reply? && m.replyTo.Some? && m.replyTo.value in f.past.answers
        && m.outcome == f.past.answers[m.replyTo.value])
  }

  ghost predicate ComputedFor(serve: S.Serve, h: History, id: int) {
    id in h.asked && id in h.answers && exists n: nat :: h.answers[id] == serve(n, h.asked[id])
  }

  predicate QueuesSound(f: Flow) {
    (forall i :: 0 <= i < |f.up| ==> AwaitsServing(f, f.up[i]))
    && (forall i, j :: 0 <= i < j < |f.up| ==> f.up[i] != f.up[j])
    && (forall i :: 0 <= i < |f.down| ==> AwaitsDelivery(f, f.down[i]))
    && (f.linked <==> C.Connected(f.client))
    && (!f.linked ==> f.up == [] && f.down == [])
    && f.client.errors == 0
  }

  ghost predicate PastSound(serve: S.Serve, f: Flow) {
    (forall id: int :: id in f.past.asked ==> 1 <= id <= f.client.nextId)
    && (forall id: int :: id in f.past.answers ==> ComputedFor(serve, f.past, id))
    && (forall id: int :: id in f.past.wanted ==> id in f.past.asked)
  }

  /** The callback made for a number is the caller's, and carries the number's own outcome. */
  predicate RanRight(f: Flow, r: C.Ran) {
    r.id in f.past.wanted && r.handler == f.past.wanted[r.id] && r.id !in f.client.pending
    && (r.Answered? ==> r.id in f.past.answers && r.outcome == f.past.answers[r.id])
  }

  predicate Ran(c: C.Client, id: int) {
    exists r :: r in c.ran && r.id == id
  }

  predicate HandlersSound(f: Flow) {
    (forall r :: r in f.client.ran ==> f.client.ran[r] == 1 && RanRight(f, r))
    && (forall r, q :: r in f.client.ran && q in f.client.ran && r.id == q.id ==> r == q)
    && (forall id: int :: id in f.client.pending ==> id in f.past.wanted && f.client.pending[id] == f.past.wanted[id])
    && (forall id: int :: id in f.past.wanted ==> id in f.client.pending || Ran(f.client, id))
  }

  /** An outstanding call of a live link is on its way, in one direction or the other. */
  predicate UnderWay(f: Flow) {
    (f.linked ==> forall id: int :: id in f.client.pending ==> InUp(f, id) || InDown(f, id))
    && (!f.client.attached ==> f.client.pending == map[])
  }

  ghost predicate Sound(serve: S.Serve, f: Flow) {
    QueuesSound(f) && PastSound(serve, f) && HandlersSound(f) && UnderWay(f)
  }

  // ---------- serving ----------

  lemma ServeKeepsQueues(serve: S.Serve, f: Flow)
    requires QueuesSound(f) && PastSound(serve, f) && f.up != []
    ensures QueuesSound(ServeOne(serve, f)) && PastSound(serve, ServeOne(serve, f))
  {
    var g, m := ServeOne(serve, f), f.up[0];
    assert AwaitsServing(f, m);
    assert g.past.answers == f.past.answers[m.id := serve(f.served, m.call)];
    forall i | 0 <= i < |g.up| ensures AwaitsServing(g, g.up[i]) {
      assert AwaitsServing(f, f.up[i + 1]);
      assert f.up[0] != f.up[i + 1];
    }
    forall i | 0 <= i < |g.down| ensures AwaitsDelivery(g, g.down[i]) {
      if i < |f.down| {
        assert AwaitsDelivery(f, f.down[i]);
      }
    }
    forall id: int | id in g.past.answers ensures ComputedFor(serve, g.past, id) {
      if id == m.id {
        assert g.past.answers[id] == serve(f.served, g.past.asked[id]);
      } else {
        assert ComputedFor(serve, f.past, id);
      }
    }
  }

  lemma ServeKeepsHandlers(serve: S.Serve, f: Flow)
    requires QueuesSound(f) && HandlersSound(f) && UnderWay(f) && f.up != []
    ensures HandlersSound(ServeOne(serve, f)) && UnderWay(ServeOne(serve, f))
  {
    var g, m := ServeOne(serve, f), f.up[0];
    assert AwaitsServing(f, m);
    forall r | r in g.client.ran ensures g.client.ran[r] == 1 && RanRight(g, r) {
      assert RanRight(f, r);
    }
    if f.linked {
      forall id: int | id in g.client.pending ensures InUp(g, id) || InDown(g, id) {
        ServedIsDown(serve, f, id);
      }
    }
  }

  lemma ServedIsDown(serve: S.Serve, f: Flow, id: int)
    requires f.up != [] && f.up[0].Request? && f.linked && (InUp(f, id) || InDown(f, id))
    ensures InUp(ServeOne(serve, f), id) || InDown(ServeOne(serve, f), id)
  {
    var g := ServeOne(serve, f);
    if InDown(f, id) {
      var i :| 0 <= i < |f.down| && C.AnswersTo(f.down[i]) == id;
      assert g.down[i] == f.down[i];
    } else {
      var i :| 0 <= i < |f.up| && f.up[i].Request? && f.up[i].id == id;
      if i == 0 {
        assert C.AnswersTo(g.down[|f.down|]) == id;
      } else {
        assert g.up[i - 1] == f.up[i];
      }
    }
  }

  lemma {:induction false} ServeSomeKeeps(serve: S.Serve, f: Flow, k: nat)
    requires Sound(serve, f) && k <= |f.up|
    ensures Sound(serve, ServeSome(serve, f, k))
    decreases k
  {
    hide QueuesSound, PastSound, HandlersSound, UnderWay;
    if k > 0 {
      ServeKeepsQueues(serve, f);
      ServeKeepsHandlers(serve, f);
      ServeSomeKeeps(serve, ServeOne(serve, f), k - 1);
    }
  }

  // ---------- delivering ----------

  lemma DeliverKeeps(serve: S.Serve, f: Flow)
    requires Sound(serve, f) && f.down != []
    ensures Sound(serve, DeliverOne(f))
  {
    var g, m := DeliverOne(f), f.down[0];
    assert AwaitsDelivery(f, m);
    DeliverKeepsQueues(f);
    DeliverKeepsHandlers(f);
    assert UnderWay(g) by {
      if f.linked {
        forall id: int | id in g.client.pending ensures InUp(g, id) || InDown(g, id) {
          StillUnderWay(f, id);
        }
      }
    }
  }

  lemma DeliverKeepsQueues(f: Flow)
    requires QueuesSound(f) && f.down != []
    ensures QueuesSound(DeliverOne(f))
  {
    var g := DeliverOne(f);
    forall i | 0 <= i < |g.up| ensures AwaitsServing(g, g.up[i]) {
      assert AwaitsServing(f, f.up[i]);
    }
    forall i | 0 <= i < |g.down| ensures AwaitsDelivery(g, g.down[i]) {
      assert AwaitsDelivery(f, f.down[i + 1]);
    }
  }

  lemma StillUnderWay(f: Flow, id: int)
    requires f.down != [] && id in DeliverOne(f).client.pending && (InUp(f, id) || InDown(f, id))
    requires f.down[0].Notice? ==> C.AnswersTo(f.down[0]) != id
    ensures InUp(DeliverOne(f), id) || InDown(DeliverOne(f), id)
  {
    var g := DeliverOne(f);
    if InUp(f, id) {
      var i :| 0 <= i < |f.up| && f.up[i].Request? && f.up[i].id == id;
      assert g.up[i] == f.up[i];
    } else {
      var i :| 0 <= i < |f.down| && C.AnswersTo(f.down[i]) == id;
      assert i > 0;
      assert g.down[i - 1] == f.down[i];
    }
  }

  lemma DeliverKeepsHandlers(f: Flow)
    requires HandlersSound(f) && f.down != [] && AwaitsDelivery(f, f.down[0])
    ensures HandlersSound(DeliverOne(f))
  {
    var g, m := DeliverOne(f), f.down[0];
    if m.Reply? && m.replyTo.value in f.client.pending {
      var id := m.replyTo.value;
      var r := C.Answered(id, f.client.pending[id], m.outcome);
      RunsHandler(f, g, id, r);
    } else {
      SameHandlers(f, g);
    }
  }

  /** Running one outstanding handler keeps the books right. */
  lemma RunsHandler(f: Flow, g: Flow, id: int, r: C.Ran)
    requires HandlersSound(f) && g.past == f.past && id in f.client.pending && r.id == id && r.handler == f.client.pending[id]
    requires r.Answered? ==> id in f.past.answers && r.outcome == f.past.answers[id]
    requires g.client.pending == f.client.pending - {id} && g.client.ran == f.client.ran + multiset{r}
    ensures HandlersSound(g)
  {
    assert r in f.client.ran ==> RanRight(f, r);
    forall q | q in g.client.ran ensures g.client.ran[q] == 1 && RanRight(g, q) {
      if q != r {
        assert q in f.client.ran && RanRight(f, q);
      }
    }
    forall q, p | q in g.client.ran && p in g.client.ran && q.id == p.id ensures q == p {
      if q in f.client.ran {
        assert RanRight(f, q);
      }
      if p in f.client.ran {
        assert RanRight(f, p);
      }
    }
    forall k: int | k in g.past.wanted ensures k in g.client.pending || Ran(g.client, k) {
      assert k in f.client.pending || Ran(f.client, k);
      if k == id {
        assert r in g.client.ran;
      } else if Ran(f.client, k) {
        var q :| q in f.client.ran && q.id == k;
        assert q in g.client.ran;
      }
    }
  }

  lemma {:induction false} DeliverSomeKeeps(serve: S.Serve, f: Flow, k: nat)
    requires Sound(serve, f) && k <= |f.down|
    ensures Sound(serve, DeliverSome(f, k))
    decreases k
  {
    hide Sound;
    if k > 0 {
      DeliverKeeps(serve, f);
      DeliverSomeKeeps(serve, DeliverOne(f), k - 1);
    }
  }

  // ---------- the other events ----------

  lemma CallKeepsQueues(serve: S.Serve, f: Flow, call: Call, handler: Option<nat>)
    requires QueuesSound(f) && PastSound(serve, f)
    ensures QueuesSound(FlowCalls(f, call, handler)) && PastSound(serve, FlowCalls(f, call, handler))
  {
    var g, id := FlowCalls(f, call, handler), f.client.nextId + 1;
    forall i | 0 <= i < |g.up| ensures AwaitsServing(g, g.up[i]) {
      if i < |f.up| {
        assert AwaitsServing(f, f.up[i]);
      } else {
        assert id in f.past.answers ==> ComputedFor(serve, f.past, id);
      }
    }
    forall i, j | 0 <= i < j < |g.up| ensures g.up[i] != g.up[j] {
      assert AwaitsServing(f, f.up[i]);
    }
    forall i | 0 <= i < |g.down| ensures AwaitsDelivery(g, g.down[i]) {
      assert AwaitsDelivery(f, f.down[i]);
    }
    forall k: int | k in g.past.answers ensures ComputedFor(serve, g.past, k) {
      assert ComputedFor(serve, f.past, k);
    }
  }

  lemma CallKeepsHandlers(serve: S.Serve, f: Flow, call: Call, handler: Option<nat>)
    requires PastSound(serve, f) && HandlersSound(f)
    ensures HandlersSound(FlowCalls(f, call, handler))
  {
    var g, id := FlowCalls(f, call, handler), f.client.nextId + 1;
    assert id !in f.past.wanted;
    if C.Connected(f.client) && handler.Some? {
      NewHandler(f, g, id, handler.value);
    } else {
      SameHandlers(f, g);
    }
  }

  lemma NewHandler(f: Flow, g: Flow, id: int, handler: nat)
    requires HandlersSound(f) && id !in f.past.wanted && g.past.answers == f.past.answers
    requires g.past.wanted == f.past.wanted[id := handler] && g.client.pending == f.client.pending[id := handler]
    requires g.client.ran == f.client.ran
    ensures HandlersSound(g)
  {
    forall r | r in g.client.ran ensures g.client.ran[r] == 1 && RanRight(g, r) {
      assert RanRight(f, r);
    }
    forall k: int | k in g.past.wanted ensures k in g.client.pending || Ran(g.client, k) {
      if k != id && Ran(f.client, k) {
        var q :| q in f.client.ran && q.id == k;
        assert q in g.client.ran;
      }
    }
  }

  lemma CallKeepsUnderWay(f: Flow, call: Call, handler: Option<nat>)
    requires UnderWay(f) && (f.linked <==> C.Connected(f.client))
    ensures UnderWay(FlowCalls(f, call, handler))
  {
    var g, id := FlowCalls(f, call, handler), f.client.nextId + 1;
    if f.linked {
      forall k: int | k in g.client.pending ensures InUp(g, k) || InDown(g, k) {
        if k == id {
          assert g.up[|f.up|].id == id;
        } else if InUp(f, k) {
          var i :| 0 <= i < |f.up| && f.up[i].Request? && f.up[i].id == k;
          assert g.up[i] == f.up[i];
        } else {
          assert InDown(f, k);
          var i :| 0 <= i < |f.down| && C.AnswersTo(f.down[i]) == k;
          assert g.down[i] == f.down[i];
        }
      }
    }
  }

  lemma NoticeKeeps(serve: S.Serve, f: Flow, m: Message)
    requires Sound(serve, f) && m.Notice? && f.linked
    ensures Sound(serve, f.(down := f.down + [m]))
  {
    var g := f.(down := f.down + [m]);
    assert QueuesSound(g) by {
      forall i | 0 <= i < |g.up| ensures AwaitsServing(g, g.up[i]) {
        assert AwaitsServing(f, f.up[i]);
      }
      forall i | 0 <= i < |g.down| ensures AwaitsDelivery(g, g.down[i]) {
        if i < |f.down| {
          assert AwaitsDelivery(f, f.down[i]);
        }
      }
    }
    assert HandlersSound(g) by {
      SameHandlers(f, g);
    }
    forall k: int | k in g.client.pending ensures InUp(g, k) || InDown(g, k) {
      if InUp(f, k) {
        var i :| 0 <= i < |f.up| && f.up[i].Request? && f.up[i].id == k;
        assert g.up[i] == f.up[i];
      } else {
        assert InDown(f, k);
        var i :| 0 <= i < |f.down| && C.AnswersTo(f.down[i]) == k;
        assert g.down[i] == f.down[i];
      }
    }
  }

  /** The books do not depend on the queues. */
  lemma SameHandlers(f: Flow, g: Flow)
    requires HandlersSound(f) && g.past.wanted == f.past.wanted && g.past.answers == f.past.answers
    requires g.client.pending == f.client.pending && g.client.ran == f.client.ran
    ensures HandlersSound(g)
  {
    forall r | r in g.client.ran ensures RanRight(g, r) {
      assert RanRight(f, r);
    }
    forall k: int | k in g.past.wanted ensures k in g.client.pending || Ran(g.client, k) {
      assert k in f.client.pending || Ran(f.client, k);
      if Ran(f.client, k) {
        var q :| q in f.client.ran && q.id == k;
        assert q in g.client.ran;
      }
    }
  }

  /** What the server does for others leaves the queues alone. */
  lemma OthersKeep(serve: S.Serve, f: Flow, n: nat)
    requires Sound(serve, f)
    ensures Sound(serve, f.(served := f.served + n))
  {
    var g := f.(served := f.served + n);
    assert QueuesSound(g) by {
      forall i | 0 <= i < |g.up| ensures AwaitsServing(g, g.up[i]) {
        assert AwaitsServing(f, f.up[i]);
      }
      forall i | 0 <= i < |g.down| ensures AwaitsDelivery(g, g.down[i]) {
        assert AwaitsDelivery(f, f.down[i]);
      }
    }
    SameHandlers(f, g);
    forall k: int | g.linked && k in g.client.pending ensures InUp(g, k) || InDown(g, k) {
      assert InUp(f, k) || InDown(f, k);
      assert InUp(f, k) ==> InUp(g, k);
      assert InDown(f, k) ==> InDown(g, k);
    }
  }

  /** Every outstanding handler is failed exactly once. */
  lemma DropsKeepHandlers(f: Flow, g: Flow)
    requires HandlersSound(f) && g.past == f.past
    requires g.client.pending == map[] && g.client.ran == f.client.ran + C.Drops(f.client.pending)
    ensures HandlersSound(g)
  {
    var pending, drops := f.client.pending, C.Drops(f.client.pending);
    forall r | r in g.client.ran ensures g.client.ran[r] == 1 && RanRight(g, r) {
      DropIs(pending, r);
      assert r in f.client.ran ==> RanRight(f, r);
    }
    forall q, p | q in g.client.ran && p in g.client.ran && q.id == p.id ensures q == p {
      DropIs(pending, q);
      DropIs(pending, p);
      assert q in f.client.ran ==> RanRight(f, q);
      assert p in f.client.ran ==> RanRight(f, p);
    }
    forall k: int | k in g.past.wanted ensures k in g.client.pending || Ran(g.client, k) {
      assert k in f.client.pending || Ran(f.client, k);
      if Ran(f.client, k) {
        var q :| q in f.client.ran && q.id == k;
        assert q in g.client.ran;
      } else {
        DropIs(pending, C.Dropped(k, pending[k]));
        assert C.Dropped(k, pending[k]) in g.client.ran;
      }
    }
  }

  lemma DropIs(pending: map<int, nat>, r: C.Ran)
    ensures C.Drops(pending)[r] == if r.Dropped? && r.id in pending && r.handler == pending[r.id] then 1 else 0
  {
  }

  lemma UnlinkedKeeps(serve: S.Serve, f: Flow, c: C.Client, linked: bool)
    requires Sound(serve, f) && c.nextId == f.client.nextId && c.errors == f.client.errors && linked == C.Connected(c)
    requires (c.pending == map[] && c.ran == f.client.ran + C.Drops(f.client.pending))
             || (!linked && c.attached == f.client.attached && c.pending == f.client.pending && c.ran == f.client.ran)
    ensures Sound(serve, FlowUnlinked(f, c, linked))
  {
    hide C.Drops, C.Connected, HandlersSound, AwaitsServing, AwaitsDelivery;
    var g := FlowUnlinked(f, c, linked);
    if c.pending == map[] && c.ran == f.client.ran + C.Drops(f.client.pending) {
      DropsKeepHandlers(f, g);
    } else {
      SameHandlers(f, g);
    }
    assert PastSound(serve, g) by {
      forall id: int | id in g.past.answers ensures ComputedFor(serve, g.past, id) {
        assert ComputedFor(serve, f.past, id);
      }
    }
  }
}
