/** The RPC client: pipelined calls, found again by their number. A handler stands for the
  * caller's callback; `ran` records the callbacks made for numbered calls, `refused` those
  * of calls made without a connection.
  */
module RpcClient {
  import opened BeIo
  import opened Wrappers
  import opened RpcLines
  import opened RpcMessages

  datatype Ran = Answered(id: int, handler: nat, outcome: Outcome) | Dropped(id: int, handler: nat)

  datatype Client = Client(
    attached: bool, open: bool, buf: seq<byte>, nextId: nat, pending: map<int, nat>,
    ran: multiset<Ran>, refused: seq<nat>, notices: seq<Message>, errors: nat)

  function Start(): Client {
    Client(false, false, [], 0, map[], multiset{}, [], [], 0)
  }

  predicate Connected(c: Client) {
    c.attached && c.open
  }

  /** The id a message answers to; -1 when it names none. */
  function AnswersTo(m: Message): int {
    match m
    case Request(id, _) => id
    case Reply(Some(id), _) => id
    case _ => -1
  }

  function OutcomeIn(m: Message): Outcome {
    if m.Reply? then m.outcome else Failed("")
  }

  function HandleMessage(c: Client, m: Message): Client {
    if m.Notice? then c.(notices := c.notices + [m])
    else
      var id := AnswersTo(m);
      if id !in c.pending then c
      else c.(pending := c.pending - {id}, ran := c.ran + multiset{Answered(id, c.pending[id], OutcomeIn(m))})
  }

  function HandleLine(codec: Codec, c: Client, line: Line): Client {
    match codec.parse(line.bytes)
    case None => c.(errors := c.errors + 1)
    case Some(m) => HandleMessage(c, m)
  }

  function HandleLines(codec: Codec, c: Client, lines: seq<Line>): Client
    decreases |lines|
  {
    if lines == [] then c else HandleLines(codec, HandleLine(codec, c, lines[0]), lines[1..])
  }

  function Receive(codec: Codec, c: Client, data: seq<byte>): Client {
    var s := SplitLines(c.buf + data);
    HandleLines(codec, c.(buf := s.rest), s.lines)
  }

  function Calling(c: Client, handler: Option<nat>): Client {
    if !Connected(c) then (if handler.Some? then c.(refused := c.refused + [handler.value]) else c)
    else
      var id := c.nextId + 1;
      c.(nextId := id, pending := if handler.Some? then c.pending[id := handler.value] else c.pending)
  }

  function CallBytes(codec: Codec, c: Client, call: Call): seq<byte> {
    if Connected(c) then OnWire(codec, Request(c.nextId + 1, call)) else []
  }

  function DropsOf(pending: map<int, nat>, ids: set<int>): multiset<Ran>
    requires ids <= pending.Keys
  {
    multiset(set id | id in ids :: Dropped(id, pending[id]))
  }

  function Drops(pending: map<int, nat>): multiset<Ran> {
    DropsOf(pending, pending.Keys)
  }

  function Disconnected(c: Client): Client {
    if !c.attached then c
    else c.(attached := false, open := false, pending := map[], ran := c.ran + Drops(c.pending))
  }

  function Connecting(c: Client, ok: bool): Client {
    if ok then Disconnected(c).(attached := true, open := true, buf := []) else Disconnected(c)
  }

  lemma DropsStep(pending: map<int, nat>, ids: set<int>, id: int)
    requires ids <= pending.Keys && id in ids
    ensures DropsOf(pending, ids) == DropsOf(pending, ids - {id}) + multiset{Dropped(id, pending[id])}
  {
    var all := set k | k in ids :: Dropped(k, pending[k]);
    var others := set k | k in ids - {id} :: Dropped(k, pending[k]);
    var d := Dropped(id, pending[id]);
    assert d !in others;
    assert all == others + {d};
  }

  lemma Inhabited(s: set<int>)
    ensures s == {} || exists k: int :: k in s
  {
    if forall k: int :: k !in s {
      assert s == {};
    }
  }

  /** The handlers are called in no particular order. */
  method FailAll(handlers: map<int, nat>) returns (ran: multiset<Ran>)
    ensures ran == Drops(handlers)
  {
    var ids: set<int> := handlers.Keys;
    ran := multiset{};
    while |ids| != 0
      invariant ids <= handlers.Keys
      invariant ran + DropsOf(handlers, ids) == Drops(handlers)
      decreases |ids|
    {
      Inhabited(ids);
      var id: int :| id in ids;
      DropsStep(handlers, ids, id);
      ran := ran + multiset{Dropped(id, handlers[id])};
      ids := ids - {id};
    }
  }

  // ---------- the object ----------

  class Rpc {
    const codec: Codec
    var attached: bool
    var open: bool
    var buf: seq<byte>
    var nextId: nat
    var pending: map<int, nat>
    var ran: multiset<Ran>
    var refused: seq<nat>
    var notices: seq<Message>
    var errors: nat
    var written: seq<byte>

    function Snapshot(): Client
      reads this
    {
      Client(attached, open, buf, nextId, pending, ran, refused, notices, errors)
    }

    constructor (codec: Codec)
      ensures this.codec == codec && Snapshot() == Start() && written == []
    {
      this.codec := codec;
      attached, open, buf, nextId, pending := false, false, [], 0, map[];
      ran, refused, notices, errors, written := multiset{}, [], [], 0, [];
    }

    /** Fails every outstanding handler once; the table is emptied first. */
    method DisconnectFromServer()
      modifies this
      ensures Snapshot() == Disconnected(old(Snapshot())) && written == old(written)
      ensures old(attached) ==> !attached && !open && pending == map[]
      ensures nextId == old(nextId) && refused == old(refused) && notices == old(notices) && buf == old(buf)
    {
      hide DropsOf;
      if !attached {
        return;
      }
      var handlers := pending;
      pending := map[];
      var dropped := FailAll(handlers);
      ran := ran + dropped;
      attached, open := false, false;
    }

    method Connect(ok: bool)
      modifies this
      ensures Snapshot() == Connecting(old(Snapshot()), ok) && written == old(written)
      ensures if ok then attached && open && buf == [] else !attached || !old(attached)
      ensures nextId == old(nextId) && notices == old(notices)
    {
      DisconnectFromServer();
      if ok {
        attached, open := true, true;
        buf := [];
      }
    }

    method Call(call: Call, handler: Option<nat>)
      modifies this
      ensures Snapshot() == Calling(old(Snapshot()), handler)
      ensures written == old(written) + CallBytes(codec, old(Snapshot()), call)
      ensures attached == old(attached) && open == old(open) && ran == old(ran) && notices == old(notices)
      ensures if attached && open
              then nextId == old(nextId) + 1 && refused == old(refused)
                   && written == old(written) + codec.show(Request(nextId, call)) + [10]
                   && pending == if handler.Some? then old(pending)[nextId := handler.value] else old(pending)
              else nextId == old(nextId) && pending == old(pending) && written == old(written)
                   && refused == old(refused) + if handler.Some? then [handler.value] else []
    {
      if !(attached && open) {
        if handler.Some? {
          refused := refused + [handler.value];
        }
        return;
      }
      nextId := nextId + 1;
      if handler.Some? {
        pending := pending[nextId := handler.value];
      }
      written := written + codec.show(Request(nextId, call));
      written := written + [NEWLINE];
    }

    method OnReadyRead(data: seq<byte>)
      modifies this
      ensures Snapshot() == Receive(codec, old(Snapshot()), data) && written == old(written)
    {
      hide SplitLines, NewlineAt, Trim, Receive, HandleMessage;
      buf := buf + data;
      var nl := NewlineAt(buf);
      ghost var goal := Receive(codec, old(Snapshot()), data);
      AppendFirst(codec, old(Snapshot()), data);
      while nl < |buf|
        invariant nl == NewlineAt(buf) && written == old(written)
        invariant Receive(codec, Snapshot(), []) == goal
        decreases |buf|
      {
        StepReceive(codec, Snapshot());
        var line := Trim(buf[..nl]);
        buf := buf[nl + 1..];
        nl := NewlineAt(buf);
        if line != [] {
          var m := codec.parse(line);
          if m == None {
            errors := errors + 1;
          } else {
            OnMessage(m.value);
          }
        }
      }
      StepReceive(codec, Snapshot());
    }

    method OnMessage(m: Message)
      modifies this`notices, this`pending, this`ran
      ensures Snapshot() == HandleMessage(old(Snapshot()), m)
      ensures notices == old(notices) + if m.Notice? then [m] else []
    {
      if m.Notice? {
        notices := notices + [m];
        return;
      }
      var id := AnswersTo(m);
      if id !in pending {
        return;
      }
      var handler := pending[id];
      pending := pending - {id};
      ran := ran + multiset{Answered(id, handler, OutcomeIn(m))};
    }
  }

  lemma AppendFirst(codec: Codec, c: Client, data: seq<byte>)
    ensures Receive(codec, c.(buf := c.buf + data), []) == Receive(codec, c, data)
  {
    assert c.buf + data + [] == c.buf + data;
  }

  /** Nothing in the handling of a line depends on the buffer. */
  lemma {:induction false} BufferRidesAlong(codec: Codec, c: Client, lines: seq<Line>, buf: seq<byte>)
    ensures HandleLines(codec, c.(buf := buf), lines) == HandleLines(codec, c, lines).(buf := buf)
    decreases |lines|
  {
    if lines != [] {
      BufferRidesAlong(codec, HandleLine(codec, c, lines[0]), lines[1..], buf);
    }
  }

  /** Receiving nothing more finishes the buffer; taking its first line off first makes no
    * difference. */
  lemma StepReceive(codec: Codec, c: Client)
    ensures var n := NewlineAt(c.buf);
            if n == |c.buf| then Receive(codec, c, []) == c
            else
              var d := c.(buf := c.buf[n + 1..]);
              Receive(codec, c, []) ==
                Receive(codec, if Trim(c.buf[..n]) == [] then d else HandleLine(codec, d, Line(Trim(c.buf[..n]))), [])
  {
    hide SplitLines, NewlineAt, Trim;
    var n := NewlineAt(c.buf);
    assert c.buf + [] == c.buf;
    if n == |c.buf| {
      Unfinished(c.buf);
    } else {
      SplitAt(c.buf, n);
      var d := c.(buf := c.buf[n + 1..]);
      assert d.buf + [] == d.buf;
      var s := SplitLines(d.buf);
      var first := Kept(c.buf[..n]);
      if first != [] {
        assert (first + s.lines)[0] == first[0] && (first + s.lines)[1..] == s.lines;
      } else {
        assert first + s.lines == s.lines;
      }
    }
  }
}
