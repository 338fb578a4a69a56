/** The RPC server: one line buffer per client, one reply per line, events to everybody.
  *
  * What a call comes to may depend on how many calls came before it. The class derives it
  * from the method table, the targets and the method bodies, the last two being answers
  * from outside.
  */
module RpcServer {
  import opened BeIo
  import opened Wrappers
  import opened RpcLines
  import opened RpcMessages

  type Serve = (nat, Call) -> Outcome

  datatype Method = Method(mutating: bool, needsTarget: bool, needsSession: bool)
  datatype Resolved = Target(handle: int, sessionReady: bool) | NoTarget(error: string)

  /** The method table, the server's permission, and what the targets and bodies answer. */
  datatype Bench = Bench(
    methods: map<string, Method>,
    allowMutating: bool,
    resolve: (nat, Call) -> Resolved,
    body: (nat, Option<int>, Call) -> Outcome)

  /** The target a call may use; none when a check in front of the body fails. */
  function Admission(b: Bench, n: nat, call: Call): Option<Option<int>> {
    if call.name !in b.methods then None
    else
      var m := b.methods[call.name];
      if m.mutating && !b.allowMutating then None
      else if !m.needsTarget then Some(None)
      else
        match b.resolve(n, call)
        case NoTarget(_) => None
        case Target(handle, ready) => if m.needsSession && !ready then None else Some(Some(handle))
  }

  function Refusal(b: Bench, n: nat, call: Call): string {
    if call.name !in b.methods then "unknown method"
    else if b.methods[call.name].mutating && !b.allowMutating then "method changes target state"
    else if b.resolve(n, call).NoTarget? then b.resolve(n, call).error
    else "target has no session"
  }

  function OutcomeOf(b: Bench, n: nat, call: Call): Outcome {
    match Admission(b, n, call)
    case None => Failed(Refusal(b, n, call))
    case Some(target) => b.body(n, target, call)
  }

  function ServeOf(b: Bench): (serve: Serve) {
    (n: nat, call: Call) => OutcomeOf(b, n, call)
  }

  /** A body runs exactly when its method is known, permitted, and has the target and the
    * session it needs; otherwise nothing any body does can show in the reply. */
  lemma BodyRunsIff(b: Bench, n: nat, call: Call)
    ensures Admission(b, n, call).Some? <==>
            call.name in b.methods
            && (b.methods[call.name].mutating ==> b.allowMutating)
            && (b.methods[call.name].needsTarget ==>
                  b.resolve(n, call).Target? && (b.methods[call.name].needsSession ==> b.resolve(n, call).sessionReady))
    ensures Admission(b, n, call).None? ==> forall other :: OutcomeOf(b.(body := other), n, call) == OutcomeOf(b, n, call)
    ensures Admission(b, n, call).None? ==> OutcomeOf(b, n, call).Failed?
  {
  }

  /** What the server keeps for one client, and the bytes it wrote to it. */
  datatype Session = Session(buf: seq<byte>, served: nat, writable: bool, out: seq<byte>)

  function Sent(codec: Codec, s: Session, m: Message): Session {
    if s.writable then s.(out := s.out + OnWire(codec, m)) else s
  }

  /** What the server takes for the method call in a message, and the id it echoes. */
  function CallIn(m: Message): Call {
    if m.Request? then m.call else Call("", "")
  }

  function EchoOf(m: Message): Option<int> {
    match m
    case Request(id, _) => Some(id)
    case Reply(id, _) => id
    case Notice(_, _, _) => None
  }

  function ServeMessage(codec: Codec, serve: Serve, s: Session, m: Message): Session {
    Sent(codec, s.(served := s.served + 1), Reply(EchoOf(m), serve(s.served, CallIn(m))))
  }

  function ServeLine(codec: Codec, serve: Serve, s: Session, line: Line): Session {
    match codec.parse(line.bytes)
    case None => Sent(codec, s, Reply(None, Failed("bad json")))
    case Some(m) => ServeMessage(codec, serve, s, m)
  }

  /** Every line is answered with one line, even one that is no message: that one has no id to
    * echo, and is not counted as a call. */
  lemma EveryLineIsAnswered(codec: Codec, serve: Serve, s: Session, line: Line)
    requires s.writable
    ensures var t := ServeLine(codec, serve, s, line);
            match codec.parse(line.bytes)
            case None => t == s.(out := s.out + codec.show(Reply(None, Failed("bad json"))) + [10])
            case Some(m) =>
              var id := if m.Request? then Some(m.id) else if m.Reply? then m.replyTo else None;
              var call := if m.Request? then m.call else Call("", "");
              t == s.(served := s.served + 1, out := s.out + codec.show(Reply(id, serve(s.served, call))) + [10])
  {
    Adjoin(s.out, codec.show(Reply(None, Failed("bad json"))));
    var m := codec.parse(line.bytes);
    if m.Some? {
      Adjoin(s.out, codec.show(Reply(EchoOf(m.value), serve(s.served, CallIn(m.value)))));
    }
  }

  lemma Adjoin(out: seq<byte>, line: seq<byte>)
    ensures out + (line + [10]) == out + line + [10]
  {
  }

  /** The refusals, in the order of the checks. */
  lemma RefusedBy(b: Bench, n: nat, call: Call)
    ensures call.name !in b.methods ==> OutcomeOf(b, n, call) == Failed("unknown method")
    ensures call.name in b.methods ==>
              var m := b.methods[call.name];
              if m.mutating && !b.allowMutating then OutcomeOf(b, n, call) == Failed("method changes target state")
              else if !m.needsTarget then OutcomeOf(b, n, call) == b.body(n, None, call)
              else match b.resolve(n, call)
                   case NoTarget(error) => OutcomeOf(b, n, call) == Failed(error)
                   case Target(handle, ready) =>
                     OutcomeOf(b, n, call) ==
                       if m.needsSession && !ready then Failed("target has no session") else b.body(n, Some(handle), call)
  {
  }

  function ServeLines(codec: Codec, serve: Serve, s: Session, lines: seq<Line>): Session
    decreases |lines|
  {
    if lines == [] then s else ServeLines(codec, serve, ServeLine(codec, serve, s, lines[0]), lines[1..])
  }

  function Receive(codec: Codec, serve: Serve, s: Session, data: seq<byte>): Session {
    var split := SplitLines(s.buf + data);
    ServeLines(codec, serve, s.(buf := split.rest), split.lines)
  }

  lemma {:induction false} BufferRidesAlong(codec: Codec, serve: Serve, s: Session, lines: seq<Line>, buf: seq<byte>)
    ensures ServeLines(codec, serve, s.(buf := buf), lines) == ServeLines(codec, serve, s, lines).(buf := buf)
    decreases |lines|
  {
    if lines != [] {
      BufferRidesAlong(codec, serve, ServeLine(codec, serve, s, lines[0]), lines[1..], buf);
    }
  }

  lemma AppendFirst(codec: Codec, serve: Serve, s: Session, data: seq<byte>)
    ensures Receive(codec, serve, s.(buf := s.buf + data), []) == Receive(codec, serve, s, data)
  {
    assert s.buf + data + [] == s.buf + data;
  }

  lemma StepReceive(codec: Codec, serve: Serve, s: Session)
    ensures var n := NewlineAt(s.buf);
            if n == |s.buf| then Receive(codec, serve, s, []) == s
            else
              var d := s.(buf := s.buf[n + 1..]);
              var line := Trim(s.buf[..n]);
              Receive(codec, serve, s, []) ==
                Receive(codec, serve, if line == [] then d else ServeLine(codec, serve, d, Line(line)), [])
  {
    hide SplitLines, NewlineAt, Trim, ServeMessage, Sent;
    var n := NewlineAt(s.buf);
    assert s.buf + [] == s.buf;
    if n == |s.buf| {
      Unfinished(s.buf);
    } else {
      SplitAt(s.buf, n);
      var d := s.(buf := s.buf[n + 1..]);
      assert d.buf + [] == d.buf;
      ServeKeepsBuffer(codec, serve, d, Line(Trim(s.buf[..n])));
      var rest := SplitLines(d.buf);
      var first := Kept(s.buf[..n]);
      if first != [] {
        assert (first + rest.lines)[0] == first[0] && (first + rest.lines)[1..] == rest.lines;
        ServeLineRides(codec, serve, d, first[0], rest.rest);
      } else {
        assert first + rest.lines == rest.lines;
      }
    }
  }

  lemma ServeKeepsBuffer(codec: Codec, serve: Serve, s: Session, line: Line)
    ensures ServeLine(codec, serve, s, line).buf == s.buf
  {
  }

  lemma ServeLineRides(codec: Codec, serve: Serve, s: Session, line: Line, buf: seq<byte>)
    ensures ServeLine(codec, serve, s.(buf := buf), line) == ServeLine(codec, serve, s, line).(buf := buf)
  {
  }

  /** The two benches answer alike as long as no method that changes a target is asked. */
  ghost predicate AgreeOnReaders(b: Bench, other: (nat, Option<int>, Call) -> Outcome) {
    forall n: nat, target: Option<int>, call: Call ::
      call.name in b.methods && !b.methods[call.name].mutating ==> b.body(n, target, call) == other(n, target, call)
  }

  /** Without permission, what the mutating methods would do cannot be told from the outside:
    * for every client, every leftover and every byte stream, the server writes and keeps
    * exactly the same whatever their bodies are. */
  lemma MutatingBodiesNeverShow(codec: Codec, b: Bench, other: (nat, Option<int>, Call) -> Outcome, s: Session, data: seq<byte>)
    requires !b.allowMutating && AgreeOnReaders(b, other)
    ensures Receive(codec, ServeOf(b), s, data) == Receive(codec, ServeOf(b.(body := other)), s, data)
  {
    hide SplitLines;
    var split := SplitLines(s.buf + data);
    LinesServedAlike(codec, b, other, s.(buf := split.rest), split.lines);
  }

  lemma {:induction false} LinesServedAlike(codec: Codec, b: Bench, other: (nat, Option<int>, Call) -> Outcome, s: Session,
                                            lines: seq<Line>)
    requires !b.allowMutating && AgreeOnReaders(b, other)
    ensures ServeLines(codec, ServeOf(b), s, lines) == ServeLines(codec, ServeOf(b.(body := other)), s, lines)
    decreases |lines|
  {
    if lines != [] {
      LineServedAlike(codec, b, other, s, lines[0]);
      LinesServedAlike(codec, b, other, ServeLine(codec, ServeOf(b), s, lines[0]), lines[1..]);
    }
  }

  lemma LineServedAlike(codec: Codec, b: Bench, other: (nat, Option<int>, Call) -> Outcome, s: Session, line: Line)
    requires !b.allowMutating && AgreeOnReaders(b, other)
    ensures ServeLine(codec, ServeOf(b), s, line) == ServeLine(codec, ServeOf(b.(body := other)), s, line)
  {
    hide Sent;
    var m := codec.parse(line.bytes);
    if m.Some? {
      assert OutcomeOf(b, s.served, CallIn(m.value)) == OutcomeOf(b.(body := other), s.served, CallIn(m.value));
    }
  }

  // ---------- the object ----------

  class Server {
    const codec: Codec
    const bench: Bench
    var clients: seq<nat>
    var buffers: map<nat, seq<byte>>
    var outputs: map<nat, seq<byte>>
    var writable: set<nat>
    var served: nat
    var owner: Option<nat>
    var quitting: bool

    /** The part of the state that concerns one client. */
    function At(dev: nat): Session
      reads this
    {
      Session(if dev in buffers then buffers[dev] else [], served, dev in writable,
              if dev in outputs then outputs[dev] else [])
    }

    constructor (codec: Codec, bench: Bench)
      ensures this.codec == codec && this.bench == bench && clients == [] && served == 0
      ensures owner == None && !quitting && buffers == map[] && outputs == map[] && writable == {}
    {
      this.codec := codec;
      this.bench := bench;
      clients, buffers, outputs, writable, served, owner, quitting := [], map[], map[], {}, 0, None, false;
    }

    /** A new client starts with nothing buffered; the others keep what they have. */
    method Attach(dev: nat)
      requires dev !in clients
      modifies this
      ensures clients == old(clients) + [dev] && served == old(served)
      ensures At(dev) == Session([], served, true, [])
      ensures forall d: nat :: d != dev ==> At(d) == old(At(d))
    {
      clients := clients + [dev];
      buffers := buffers[dev := []];
      outputs := outputs[dev := []];
      writable := writable + {dev};
    }

    /** The owner's end is the server's end. */
    method OnDestroyed(dev: nat)
      modifies this
      ensures dev !in clients && (forall d: nat :: d != dev ==> (d in clients <==> d in old(clients)) && At(d) == old(At(d)))
      ensures dev !in buffers && served == old(served)
      ensures quitting <==> old(quitting) || old(owner) == Some(dev)
    {
      var kept := [];
      for i := 0 to |clients|
        invariant dev !in kept && forall d: nat :: d != dev ==> (d in kept <==> d in clients[..i])
      {
        if clients[i] != dev {
          kept := kept + [clients[i]];
        }
      }
      assert clients[..|clients|] == clients;
      clients := kept;
      buffers := buffers - {dev};
      writable := writable - {dev};
      outputs := outputs - {dev};
      if owner == Some(dev) {
        owner := None;
        quitting := true;
      }
    }

    method Send(dev: nat, m: Message)
      modifies this`outputs
      ensures At(dev) == Sent(codec, old(At(dev)), m)
      ensures forall d: nat :: d != dev ==> At(d) == old(At(d))
    {
      if dev !in writable {
        return;
      }
      var before := if dev in outputs then outputs[dev] else [];
      outputs := outputs[dev := before + codec.show(m) + [NEWLINE]];
      assert before + codec.show(m) + [NEWLINE] == before + OnWire(codec, m);
    }

    method HandleLine(dev: nat, line: Line)
      modifies this`outputs, this`served
      ensures At(dev) == ServeLine(codec, ServeOf(bench), old(At(dev)), line)
      ensures forall d: nat :: d != dev ==> At(d) == old(At(d)).(served := served)
    {
      hide Sent, OutcomeOf;
      var m := codec.parse(line.bytes);
      if m == None {
        Send(dev, Reply(None, Failed("bad json")));
        return;
      }
      var outcome := Dispatch(CallIn(m.value));
      served := served + 1;
      Send(dev, Reply(EchoOf(m.value), outcome));
    }

    /** The checks in front of a method body, in their order. */
    method Dispatch(call: Call) returns (outcome: Outcome)
      ensures outcome == OutcomeOf(bench, served, call)
    {
      if call.name !in bench.methods {
        return Failed("unknown method");
      }
      var m := bench.methods[call.name];
      if m.mutating && !bench.allowMutating {
        return Failed("method changes target state");
      }
      var target := None;
      if m.needsTarget {
        match bench.resolve(served, call) {
          case NoTarget(error) =>
            return Failed(error);
          case Target(handle, ready) =>
            if m.needsSession && !ready {
              return Failed("target has no session");
            }
            target := Some(handle);
        }
      }
      outcome := bench.body(served, target, call);
    }

    method OnReadyRead(dev: nat, data: seq<byte>)
      modifies this`buffers, this`outputs, this`served
      ensures At(dev) == Receive(codec, ServeOf(bench), old(At(dev)), data)
      ensures forall d: nat :: d != dev ==> At(d) == old(At(d)).(served := served)
    {
      hide SplitLines, NewlineAt, Trim, Receive, ServeLine, ServeOf;
      ghost var serve := ServeOf(bench);
      var buf := (if dev in buffers then buffers[dev] else []) + data;
      buffers := buffers[dev := buf];
      ghost var goal := Receive(codec, serve, old(At(dev)), data);
      AppendFirst(codec, serve, old(At(dev)), data);
      var nl := NewlineAt(buf);
      while nl < |buf|
        invariant dev in buffers && buffers[dev] == buf && nl == NewlineAt(buf)
        invariant Receive(codec, serve, At(dev), []) == goal
        invariant forall d: nat :: d != dev ==> At(d) == old(At(d)).(served := served)
        decreases |buf|
      {
        StepReceive(codec, serve, At(dev));
        var line := Trim(buf[..nl]);
        buf := buf[nl + 1..];
        buffers := buffers[dev := buf];
        nl := NewlineAt(buf);
        if line != [] {
          HandleLine(dev, Line(line));
        }
      }
      StepReceive(codec, serve, At(dev));
    }

    /** Every client that can be written to gets the event once. */
    method BroadcastEvent(m: Message)
      requires forall i, j :: 0 <= i < j < |clients| ==> clients[i] != clients[j]
      modifies this`outputs
      ensures forall d: nat :: At(d) == if d in clients then Sent(codec, old(At(d)), m) else old(At(d))
    {
      hide Sent;
      for i := 0 to |clients|
        invariant forall d: nat :: At(d) == if d in clients[..i] then Sent(codec, old(At(d)), m) else old(At(d))
      {
        assert clients[i] !in clients[..i];
        Send(clients[i], m);
      }
      assert clients[..|clients|] == clients;
    }
  }
}
