/** Stream reassembly: three sockets, each with a growing receive buffer, an optional
  * six-byte greeting on the control socket, and an incremental frame parser.
  *
  * `Connection.TryParseFrames` is the parser as written, a loop that pops frames off the
  * buffer. `Outcome` is what a run of bytes means with no chunks and no loop: a greeting
  * decision followed by the batch reader `DecodeAll`; the method is proved to refine it.
  * Everything the user of the connection sees is in `log`. Main results: how a stream is
  * cut into chunks, and how the three sockets interleave, changes nothing.
  */
module TcpConnection {
  import opened BeIo
  import opened Wrappers
  import opened Deci3Codec

  datatype Role = Control | Tty | Drfp

  /** The three receive buffers. */
  datatype Buffers = Buffers(control: seq<byte>, tty: seq<byte>, drfp: seq<byte>)
  {
    function Of(w: Role): seq<byte> {
      match w case Control => control case Tty => tty case Drfp => drfp
    }

    function Set(w: Role, bytes: seq<byte>): Buffers {
      match w
      case Control => Buffers(bytes, tty, drfp)
      case Tty => Buffers(control, bytes, drfp)
      case Drfp => Buffers(control, tty, bytes)
    }
  }

  datatype State = Down | TcpConnecting | AwaitingGreeting | Ready | ErrorState

  datatype Event =
    | StateChanged(state: State)
    | FrameReceived(role: Role, frame: Frame)
    | GreetingReceived(bytes: seq<byte>)
    | ErrorOccurred

  /** Everything a connection holds; `up` is the set of connected sockets. */
  datatype Link = Link(rx: Buffers, up: set<Role>, greetingConsumed: bool, state: State, log: seq<Event>)
  {
    /** This connection with other bytes in one receive buffer. */
    function Hold(w: Role, bytes: seq<byte>): Link {
      this.(rx := rx.Set(w, bytes))
    }

    /** This connection having reported more events. */
    function Report(events: seq<Event>): Link {
      this.(log := log + events)
    }
  }

  const GREETING_SIZE: nat := 6
  const NO_BYTES: Buffers := Buffers([], [], [])

  // ---------- what a run of bytes means ----------

  datatype Outcome = Outcome(ok: bool, frames: seq<Frame>, rest: seq<byte>, greeting: Option<seq<byte>>)

  function FrameOutcome(b: seq<byte>, greeting: Option<seq<byte>>): Outcome {
    var r := DecodeAll(b);
    Outcome(r.error != Some(BadMagic), r.frames, b[r.offset..], greeting)
  }

  predicate StartsWithMagic(b: seq<byte>) {
    |b| >= 2 && b[0] == 0x30 && b[1] == 0x10
  }

  function StreamOutcome(w: Role, greeted: bool, b: seq<byte>): Outcome {
    if w != Control || greeted then FrameOutcome(b, None)
    else if StartsWithMagic(b) then FrameOutcome(b, Some([]))
    else if |b| < GREETING_SIZE then Outcome(true, [], b, None)
    else if b[..GREETING_SIZE] == Zeros(GREETING_SIZE) then
      FrameOutcome(b[GREETING_SIZE..], Some(b[..GREETING_SIZE]))
    else Outcome(false, [], b, None)
  }

  // ---------- transitions ----------

  function WithState(c: Link, s: State): Link {
    if c.state == s then c else c.(state := s).Report([StateChanged(s)])
  }

  /** Any socket going down takes all three down and forgets every buffered byte. */
  function Dropped(c: Link): Link {
    WithState(c.(rx := NO_BYTES, up := {}, greetingConsumed := false), Down)
  }

  /** A framing error aborts the socket, which reports itself disconnected on the spot;
    * only then is the error state entered. */
  function FramingError(c: Link): Link {
    WithState(Dropped(c.Report([ErrorOccurred])), ErrorState)
  }

  function Deliveries(w: Role, fs: seq<Frame>): (d: seq<Event>)
    ensures |d| == |fs|
  {
    seq(|fs|, i requires 0 <= i < |fs| => FrameReceived(w, fs[i]))
  }

  function Greeted(c: Link, bytes: seq<byte>): Link {
    WithState(c.(greetingConsumed := true).Report([GreetingReceived(bytes)]), Ready)
  }

  /** The connection after acting on what its buffer meant. */
  function Act(c: Link, w: Role, o: Outcome): Link {
    var g := if o.greeting.Some? then Greeted(c, o.greeting.value) else c;
    var d := g.Hold(w, o.rest).Report(Deliveries(w, o.frames));
    if o.ok then d else FramingError(d)
  }

  function Parse(c: Link, w: Role): Link {
    Act(c, w, StreamOutcome(w, c.greetingConsumed, c.rx.Of(w)))
  }

  /** Bytes arrive on one socket; a socket that is down has none to read. */
  function Deliver(c: Link, w: Role, chunk: seq<byte>): Link {
    if w !in c.up then c else Parse(c.Hold(w, c.rx.Of(w) + chunk), w)
  }

  /** The chain of sockets: one connects the next, unless one socket carries everything. */
  function NextSocket(w: Role, singleSocket: bool): Option<Role> {
    match w
    case Control => if singleSocket then None else Some(Tty)
    case Tty => Some(Drfp)
    case Drfp => None
  }

  /** A socket comes up: the control socket opens the TTY one, that one the DRFP one,
    * and the last of the chain starts waiting for the greeting. */
  function SocketUp(c: Link, w: Role, singleSocket: bool): Link {
    var d := c.(up := c.up + {w});
    if w == Drfp || (w == Control && singleSocket) then WithState(d, AwaitingGreeting) else d
  }

  function Dial(c: Link): Link {
    if c.state != Down && c.state != ErrorState then c
    else WithState(c.(rx := NO_BYTES, greetingConsumed := false), TcpConnecting)
  }

  // ---------- the object the program runs ----------

  class Connection {
    var rx: Buffers
    var up: set<Role>
    var greetingConsumed: bool
    var singleSocket: bool
    var state: State
    var log: seq<Event>

    function Snapshot(): Link
      reads this
    {
      Link(rx, up, greetingConsumed, state, log)
    }

    constructor (single: bool)
      ensures Snapshot() == Link(NO_BYTES, {}, false, Down, [])
      ensures singleSocket == single
    {
      rx, up, greetingConsumed, singleSocket, state, log := NO_BYTES, {}, false, single, Down, [];
    }

    method SetState(s: State)
      modifies this`state, this`log
      ensures Snapshot() == WithState(old(Snapshot()), s)
      ensures state == s && log == old(log) + if old(state) == s then [] else [StateChanged(s)]
    {
      if state == s {
        return;
      }
      state := s;
      log := log + [StateChanged(s)];
    }

    method ResetBuffers()
      modifies this`rx, this`greetingConsumed
      ensures Snapshot() == old(Snapshot()).(rx := NO_BYTES, greetingConsumed := false)
      ensures rx == Buffers([], [], []) && !greetingConsumed
    {
      rx := NO_BYTES;
      greetingConsumed := false;
    }

    method OnAnyDisconnected()
      modifies this`rx, this`up, this`greetingConsumed, this`state, this`log
      ensures Snapshot() == Dropped(old(Snapshot()))
      ensures rx == Buffers([], [], []) && up == {} && !greetingConsumed && state == Down
      ensures log == old(log) + if old(state) == Down then [] else [StateChanged(Down)]
    {
      ResetBuffers();
      up := {};
      SetState(Down);
    }

    method FailFraming()
      modifies this`rx, this`up, this`greetingConsumed, this`state, this`log
      ensures Snapshot() == FramingError(old(Snapshot()))
      ensures rx == Buffers([], [], []) && up == {} && !greetingConsumed && state == ErrorState
      ensures log == old(log) + [ErrorOccurred] + (if old(state) == Down then [] else [StateChanged(Down)])
                     + [StateChanged(ErrorState)]
    {
      log := log + [ErrorOccurred];
      OnAnyDisconnected();
      SetState(ErrorState);
    }

    method ConnectToTarget()
      modifies this`rx, this`greetingConsumed, this`state, this`log
      ensures Snapshot() == Dial(old(Snapshot()))
      ensures if old(state) == Down || old(state) == ErrorState
              then rx == Buffers([], [], []) && !greetingConsumed && state == TcpConnecting
                   && log == old(log) + [StateChanged(TcpConnecting)]
              else rx == old(rx) && greetingConsumed == old(greetingConsumed) && state == old(state) && log == old(log)
    {
      if state != Down && state != ErrorState {
        return;
      }
      ResetBuffers();
      SetState(TcpConnecting);
    }

    /** The socket to open next, if the chain goes on. */
    method OnConnected(w: Role) returns (next: Option<Role>)
      modifies this`up, this`state, this`log
      ensures Snapshot() == SocketUp(old(Snapshot()), w, singleSocket)
      ensures next == NextSocket(w, singleSocket)
      ensures up == old(up) + {w} && next == (if w == Drfp || (w == Control && singleSocket) then None
                                              else if w == Control then Some(Tty) else Some(Drfp))
      ensures state == if next == None then AwaitingGreeting else old(state)
    {
      up := up + {w};
      next := None;
      match w
      case Control =>
        if singleSocket {
          SetState(AwaitingGreeting);
        } else {
          next := Some(Tty);
        }
      case Tty => next := Some(Drfp);
      case Drfp => SetState(AwaitingGreeting);
    }

    method ReadInto(w: Role, chunk: seq<byte>)
      modifies this`rx, this`up, this`greetingConsumed, this`state, this`log
      ensures Snapshot() == Deliver(old(Snapshot()), w, chunk)
      ensures w !in old(up) ==> Snapshot() == old(Snapshot())
    {
      if w in up {
        rx := rx.Set(w, rx.Of(w) + chunk);
        TryParseFrames(w);
      }
    }

    method TryParseFrames(w: Role)
      modifies this`rx, this`up, this`greetingConsumed, this`state, this`log
      ensures Snapshot() == Parse(old(Snapshot()), w)
    {
      hide DecodeAll, Act, FrameOutcome, FramingError;
      var buf := rx.Of(w);
      Undecided(Snapshot(), w);
      if w == Control && !greetingConsumed {
        if |buf| < 2 {
          return;
        }
        if buf[0] == 0x30 && buf[1] == 0x10 {
          GreetedFirst(Snapshot(), w, buf, []);
          greetingConsumed := true;
          log := log + [GreetingReceived([])];
          SetState(Ready);
        } else {
          if |buf| < GREETING_SIZE {
            return;
          }
          var allZero := LeadingZeros(buf);
          if !allZero {
            FailFraming();
            return;
          }
          GreetedFirst(Snapshot(), w, buf[GREETING_SIZE..], buf[..GREETING_SIZE]);
          rx := rx.Set(w, buf[GREETING_SIZE..]);
          greetingConsumed := true;
          log := log + [GreetingReceived(buf[..GREETING_SIZE])];
          SetState(Ready);
        }
      }
      DrainFrames(w);
    }

    /** The `while (true)` loop: pop a frame, hand it over, look again. */
    method DrainFrames(w: Role)
      modifies this`rx, this`up, this`greetingConsumed, this`state, this`log
      ensures Snapshot() == Act(old(Snapshot()), w, FrameOutcome(old(rx).Of(w), None))
    {
      hide DecodeFrame, Act, FrameOutcome, FramingError;
      while true
        invariant Act(Snapshot(), w, FrameOutcome(rx.Of(w), None))
               == Act(old(Snapshot()), w, FrameOutcome(old(rx).Of(w), None))
        decreases |rx.Of(w)|
      {
        var buf := rx.Of(w);
        match DecodeFrame(buf)
        case Decoded(f, n) =>
          PopFrame(Snapshot(), w, buf);
          log := log + [FrameReceived(w, f)];
          rx := rx.Set(w, buf[n..]);
        case Failed(BadMagic) =>
          LoopEnds(Snapshot(), w);
          FailFraming();
          return;
        case Failed(_) =>
          LoopEnds(Snapshot(), w);
          return;
      }
    }
  }

  method LeadingZeros(b: seq<byte>) returns (all: bool)
    requires |b| >= GREETING_SIZE
    ensures all <==> b[..GREETING_SIZE] == Zeros(GREETING_SIZE)
  {
    for i := 0 to GREETING_SIZE
      invariant forall k :: 0 <= k < i ==> b[k] == 0
    {
      if b[i] != 0 {
        assert b[..GREETING_SIZE][i] != Zeros(GREETING_SIZE)[i];
        return false;
      }
    }
    return true;
  }

  /** Too few bytes change nothing, and a refusal is a framing error. */
  lemma Undecided(c: Link, w: Role)
    ensures Act(c, w, Outcome(true, [], c.rx.Of(w), None)) == c
    ensures Act(c, w, Outcome(false, [], c.rx.Of(w), None)) == FramingError(c)
  {
    hide FramingError;
    assert c.Hold(w, c.rx.Of(w)) == c && c.Report([]) == c;
  }

  /** A greeting is reported, and then the rest of the buffer is read as frames. */
  lemma GreetedFirst(c: Link, w: Role, b: seq<byte>, greeting: seq<byte>)
    ensures Act(c, w, FrameOutcome(b, Some(greeting))) == Act(Greeted(c, greeting).Hold(w, b), w, FrameOutcome(b, None))
  {
    hide DecodeAll, FramingError;
  }

  /** Without a frame at the front there is nothing to do, or a failure. */
  lemma LoopEnds(c: Link, w: Role)
    requires DecodeFrame(c.rx.Of(w)).Failed?
    ensures Act(c, w, FrameOutcome(c.rx.Of(w), None)) ==
            if DecodeFrame(c.rx.Of(w)) == Failed(BadMagic) then FramingError(c) else c
  {
    hide DecodeFrame, FramingError;
    var buf := c.rx.Of(w);
    assert buf[0..] == buf;
    assert c.Hold(w, buf) == c && c.Report([]) == c;
  }

  /** One turn of the loop commutes with acting on the rest. */
  lemma PopFrame(c: Link, w: Role, buf: seq<byte>)
    requires DecodeFrame(buf).Decoded?
    ensures var r := DecodeFrame(buf);
      Act(c, w, FrameOutcome(buf, None))
      == Act(c.Report([FrameReceived(w, r.frame)]).Hold(w, buf[r.consumed..]), w,
             FrameOutcome(buf[r.consumed..], None))
  {
    hide DecodeFrame, FramingError;
    var r := DecodeFrame(buf);
    var tail := DecodeAll(buf[r.consumed..]);
    assert buf[r.consumed..][tail.offset..] == buf[DecodeAll(buf).offset..];
    assert c.log + Deliveries(w, [r.frame] + tail.frames)
        == c.log + [FrameReceived(w, r.frame)] + Deliveries(w, tail.frames);
  }

  // ---------- meaning grows with the stream ----------

  /** Reading a prefix first and the leftover with the rest of the bytes afterwards is
    * reading it all at once, unless the prefix already failed: then nothing changes. */
  lemma {:induction false} DecodeAllExtends(b: seq<byte>, more: seq<byte>)
    ensures DecodeAll(b + more) == Extended(b, more)
  {
    if DecodeFrame(b).Decoded? {
      var n := DecodeFrame(b).consumed;
      DecodeAllExtends(b[n..], more);
      ExtendedStep(b, more);
    } else if DecodeFrame(b) == Failed(BadMagic) {
      DecisionIsStable(b, more);
    } else {
      assert b[0..] == b;
    }
  }

  function Extended(b: seq<byte>, more: seq<byte>): Batch {
    var r := DecodeAll(b);
    if r.error == Some(BadMagic) then r
    else After(r.frames, r.offset, DecodeAll(b[r.offset..] + more))
  }

  lemma ExtendedStep(b: seq<byte>, more: seq<byte>)
    requires DecodeFrame(b).Decoded?
    ensures var n := DecodeFrame(b).consumed;
      && Extended(b, more) == After([DecodeFrame(b).frame], n, Extended(b[n..], more))
      && DecodeAll(b + more) == After([DecodeFrame(b).frame], n, DecodeAll(b[n..] + more))
  {
    hide DecodeFrame;
    var n := DecodeFrame(b).consumed;
    DecisionIsStable(b, more);
    assert (b + more)[n..] == b[n..] + more;
    assert b[n..][DecodeAll(b[n..]).offset..] == b[DecodeAll(b).offset..];
  }

  /** Two outcomes in a row; a failure is final. */
  function Join(o: Outcome, t: Outcome): Outcome {
    Outcome(t.ok, o.frames + t.frames, t.rest, if o.greeting.Some? then o.greeting else t.greeting)
  }

  lemma FrameOutcomeExtends(b: seq<byte>, more: seq<byte>, greeting: Option<seq<byte>>)
    ensures var o := FrameOutcome(b, greeting);
      var all := FrameOutcome(b + more, greeting);
      all == if o.ok then Join(o, FrameOutcome(o.rest + more, greeting)) else o.(rest := all.rest)
  {
    var r := DecodeAll(b);
    DecodeAllExtends(b, more);
    if r.error != Some(BadMagic) {
      LeftoverOf(b, more, r.offset, DecodeAll(b[r.offset..] + more).offset);
    }
  }

  lemma LeftoverOf(b: seq<byte>, more: seq<byte>, n: nat, m: nat)
    requires n <= |b| && m <= |b| - n + |more|
    ensures (b[n..] + more)[m..] == (b + more)[n + m..]
  {
  }

  /** The meaning of a longer stream is the meaning of the shorter one followed by that of
    * its leftover with the new bytes; a stream that failed stays failed. */
  lemma OutcomeExtends(w: Role, greeted: bool, b: seq<byte>, more: seq<byte>)
    ensures var o := StreamOutcome(w, greeted, b);
      var all := StreamOutcome(w, greeted, b + more);
      all == if o.ok then Join(o, StreamOutcome(w, greeted || o.greeting.Some?, o.rest + more))
             else o.(rest := all.rest)
  {
    if w != Control || greeted {
      FrameOutcomeExtends(b, more, None);
    } else if StartsWithMagic(b) {
      FrameOutcomeExtends(b, more, Some([]));
    } else if |b| >= GREETING_SIZE {
      assert (b + more)[..GREETING_SIZE] == b[..GREETING_SIZE];
      assert (b + more)[GREETING_SIZE..] == b[GREETING_SIZE..] + more;
      FrameOutcomeExtends(b[GREETING_SIZE..], more, Some(b[..GREETING_SIZE]));
    }
  }

  // ---------- chunk independence ----------

  lemma ActTwice(c: Link, w: Role, x: seq<byte>, o: Outcome, t: Outcome)
    requires o.ok && (t.greeting.Some? ==> o.greeting.None? && o.frames == [])
    ensures Act(Act(c, w, o).Hold(w, x), w, t) == Act(c, w, Join(o, t))
  {
    hide FramingError;
    if t.greeting.None? {
      hide WithState;
      var g := if o.greeting.Some? then Greeted(c, o.greeting.value) else c;
      assert g.log + Deliveries(w, o.frames) + Deliveries(w, t.frames)
          == g.log + Deliveries(w, o.frames + t.frames);
    } else {
      assert c.log + Deliveries(w, o.frames) == c.log;
      assert o.frames + t.frames == t.frames;
      assert Act(c, w, o).Hold(w, x) == c.Hold(w, x);
    }
  }

  /** The outcome of a greeted stream holds no greeting; frames come only after it. */
  lemma GreetingComesFirst(w: Role, greeted: bool, b: seq<byte>)
    ensures var o := StreamOutcome(w, greeted, b);
      && (w != Control || greeted ==> o.greeting.None?)
      && (w == Control && !greeted && o.greeting.None? ==> o.frames == [])
  {
  }

  lemma ActKeeps(c: Link, w: Role, o: Outcome)
    requires o.ok
    ensures var d := Act(c, w, o);
      d.rx.Of(w) == o.rest && d.up == c.up && d.greetingConsumed == (c.greetingConsumed || o.greeting.Some?)
  {
  }

  /** Two deliveries on one socket are one delivery of the joined bytes: same frames in
    * the same order, same leftover, same greeting decision, same state changes. */
  lemma TwoChunksAreOne(c: Link, w: Role, a: seq<byte>, b: seq<byte>)
    ensures Deliver(Deliver(c, w, a), w, b) == Deliver(c, w, a + b)
  {
    hide StreamOutcome, Act;
    if w in c.up {
      var buf := c.rx.Of(w) + a;
      assert c.rx.Of(w) + (a + b) == buf + b;
      ParseThenMore(c.Hold(w, buf), w, b);
    }
  }

  /** Parsing a buffer and then delivering more is parsing the longer buffer. */
  lemma ParseThenMore(c: Link, w: Role, more: seq<byte>)
    requires w in c.up
    ensures Deliver(Parse(c, w), w, more) == Parse(c.Hold(w, c.rx.Of(w) + more), w)
  {
    hide StreamOutcome;
    var buf := c.rx.Of(w);
    var o := StreamOutcome(w, c.greetingConsumed, buf);
    OutcomeExtends(w, c.greetingConsumed, buf, more);
    if o.ok {
      hide Act;
      var greeted := c.greetingConsumed || o.greeting.Some?;
      var t := StreamOutcome(w, greeted, o.rest + more);
      GreetingComesFirst(w, c.greetingConsumed, buf);
      GreetingComesFirst(w, greeted, o.rest + more);
      ActKeeps(c, w, o);
      ActTwice(c, w, o.rest + more, o, t);
      ActForgets(c, w, buf + more, Join(o, t));
    } else {
      ActForgetsAll(c, w, buf + more, o, o.(rest := StreamOutcome(w, c.greetingConsumed, buf + more).rest));
    }
  }

  lemma ActForgets(c: Link, w: Role, x: seq<byte>, o: Outcome)
    ensures Act(c.Hold(w, x), w, o) == Act(c, w, o)
  {
  }

  lemma ActForgetsAll(c: Link, w: Role, x: seq<byte>, o: Outcome, p: Outcome)
    requires !o.ok && p == o.(rest := p.rest)
    ensures Act(c.Hold(w, x), w, p) == Act(c, w, o)
    ensures Act(c, w, o).up == {}
  {
  }

  function Concat(chunks: seq<seq<byte>>): seq<byte> {
    if chunks == [] then [] else chunks[0] + Concat(chunks[1..])
  }

  function DeliverChunks(c: Link, w: Role, chunks: seq<seq<byte>>): Link
    decreases |chunks|
  {
    if chunks == [] then c else DeliverChunks(Deliver(c, w, chunks[0]), w, chunks[1..])
  }

  /** However a byte stream is cut, the connection ends exactly as after one single feed:
    * the whole state and the whole event log agree. */
  lemma {:induction false} ChunkingIsIrrelevant(c: Link, w: Role, chunks: seq<seq<byte>>)
    requires chunks != []
    ensures DeliverChunks(c, w, chunks) == Deliver(c, w, Concat(chunks))
    decreases |chunks|
  {
    hide Deliver;
    if |chunks| == 1 {
      assert Concat(chunks) == chunks[0];
    } else {
      ChunkingIsIrrelevant(Deliver(c, w, chunks[0]), w, chunks[1..]);
      TwoChunksAreOne(c, w, chunks[0], Concat(chunks[1..]));
    }
  }

  // ---------- three interleaved streams ----------

  datatype Feed = Feed(role: Role, bytes: seq<byte>)

  function Run(c: Link, feeds: seq<Feed>): Link
    decreases |feeds|
  {
    if feeds == [] then c
    else
      var last := feeds[|feeds| - 1];
      Deliver(Run(c, feeds[..|feeds| - 1]), last.role, last.bytes)
  }

  /** The bytes each socket has received once `feeds` follow `streams`, joined. */
  function Joined(streams: Buffers, feeds: seq<Feed>): Buffers
    decreases |feeds|
  {
    if feeds == [] then streams
    else
      var last := feeds[|feeds| - 1];
      var before := Joined(streams, feeds[..|feeds| - 1]);
      before.Set(last.role, before.Of(last.role) + last.bytes)
  }

  /** What a socket's joined stream means by itself, from its first byte. */
  function Meaning(streams: Buffers, w: Role): Outcome {
    StreamOutcome(w, false, streams.Of(w))
  }

  predicate AllMeanWell(streams: Buffers) {
    Meaning(streams, Control).ok && Meaning(streams, Tty).ok && Meaning(streams, Drfp).ok
  }

  /** The frames handed over for one socket. */
  function FramesOn(log: seq<Event>, w: Role): seq<Frame> {
    if log == [] then []
    else
      var last := log[|log| - 1];
      FramesOn(log[..|log| - 1], w) + (if last.FrameReceived? && last.role == w then [last.frame] else [])
  }

  lemma {:induction false} FramesOnDeliveries(log: seq<Event>, w: Role, fs: seq<Frame>, v: Role)
    ensures FramesOn(log + Deliveries(w, fs), v) == FramesOn(log, v) + (if v == w then fs else [])
  {
    var all := log + Deliveries(w, fs);
    if fs == [] {
      assert all == log;
    } else {
      var fewer := fs[..|fs| - 1];
      assert all[..|all| - 1] == log + Deliveries(w, fewer);
      FramesOnDeliveries(log, w, fewer, v);
      assert fs == fewer + [fs[|fs| - 1]];
    }
  }

  lemma FramesOnQuiet(log: seq<Event>, e: Event, v: Role)
    requires !e.FrameReceived?
    ensures FramesOn(log + [e], v) == FramesOn(log, v)
  {
    assert (log + [e])[..|log|] == log;
  }

  /** Acting on a good outcome hands over exactly its frames, to its socket. */
  lemma ActFrames(c: Link, w: Role, o: Outcome, v: Role)
    requires o.ok
    ensures FramesOn(Act(c, w, o).log, v) == FramesOn(c.log, v) + (if v == w then o.frames else [])
  {
    if o.greeting.Some? {
      FramesOnQuiet(c.log, GreetingReceived(o.greeting.value), v);
      FramesOnQuiet(c.log + [GreetingReceived(o.greeting.value)], StateChanged(Ready), v);
      FramesOnDeliveries(Greeted(c, o.greeting.value).log, w, o.frames, v);
    } else {
      FramesOnDeliveries(c.log, w, o.frames, v);
    }
  }

  /** What one socket shows: its buffer and its frames are those its stream means. */
  predicate Shows(c: Link, w: Role, o: Outcome) {
    && o.ok
    && c.rx.Of(w) == o.rest
    && FramesOn(c.log, w) == o.frames
    && (w == Control ==> c.greetingConsumed == o.greeting.Some?)
  }

  /** After a framing error nothing is left: no bytes, no sockets, no greeting. */
  predicate Broken(c: Link) {
    c.rx == NO_BYTES && c.up == {} && !c.greetingConsumed && c.state == ErrorState
  }

  /** One delivery keeps its socket in step with its stream, and the others untouched; or
    * it breaks the connection, exactly when the grown stream means a failure. */
  lemma DeliverShows(c: Link, w: Role, stream: seq<byte>, chunk: seq<byte>, v: Role, other: Outcome)
    requires Shows(c, w, StreamOutcome(w, false, stream)) && w in c.up
    requires v != w ==> Shows(c, v, other)
    ensures var d := Deliver(c, w, chunk);
      var o := StreamOutcome(w, false, stream + chunk);
      if o.ok then
        && Shows(d, w, o) && (v != w ==> Shows(d, v, other)) && d.up == c.up
        && d.state == (if d.greetingConsumed && !c.greetingConsumed then Ready else c.state)
        && (c.greetingConsumed ==> d.greetingConsumed)
      else Broken(d)
  {
    hide FrameOutcome, FramesOn, DecodeAll;
    var o := StreamOutcome(w, false, stream);
    OutcomeExtends(w, false, stream, chunk);
    var greeted := w == Control && c.greetingConsumed;
    var t := StreamOutcome(w, greeted, o.rest + chunk);
    assert StreamOutcome(w, c.greetingConsumed, o.rest + chunk) == t;
    assert StreamOutcome(w, o.greeting.Some?, o.rest + chunk) == t;
    GreetingComesFirst(w, greeted, o.rest + chunk);
    hide StreamOutcome;
    var fed := c.Hold(w, o.rest + chunk);
    if t.ok {
      ActFrames(fed, w, t, w);
      ActFrames(fed, w, t, v);
    }
  }

  predicate ShowsAll(c: Link, streams: Buffers) {
    && Shows(c, Control, Meaning(streams, Control))
    && Shows(c, Tty, Meaning(streams, Tty))
    && Shows(c, Drfp, Meaning(streams, Drfp))
  }

  // ---------- what was logged before does not matter ----------

  /** The same connection with an older log in front of its own. */
  function Older(base: seq<Event>, c: Link): Link {
    c.(log := base + c.log)
  }

  /** `d` as it looks to somebody who started listening at `c`. */
  function Since(c: Link, d: Link): Link
    requires c.log <= d.log
  {
    d.(log := d.log[|c.log|..])
  }

  lemma ReportIsOlder(base: seq<Event>, c: Link, events: seq<Event>)
    ensures Older(base, c).Report(events) == Older(base, c.Report(events))
  {
    assert base + c.log + events == base + (c.log + events);
  }

  lemma StateIsOlder(base: seq<Event>, c: Link, s: State)
    ensures WithState(Older(base, c), s) == Older(base, WithState(c, s))
  {
    ReportIsOlder(base, c.(state := s), [StateChanged(s)]);
  }

  lemma ErrorIsOlder(base: seq<Event>, c: Link)
    ensures FramingError(Older(base, c)) == Older(base, FramingError(c))
  {
    hide WithState;
    var e := c.Report([ErrorOccurred]);
    ReportIsOlder(base, c, [ErrorOccurred]);
    StateIsOlder(base, e.(rx := NO_BYTES, up := {}, greetingConsumed := false), Down);
    StateIsOlder(base, Dropped(e), ErrorState);
  }

  lemma GreetedIsOlder(base: seq<Event>, c: Link, bytes: seq<byte>)
    ensures Greeted(Older(base, c), bytes) == Older(base, Greeted(c, bytes))
  {
    hide WithState;
    var g := c.(greetingConsumed := true);
    ReportIsOlder(base, g, [GreetingReceived(bytes)]);
    StateIsOlder(base, g.Report([GreetingReceived(bytes)]), Ready);
  }

  lemma DeliverIsOlder(base: seq<Event>, c: Link, w: Role, chunk: seq<byte>)
    ensures Deliver(Older(base, c), w, chunk) == Older(base, Deliver(c, w, chunk))
  {
    hide StreamOutcome, FramingError, Greeted, Deliveries;
    if w in c.up {
      var h := c.Hold(w, c.rx.Of(w) + chunk);
      var o := StreamOutcome(w, h.greetingConsumed, h.rx.Of(w));
      if o.greeting.Some? {
        GreetedIsOlder(base, h, o.greeting.value);
      }
      var g := if o.greeting.Some? then Greeted(h, o.greeting.value) else h;
      ReportIsOlder(base, g.Hold(w, o.rest), Deliveries(w, o.frames));
      ErrorIsOlder(base, g.Hold(w, o.rest).Report(Deliveries(w, o.frames)));
    }
  }

  lemma {:induction false} RunIsOlder(base: seq<Event>, c: Link, feeds: seq<Feed>)
    ensures Run(Older(base, c), feeds) == Older(base, Run(c, feeds))
    decreases |feeds|
  {
    hide Deliver, Older;
    if feeds != [] {
      var last := feeds[|feeds| - 1];
      RunIsOlder(base, c, feeds[..|feeds| - 1]);
      DeliverIsOlder(base, Run(c, feeds[..|feeds| - 1]), last.role, last.bytes);
    }
  }

  /** Someone who starts listening at `c` sees what an empty log would hold. */
  lemma ListeningFrom(c: Link, quiet: Link, d: Link)
    requires d == Older(c.log, quiet)
    ensures c.log <= d.log && Since(c, d) == quiet
  {
  }

  /** Over any interleaving of deliveries on the sockets that are up, from a link with no
    * bytes yet and whatever it logged before: each socket's new frames, leftover and
    * greeting are those its own joined stream means, and the connection fails if and only
    * if some stream by itself means a failure. */
  lemma InterleavingIsIrrelevant(c: Link, feeds: seq<Feed>)
    requires c.rx == NO_BYTES && !c.greetingConsumed
    requires forall f :: f in feeds ==> f.role in c.up
    ensures var d := Run(c, feeds);
      var streams := Joined(NO_BYTES, feeds);
      && c.log <= d.log
      && if AllMeanWell(streams) then
           && ShowsAll(Since(c, d), streams)
           && d.up == c.up
           && d.state == (if d.greetingConsumed then Ready else c.state)
         else Broken(d)
  {
    var quiet := c.(log := []);
    assert Older(c.log, quiet) == c;
    RunShows(quiet, NO_BYTES, feeds);
    RunIsOlder(c.log, quiet, feeds);
    ListeningFrom(c, Run(quiet, feeds), Run(c, feeds));
  }

  lemma {:induction false} RunShows(c: Link, streams: Buffers, feeds: seq<Feed>)
    requires AllMeanWell(streams) && ShowsAll(c, streams)
    requires forall f :: f in feeds ==> f.role in c.up
    ensures var d := Run(c, feeds);
      var all := Joined(streams, feeds);
      if AllMeanWell(all) then
        && ShowsAll(d, all)
        && d.up == c.up
        && d.state == (if d.greetingConsumed && !c.greetingConsumed then Ready else c.state)
        && (c.greetingConsumed ==> d.greetingConsumed)
      else Broken(d)
    decreases |feeds|
  {
    if feeds != [] {
      var last := feeds[|feeds| - 1];
      RunShows(c, streams, feeds[..|feeds| - 1]);
      OneMoreFeed(Run(c, feeds[..|feeds| - 1]), Joined(streams, feeds[..|feeds| - 1]), last.role, last.bytes);
    }
  }

  function SocketChain(c: Link, first: seq<Feed>, second: seq<Feed>): Link {
    Run(SocketUp(Run(SocketUp(Dial(c), Control, false), first), Tty, false), second)
  }

  /** Dialling and the chain do not look at the log either. */
  lemma ChainIsOlder(base: seq<Event>, c: Link, first: seq<Feed>, second: seq<Feed>, third: seq<Feed>)
    ensures var d := SocketUp(SocketChain(c, first, second), Drfp, false);
      Run(SocketUp(SocketChain(Older(base, c), first, second), Drfp, false), third) == Older(base, Run(d, third))
      && SocketChain(Older(base, c), first, second) == Older(base, SocketChain(c, first, second))
  {
    hide Run, WithState;
    StateIsOlder(base, c.(rx := NO_BYTES, greetingConsumed := false), TcpConnecting);
    var a := SocketUp(Dial(c), Control, false);
    RunIsOlder(base, a, first);
    var b := SocketUp(Run(a, first), Tty, false);
    RunIsOlder(base, b, second);
    StateIsOlder(base, Run(b, second).(up := Run(b, second).up + {Drfp}), AwaitingGreeting);
    RunIsOlder(base, SocketUp(Run(b, second), Drfp, false), third);
  }

  /** A link that is down or failed is dialled, and its three sockets come up one after the
    * other, each being read as soon as it is up. Whatever was logged before, each socket
    * shows what its stream means. A greeting decided before the last socket is up makes the
    * link ready at once, but the end of the chain then takes that back and nothing restores
    * it: the link ends up ready if and only if its greeting is decided after the chain. */
  lemma ReadyIffGreetedAfterTheChain(c: Link, first: seq<Feed>, second: seq<Feed>, third: seq<Feed>)
    requires c.up == {} && (c.state == Down || c.state == ErrorState)
    requires forall f :: f in first ==> f.role == Control
    requires forall f :: f in second ==> f.role != Drfp
    ensures var before := Joined(Joined(NO_BYTES, first), second);
      var all := Joined(before, third);
      var early := SocketChain(c, first, second);
      var d := Run(SocketUp(early, Drfp, false), third);
      AllMeanWell(all) ==>
        && c.log <= d.log && ShowsAll(Since(c, d), all)
        && early.state == (if Meaning(before, Control).greeting.Some? then Ready else TcpConnecting)
        && (d.state == Ready <==> Meaning(before, Control).greeting.None? && Meaning(all, Control).greeting.Some?)
  {
    hide SocketChain, Run, Joined, ShowsAll, Meaning, AllMeanWell;
    var quiet := c.(log := []);
    assert Older(c.log, quiet) == c;
    ChainIsOlder(c.log, quiet, first, second, third);
    if AllMeanWell(Joined(Joined(Joined(NO_BYTES, first), second), third)) {
      ChainShows(quiet, first, second, third);
    }
    ListeningFrom(c, Run(SocketUp(SocketChain(quiet, first, second), Drfp, false), third),
                  Run(SocketUp(SocketChain(c, first, second), Drfp, false), third));
  }

  const EARLY: seq<Feed> := [Feed(Control, Zeros(6))]

  /** The smallest run that fails: the six-byte greeting arrives before the other sockets are
    * up, and nothing more is said. The link waits for a greeting it has already consumed. */
  lemma EarlyGreetingIsLost(c: Link)
    requires c.up == {} && (c.state == Down || c.state == ErrorState)
    ensures var early := SocketChain(c, EARLY, []);
      var d := Run(SocketUp(early, Drfp, false), []);
      early.state == Ready && d.state == AwaitingGreeting && d.greetingConsumed
  {
    hide StreamOutcome, FramesOn, SocketChain, Joined, Run, EARLY;
    EarlyStreams();
    EarlyMeans();
    ReadyIffGreetedAfterTheChain(c, EARLY, [], []);
    NothingRun(SocketUp(SocketChain(c, EARLY, []), Drfp, false));
  }

  lemma NothingRun(c: Link)
    ensures Run(c, []) == c
  {
  }

  lemma EarlyStreams()
    ensures Joined(Joined(Joined(NO_BYTES, EARLY), []), []) == Joined(Joined(NO_BYTES, EARLY), [])
            == Buffers(Zeros(6), [], [])
    ensures forall f :: f in EARLY ==> f.role == Control
  {
    assert EARLY[..0] == [];
    assert Joined(NO_BYTES, EARLY) == Buffers([] + Zeros(6), [], []);
    assert [] + Zeros(6) == Zeros(6);
  }

  lemma EarlyMeans()
    ensures var streams := Buffers(Zeros(6), [], []);
      AllMeanWell(streams) && Meaning(streams, Control).greeting.Some?
  {
    hide StreamOutcome;
    GreetingAlone();
    NothingMeansNothing(Tty);
    NothingMeansNothing(Drfp);
  }

  lemma GreetingAlone()
    ensures StreamOutcome(Control, false, Zeros(6)) == Outcome(true, [], [], Some(Zeros(6)))
  {
    assert Zeros(6)[..GREETING_SIZE] == Zeros(6) && Zeros(6)[GREETING_SIZE..] == [];
  }

  lemma ChainShows(c: Link, first: seq<Feed>, second: seq<Feed>, third: seq<Feed>)
    requires c.up == {} && c.log == [] && (c.state == Down || c.state == ErrorState)
    requires forall f :: f in first ==> f.role == Control
    requires forall f :: f in second ==> f.role != Drfp
    requires AllMeanWell(Joined(Joined(Joined(NO_BYTES, first), second), third))
    ensures var before := Joined(Joined(NO_BYTES, first), second);
      var all := Joined(before, third);
      var early := SocketChain(c, first, second);
      var d := Run(SocketUp(early, Drfp, false), third);
      && ShowsAll(d, all)
      && early.state == (if Meaning(before, Control).greeting.Some? then Ready else TcpConnecting)
      && (d.state == Ready <==> Meaning(before, Control).greeting.None? && Meaning(all, Control).greeting.Some?)
  {
    hide StreamOutcome, FramesOn, AllMeanWell, Run, Joined;
    var a := SocketUp(Dial(c), Control, false);
    assert a.log == [StateChanged(TcpConnecting)];
    forall v: Role ensures FramesOn(a.log, v) == [] {
      NoFrames(StateChanged(TcpConnecting), v);
    }
    FreshShows(a);
    ShorterMeansWell(Joined(Joined(NO_BYTES, first), second), third);
    ShorterMeansWell(Joined(NO_BYTES, first), second);
    RunShows(a, NO_BYTES, first);
    var b := SocketUp(Run(a, first), Tty, false);
    assert ShowsAll(b, Joined(NO_BYTES, first));
    RunShows(b, Joined(NO_BYTES, first), second);
    var before := Joined(Joined(NO_BYTES, first), second);
    var e := SocketUp(Run(b, second), Drfp, false);
    forall v: Role ensures FramesOn(e.log, v) == FramesOn(Run(b, second).log, v) {
      FramesOnQuiet(Run(b, second).log, StateChanged(AwaitingGreeting), v);
    }
    forall w: Role ensures w in e.up {
      assert w == Control || w == Tty || w == Drfp;
    }
    RunShows(e, before, third);
  }

  /** A stream that means a failure keeps doing so when it grows. */
  lemma {:induction false} ShorterMeansWell(streams: Buffers, feeds: seq<Feed>)
    ensures AllMeanWell(Joined(streams, feeds)) ==> AllMeanWell(streams)
    decreases |feeds|
  {
    hide AllMeanWell;
    if feeds != [] {
      var last := feeds[|feeds| - 1];
      var before := Joined(streams, feeds[..|feeds| - 1]);
      ShorterMeansWell(streams, feeds[..|feeds| - 1]);
      GrownMeansWell(before, last.role, last.bytes);
    }
  }

  lemma GrownMeansWell(streams: Buffers, w: Role, bytes: seq<byte>)
    ensures AllMeanWell(streams.Set(w, streams.Of(w) + bytes)) ==> AllMeanWell(streams)
  {
    hide StreamOutcome;
    FailureStays(w, streams.Of(w), bytes);
  }

  lemma FailureStays(w: Role, b: seq<byte>, more: seq<byte>)
    ensures StreamOutcome(w, false, b + more).ok ==> StreamOutcome(w, false, b).ok
  {
    hide StreamOutcome;
    OutcomeExtends(w, false, b, more);
  }

  /** A link that has received nothing and handed over nothing shows that. */
  lemma FreshShows(a: Link)
    requires a.rx == NO_BYTES && !a.greetingConsumed && forall v :: FramesOn(a.log, v) == []
    ensures ShowsAll(a, NO_BYTES) && AllMeanWell(NO_BYTES)
  {
    hide StreamOutcome, FramesOn;
    NothingMeansNothing(Control);
    NothingMeansNothing(Tty);
    NothingMeansNothing(Drfp);
  }

  lemma NothingMeansNothing(w: Role)
    ensures StreamOutcome(w, false, []) == Outcome(true, [], [], None)
  {
  }

  lemma NoFrames(e: Event, v: Role)
    requires !e.FrameReceived?
    ensures FramesOn([e], v) == []
  {
    assert [e][..0] == [];
  }

  lemma OneMoreFeed(d: Link, streams: Buffers, w: Role, bytes: seq<byte>)
    requires if AllMeanWell(streams) then ShowsAll(d, streams) && w in d.up else Broken(d)
    ensures var e := Deliver(d, w, bytes);
      var grown := streams.Set(w, streams.Of(w) + bytes);
      if AllMeanWell(grown) then
        && ShowsAll(e, grown) && e.up == d.up
        && e.state == (if e.greetingConsumed && !d.greetingConsumed then Ready else d.state)
        && (d.greetingConsumed ==> e.greetingConsumed)
      else Broken(e)
    ensures AllMeanWell(streams.Set(w, streams.Of(w) + bytes)) ==> AllMeanWell(streams)
  {
    hide StreamOutcome;
    OutcomeExtends(w, false, streams.Of(w), bytes);
    if AllMeanWell(streams) {
      hide Deliver, Shows;
      DeliverShows(d, w, streams.Of(w), bytes, Control, Meaning(streams, Control));
      DeliverShows(d, w, streams.Of(w), bytes, Tty, Meaning(streams, Tty));
      DeliverShows(d, w, streams.Of(w), bytes, Drfp, Meaning(streams, Drfp));
    }
  }
}
