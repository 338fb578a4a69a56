/** What a socket does with real streams: printed frames, with or without the greeting in
  * front, followed by nothing, by part of a frame or by something else. The streams are
  * given by the printer alone, the results by the log.
  */
module TcpGreeting {
  import opened BeIo
  import opened Wrappers
  import opened Deci3Codec
  import opened TcpConnection

  predicate AllFit(fs: seq<Frame>) {
    forall f :: f in fs ==> f.Fits()
  }

  /** Every printed frame starts with the two bytes the greeting test looks for. */
  lemma FramesStartWithMagic(f: Frame)
    ensures Encode(f)[0] == 0x30 && Encode(f)[1] == 0x10
  {
    hide BigEndian;
    TwoBytes(MAGIC);
    assert Encode(f)[0..2] == BigEndian(2, MAGIC);
  }

  // ---------- what follows whole frames ----------

  datatype Tail = Whole | Part | Junk

  /** Nothing; too little to judge or the beginning of one more frame; or a header's worth of
    * bytes that do not start like a frame. */
  ghost predicate IsTail(t: Tail, bytes: seq<byte>) {
    match t
    case Whole => bytes == []
    case Part => |bytes| < 16 || exists f: Frame :: IsPart(f, bytes)
    case Junk => |bytes| >= 16 && !(bytes[0] == 0x30 && bytes[1] == 0x10)
  }

  predicate IsPart(f: Frame, bytes: seq<byte>) {
    f.Fits() && bytes < Encode(f)
  }

  lemma MagicIs(b: seq<byte>)
    requires |b| >= 2
    ensures U16At(b, 0) == MAGIC <==> b[0] == 0x30 && b[1] == 0x10
  {
  }

  /** A frame that is not all there yet is no frame and no bad magic. */
  lemma PartIsNoFrame(f: Frame, bytes: seq<byte>)
    requires IsPart(f, bytes)
    ensures DecodeFrame(bytes).Failed? && DecodeFrame(bytes).error != BadMagic
  {
    hide BigEndian, U32At;
    var rest := Encode(f)[|bytes|..];
    assert bytes + rest == Encode(f) + [];
    if |bytes| >= 16 {
      HeaderReads(f, []);
      assert U16At(bytes, 0) == U16At(Encode(f) + [], 0) && U16At(bytes, 6) == U16At(Encode(f) + [], 6);
    }
  }

  lemma TailDecodes(t: Tail, bytes: seq<byte>)
    requires IsTail(t, bytes)
    ensures var r := DecodeAll(bytes);
      r.frames == [] && r.offset == 0 && (r.error == Some(BadMagic) <==> t == Junk)
  {
    match t
    case Whole =>
    case Junk => MagicIs(bytes);
    case Part =>
      if |bytes| >= 16 {
        var f: Frame :| IsPart(f, bytes);
        PartIsNoFrame(f, bytes);
      }
  }

  /** Whole frames and their tail decode to the frames and leave the tail. */
  lemma FramesThenTail(fs: seq<Frame>, t: Tail, tail: seq<byte>, greeting: Option<seq<byte>>)
    requires AllFit(fs) && IsTail(t, tail)
    ensures FrameOutcome(EncodeAll(fs) + tail, greeting) == Outcome(t != Junk, fs, tail, greeting)
  {
    hide DecodeAll, EncodeAll, IsTail;
    var b := EncodeAll(fs);
    DecodeAllOfEncodeAll(fs);
    DecodeAllExtends(b, tail);
    assert b[|b|..] + tail == tail;
    TailDecodes(t, tail);
    assert fs + [] == fs;
    assert (b + tail)[|b|..] == tail;
  }

  // ---------- what a socket reports ----------

  /** The frames handed over for a socket, one event each, in order. */
  function Handed(w: Role, fs: seq<Frame>): (es: seq<Event>)
    ensures |es| == |fs|
  {
    seq(|fs|, i requires 0 <= i < |fs| => FrameReceived(w, fs[i]))
  }

  /** A change of state is reported unless the state is the same. */
  function Changed(from: State, to: State): seq<Event> {
    if from == to then [] else [StateChanged(to)]
  }

  /** The greeting this socket still waits for is in front: nothing at all, when a frame comes
    * first, or six zero bytes. A socket that waits for none has none in front. */
  predicate Opens(c: Link, w: Role, greeting: Option<seq<byte>>, fs: seq<Frame>) {
    if w == Control && !c.greetingConsumed then
      greeting == Some([0, 0, 0, 0, 0, 0]) || (greeting == Some([]) && fs != [])
    else greeting == None
  }

  function Stream(greeting: Option<seq<byte>>, fs: seq<Frame>, tail: seq<byte>): seq<byte> {
    (if greeting.Some? then greeting.value else []) + (EncodeAll(fs) + tail)
  }

  /** What is reported before the tail is judged. */
  function Reported(c: Link, w: Role, greeting: Option<seq<byte>>, fs: seq<Frame>): seq<Event> {
    (if greeting.Some? then [GreetingReceived(greeting.value)] + Changed(c.state, Ready) else []) + Handed(w, fs)
  }

  lemma StreamMeans(c: Link, w: Role, greeting: Option<seq<byte>>, fs: seq<Frame>, t: Tail, tail: seq<byte>)
    requires AllFit(fs) && IsTail(t, tail) && Opens(c, w, greeting, fs)
    ensures StreamOutcome(w, c.greetingConsumed, Stream(greeting, fs, tail)) == Outcome(t != Junk, fs, tail, greeting)
  {
    hide FrameOutcome, IsTail;
    FramesThenTail(fs, t, tail, greeting);
    var body := EncodeAll(fs) + tail;
    var b := Stream(greeting, fs, tail);
    if greeting == Some([0, 0, 0, 0, 0, 0]) {
      assert b[..6] == [0, 0, 0, 0, 0, 0] == Zeros(6) && b[6..] == body;
    } else {
      assert b == body;
      if greeting.Some? {
        FramesStartWithMagic(fs[0]);
        assert body == Encode(fs[0]) + (EncodeAll(fs[1..]) + tail);
      }
    }
  }

  lemma OutcomeActed(c: Link, w: Role, greeting: Option<seq<byte>>, fs: seq<Frame>, ok: bool, tail: seq<byte>)
    ensures var d := Act(c, w, Outcome(ok, fs, tail, greeting));
      var state := if greeting.Some? then Ready else c.state;
      if ok then
        d == c.(rx := c.rx.Set(w, tail), greetingConsumed := c.greetingConsumed || greeting.Some?, state := state,
                log := c.log + Reported(c, w, greeting, fs))
      else
        d == Link(NO_BYTES, {}, false, ErrorState,
                  c.log + Reported(c, w, greeting, fs) + [ErrorOccurred] + Changed(state, Down) + [StateChanged(ErrorState)])
  {
    assert Deliveries(w, fs) == Handed(w, fs);
    hide Deliveries, Handed;
    var d := Act(c, w, Outcome(true, fs, tail, greeting));
    LogIs(c, w, greeting, fs);
    var e := d.log + [ErrorOccurred];
    var state := if greeting.Some? then Ready else c.state;
    assert e + Changed(state, Down) == if state == Down then e else e + [StateChanged(Down)];
  }

  lemma LogIs(c: Link, w: Role, greeting: Option<seq<byte>>, fs: seq<Frame>)
    ensures Act(c, w, Outcome(true, fs, [], greeting)).log == c.log + Reported(c, w, greeting, fs)
  {
    assert Deliveries(w, fs) == Handed(w, fs);
    hide Deliveries, Handed;
    if greeting.Some? {
      var g := [GreetingReceived(greeting.value)];
      assert c.log + g + Changed(c.state, Ready) + Handed(w, fs) == c.log + (g + Changed(c.state, Ready) + Handed(w, fs));
    } else {
      assert [] + Handed(w, fs) == Handed(w, fs);
    }
  }

  /** Any list of fitting frames, with the greeting the socket still waits for in front and
    * any tail behind, cut into pieces in any way: the greeting is reported, then readiness,
    * then exactly the frames in order. A part of a frame stays in the buffer; anything else
    * is a framing error that leaves nothing. */
  lemma StreamArrives(c: Link, w: Role, greeting: Option<seq<byte>>, fs: seq<Frame>, t: Tail, tail: seq<byte>,
                      chunks: seq<seq<byte>>)
    requires w in c.up && c.rx.Of(w) == [] && Opens(c, w, greeting, fs) && AllFit(fs) && IsTail(t, tail)
    requires chunks != [] && Concat(chunks) == Stream(greeting, fs, tail)
    ensures var d := DeliverChunks(c, w, chunks);
      var state := if greeting.Some? then Ready else c.state;
      if t != Junk then
        d == c.(rx := c.rx.Set(w, tail), greetingConsumed := c.greetingConsumed || greeting.Some?, state := state,
                log := c.log + Reported(c, w, greeting, fs))
      else
        d == Link(NO_BYTES, {}, false, ErrorState,
                  c.log + Reported(c, w, greeting, fs) + [ErrorOccurred] + Changed(state, Down) + [StateChanged(ErrorState)])
  {
    hide StreamOutcome, Act, IsTail, Reported, Opens, DeliverChunks, Concat, Stream;
    ChunkingIsIrrelevant(c, w, chunks);
    var b := Stream(greeting, fs, tail);
    StreamMeans(c, w, greeting, fs, t, tail);
    assert [] + b == b;
    var h := c.Hold(w, b);
    OutcomeActed(h, w, greeting, fs, t != Junk, tail);
    SameReport(c, w, b, greeting, fs);
    assert h.rx.Set(w, tail) == c.rx.Set(w, tail);
  }

  lemma SameReport(c: Link, w: Role, b: seq<byte>, greeting: Option<seq<byte>>, fs: seq<Frame>)
    ensures Reported(c.Hold(w, b), w, greeting, fs) == Reported(c, w, greeting, fs)
  {
  }

  // ---------- the greeting decision ----------

  predicate LooksLikeAFrame(b: seq<byte>) {
    |b| >= 2 && b[0] == 0x30 && b[1] == 0x10
  }

  predicate SixZeros(b: seq<byte>) {
    |b| >= 6 && forall i :: 0 <= i < 6 ==> b[i] == 0
  }

  /** The first thing a control socket reports about its stream, however it is cut: that the
    * greeting is refused, if and only if six bytes are there that are neither the start of a
    * frame nor all zero; that it is received, if and only if they are the one or the other;
    * and nothing while neither can be said. */
  lemma GreetingDecision(c: Link, b: seq<byte>, chunks: seq<seq<byte>>)
    requires Control in c.up && c.rx.Of(Control) == [] && !c.greetingConsumed
    requires chunks != [] && Concat(chunks) == b
    ensures var d := DeliverChunks(c, Control, chunks);
      && c.log <= d.log
      && var news := d.log[|c.log|..];
      && (news != [] && news[0] == ErrorOccurred <==> |b| >= 6 && !LooksLikeAFrame(b) && !SixZeros(b))
      && (news != [] && news[0] == GreetingReceived([]) <==> LooksLikeAFrame(b))
      && (news != [] && news[0] == GreetingReceived([0, 0, 0, 0, 0, 0]) <==> SixZeros(b))
      && (news == [] <==> |b| < 6 && !LooksLikeAFrame(b))
      && (news == [] ==> d == c.(rx := c.rx.Set(Control, b)))
  {
    hide DeliverChunks, Concat;
    ChunkingIsIrrelevant(c, Control, chunks);
    assert [] + b == b;
    var h := c.Hold(Control, b);
    hide FrameOutcome, FramesOn;
    var o := StreamOutcome(Control, false, b);
    ZerosAre(b);
    hide StreamOutcome;
    FirstReport(h, o);
    assert Act(h, Control, o).log[|c.log|..] == Act(h, Control, o).log[|h.log|..];
    if o == Outcome(true, [], b, None) {
      assert h.log + [] == h.log;
    }
  }

  lemma ZerosAre(b: seq<byte>)
    ensures SixZeros(b) <==> |b| >= 6 && b[..6] == Zeros(6)
    ensures Zeros(6) == [0, 0, 0, 0, 0, 0]
  {
    if |b| >= 6 && b[..6] == Zeros(6) {
      forall i | 0 <= i < 6 ensures b[i] == 0 {
        assert b[i] == b[..6][i];
      }
    }
  }

  lemma FirstReport(c: Link, o: Outcome)
    requires o.greeting.None? ==> o.frames == []
    ensures var d := Act(c, Control, o);
      && c.log <= d.log
      && var news := d.log[|c.log|..];
      && (o.greeting.Some? ==> news != [] && news[0] == GreetingReceived(o.greeting.value))
      && (o.greeting.None? && !o.ok ==> news != [] && news[0] == ErrorOccurred)
      && (o.greeting.None? && o.ok ==> news == [])
  {
    OutcomeActed(c, Control, o.greeting, o.frames, o.ok, o.rest);
    hide Act;
    if o.greeting.None? {
      assert Reported(c, Control, o.greeting, o.frames) == [];
    }
  }
}
