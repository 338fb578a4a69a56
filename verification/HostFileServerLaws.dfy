/** What holds over every run of the host file server.
  *
  * The three handle tables never share a descriptor, a closed descriptor never comes
  * back, every parseable request has exactly one reply that fits a frame, and reading a
  * synthetic file or a directory to its end gives its contents once, in order, whatever
  * happens to other descriptors in between.
  */
module HostFileServerLaws {
  import opened BeIo
  import opened Wrappers
  import opened HostFileServer
  import HostPaths
  import Drfp = DrfpCodec
  import Deci3 = Deci3Codec

  // ---------- descriptors ----------

  ghost predicate Inv(s: State) {
    && s.nextFd >= FIRST_FD
    && (forall fd: u32 :: fd in s.files ==> FIRST_FD <= fd < s.nextFd && fd !in s.synths && fd !in s.dirs)
    && (forall fd: u32 :: fd in s.synths ==> FIRST_FD <= fd < s.nextFd && fd !in s.dirs)
    && (forall fd: u32 :: fd in s.dirs ==> FIRST_FD <= fd < s.nextFd)
    && (forall fd: u32 :: fd in s.synths ==> 0 <= s.synths[fd].pos <= |s.synths[fd].content|)
    && (forall fd: u32 :: fd in s.dirs ==> s.dirs[fd].pos <= |s.dirs[fd].entries|)
  }

  /** The step opens a descriptor. */
  predicate OpensOne(s: State, e: Event) {
    Step(s, e).0.nextFd != s.nextFd
  }

  function Opens(s: State, es: seq<Event>): nat
    decreases |es|
  {
    if es == [] then 0
    else Opens(s, es[..|es| - 1]) + (if OpensOne(Run(s, es[..|es| - 1]), es[|es| - 1]) then 1 else 0)
  }

  /** The counter does not wrap over the run. */
  predicate CounterLasts(s: State, es: seq<Event>) {
    s.nextFd as int + Opens(s, es) < FD_LIMIT
  }

  /** One step: the tables stay sound, and the only new descriptor is the counter's. */
  ghost predicate Evolves(s: State, t: State) {
    && Inv(t)
    && (t.nextFd == s.nextFd || t.nextFd as int == s.nextFd as int + 1)
    && (forall fd: u32 :: t.Live(fd) ==> s.Live(fd) || (fd == s.nextFd && t.nextFd != s.nextFd))
  }

  lemma OpenEvolves(s: State, q: Drfp.Request, h: Host)
    requires Inv(s) && (OnOpen(s, q, h).0.nextFd != s.nextFd ==> s.nextFd as int + 1 < FD_LIMIT)
    ensures Evolves(s, OnOpen(s, q, h).0)
  {
    hide Local, IsParamSfo, PathAt, Flag, OpenReply, WantsWrite, U32At;
  }

  lemma DopenEvolves(s: State, q: Drfp.Request, h: Host)
    requires Inv(s) && (OnDopen(s, q, h).0.nextFd != s.nextFd ==> s.nextFd as int + 1 < FD_LIMIT)
    ensures Evolves(s, OnDopen(s, q, h).0)
  {
    hide Local, PathAt;
  }

  lemma CloseEvolves(s: State, q: Drfp.Request)
    requires Inv(s)
    ensures q.code == Drfp.CLOSE ==> Evolves(s, OnClose(s, q).0)
    ensures q.code == Drfp.DCLOSE ==> Evolves(s, OnDclose(s, q).0)
  {
    hide Result;
  }

  lemma ReadEvolves(s: State, q: Drfp.Request, h: Host)
    requires Inv(s)
    ensures Evolves(s, OnRead(s, q, h).0)
  {
    hide ReadReply, Mid;
  }

  lemma DreadEvolves(s: State, q: Drfp.Request, h: Host)
    requires Inv(s)
    ensures Evolves(s, OnDread(s, q, h).0)
  {
    hide DreadReply;
  }

  lemma SeekEvolves(s: State, q: Drfp.Request, h: Host)
    requires Inv(s) && q.code == Drfp.SEEK
    ensures Evolves(s, OnSeek(s, q, h).0)
  {
    hide SeekReply, Result, Target, Signed;
  }

  lemma HandleEvolves(s: State, q: Drfp.Request, h: Host)
    requires Inv(s) && q.code <= Drfp.LAST_CODE
    requires Handle(s, q, h).0.nextFd != s.nextFd ==> s.nextFd as int + 1 < FD_LIMIT
    ensures Evolves(s, Handle(s, q, h).0)
  {
    hide OnOpen, OnClose, OnRead, OnDopen, OnDclose, OnDread, OnSeek, Inv;
    if q.code == Drfp.OPEN {
      OpenEvolves(s, q, h);
    } else if q.code == Drfp.DOPEN {
      DopenEvolves(s, q, h);
    } else if q.code == Drfp.SEEK {
      SeekEvolves(s, q, h);
    } else {
      CloseEvolves(s, q);
      ReadEvolves(s, q, h);
      DreadEvolves(s, q, h);
    }
  }

  lemma StepEvolves(s: State, e: Event)
    requires Inv(s) && (OpensOne(s, e) ==> s.nextFd as int + 1 < FD_LIMIT)
    ensures Evolves(s, Step(s, e).0)
  {
    hide Handle, HostPaths.Chain, HostPaths.Normalise, HostPaths.CleanPath, Authorised;
    if e.Frame? && e.category == CATEGORY && Drfp.Parse(e.payload).Some? {
      HandleEvolves(s, Drfp.Parse(e.payload).value, e.host);
    }
  }

  /** Over every run in which the counter does not wrap: the tables share no descriptor,
    * every live one was handed out and is below the counter, and the counter has moved
    * by exactly the number of descriptors opened. */
  lemma {:induction false} DescriptorsStaySound(s: State, es: seq<Event>)
    requires Inv(s) && CounterLasts(s, es)
    ensures Inv(Run(s, es)) && Run(s, es).nextFd as int == s.nextFd as int + Opens(s, es)
    decreases |es|
  {
    if es != [] {
      hide Inv, Step;
      var before := Run(s, es[..|es| - 1]);
      DescriptorsStaySound(s, es[..|es| - 1]);
      StepEvolves(before, es[|es| - 1]);
    }
  }

  lemma StartIsSound(sfo: seq<byte>)
    ensures Inv(Start(sfo))
  {
  }

  lemma {:induction false} RunAppends(s: State, a: seq<Event>, b: seq<Event>)
    ensures Run(s, a + b) == Run(Run(s, a), b)
    ensures Opens(s, a + b) == Opens(s, a) + Opens(Run(s, a), b)
    decreases |b|
  {
    hide Step;
    if b == [] {
      assert a + b == a;
    } else {
      assert (a + b)[..|a + b| - 1] == a + b[..|b| - 1];
      RunAppends(s, a, b[..|b| - 1]);
    }
  }

  /** A descriptor below the counter that is not live never becomes live. */
  lemma {:induction false} DeadStaysDead(s: State, es: seq<Event>, fd: u32)
    requires Inv(s) && CounterLasts(s, es) && fd < s.nextFd && !s.Live(fd)
    ensures !Run(s, es).Live(fd)
    decreases |es|
  {
    if es != [] {
      hide Step, Inv;
      var before := Run(s, es[..|es| - 1]);
      DescriptorsStaySound(s, es[..|es| - 1]);
      DeadStaysDead(s, es[..|es| - 1], fd);
      StepEvolves(before, es[|es| - 1]);
    }
  }

  /** Once a descriptor that was live is closed or reset, no later request revives it. */
  lemma ClosedNeverReopens(sfo: seq<byte>, a: seq<Event>, b: seq<Event>, c: seq<Event>, fd: u32)
    requires CounterLasts(Start(sfo), a + b + c)
    requires Run(Start(sfo), a).Live(fd) && !Run(Start(sfo), a + b).Live(fd)
    ensures !Run(Start(sfo), a + b + c).Live(fd)
  {
    hide Run, Opens, Start;
    var s := Start(sfo);
    StartIsSound(sfo);
    RunAppends(s, a + b, c);
    RunAppends(s, a, b);
    DescriptorsStaySound(s, a);
    DescriptorsStaySound(s, a + b);
    DeadStaysDead(Run(s, a + b), c, fd);
  }

  // ---------- replies ----------

  /** The code and sequence number of a reply are those its request calls for, and it is
    * small enough for a frame. */
  predicate Answers(reply: seq<byte>, q: Drfp.Request) {
    && 8 <= |reply| <= 16 + READ_CAP
    && q.code <= Drfp.LAST_CODE
    && reply == Drfp.Build(q.code + 1, q.seqNo, reply[8..])
  }

  lemma Answered(q: Drfp.Request, body: seq<byte>)
    requires |body| <= 8 + READ_CAP && q.code <= Drfp.LAST_CODE
    ensures Answers(Drfp.Build(q.code + 1, q.seqNo, body), q)
  {
    assert Drfp.Build(q.code + 1, q.seqNo, body)[8..] == body;
  }

  lemma ResultAnswers(q: Drfp.Request, result: u32)
    requires q.code <= Drfp.LAST_CODE
    ensures Answers(Result(q, result), q)
  {
    Answered(q, Drfp.Word(result));
  }

  lemma StatAnswers(q: Drfp.Request, result: u32, st: Drfp.Stat)
    requires q.code <= Drfp.LAST_CODE
    ensures Answers(Drfp.Build(q.code + 1, q.seqNo, Drfp.StatBody(result, st)), q)
  {
    Answered(q, Drfp.StatBody(result, st));
  }

  /** Every request has exactly one answer, from every state and whatever the host says. */
  lemma HandleAnswers(s: State, q: Drfp.Request, h: Host)
    requires q.code <= Drfp.LAST_CODE
    ensures Answers(Handle(s, q, h).1, q)
  {
    hide Answers, Drfp.Build, Drfp.StatBody, Local, PathAt, IsParamSfo, Result, BigEndian, Flag;
    forall result: u32 {
      ResultAnswers(q, result);
    }
    forall result: u32, st: Drfp.Stat {
      StatAnswers(q, result, st);
    }
    if q.code == Drfp.INIT {
      Answered(q, Drfp.Word(0) + Drfp.Word(15));
    } else if q.code == Drfp.OPEN {
      forall result: u32, fd: u32 ensures Answers(OpenReply(q, result, fd), q) {
        Answered(q, Drfp.Word(result) + Drfp.Word(fd));
      }
    } else if q.code == Drfp.WRITE {
      forall result: u32, n: u32 ensures Answers(Drfp.Build(q.code + 1, q.seqNo, Drfp.WriteBody(result, n)), q) {
        Answered(q, Drfp.WriteBody(result, n));
      }
    } else if q.code == Drfp.READ {
      forall result: u32, data: seq<byte> | |data| <= READ_CAP ensures Answers(ReadReply(q, result, data), q) {
        Answered(q, Drfp.ReadBody(result, data));
      }
    } else if q.code == Drfp.DOPEN {
      forall result: u32, fd: u32 ensures Answers(Drfp.Build(q.code + 1, q.seqNo, Drfp.DopenBody(result, fd)), q) {
        Answered(q, Drfp.DopenBody(result, fd));
      }
    } else if q.code == Drfp.DREAD {
      forall result: u32, entry: seq<byte> | |entry| <= READ_CAP ensures Answers(DreadReply(q, result, entry), q) {
        Answered(q, Drfp.DreadBody(result, entry));
      }
    } else if q.code == Drfp.SEEK {
      forall target: int ensures Answers(SeekReply(q, target), q) {
        Answered(q, Drfp.Word(0) + Drfp.Word(Low32(target)) + Drfp.Word(High32(target)));
      }
    }
  }

  /** A frame is answered exactly when it is a parseable request, with one reply whose code
    * is the request's plus one and whose sequence number is the request's. The reply
    * always survives its trip in a frame, and parses again unless the request code is 33. */
  lemma EveryRequestHasOneReply(s: State, category: u16, payload: seq<byte>, h: Host, cfwDex: bool, rest: seq<byte>)
    ensures var r := Step(s, Frame(category, payload, h));
      && (r.1.Some? <==> category == CATEGORY && Drfp.Parse(payload).Some?)
      && (r.1.None? ==> r.0 == s)
      && (r.1.Some? ==>
            var q := Drfp.Parse(payload).value;
            var reply := r.1.value;
            var env := Envelope(cfwDex, reply);
            && |reply| >= 8 && U32At(reply, 0) as int == q.code as int + 1 && U32At(reply, 4) == q.seqNo
            && (Drfp.Parse(reply).Some? <==> q.code != Drfp.LAST_CODE)
            && Deci3.DecodeFrame(Deci3.Encode(env) + rest) == Deci3.Decoded(env, env.WireSize()))
  {
    hide Handle, Deci3.DecodeFrame, Deci3.Encode;
    if category == CATEGORY && Drfp.Parse(payload).Some? {
      var q := Drfp.Parse(payload).value;
      var reply := Handle(s, q, h).1;
      HandleAnswers(s, q, h);
      Deci3.RoundTripIffFits(Envelope(cfwDex, reply), rest);
      assert reply[0..4] == BigEndian(4, q.code + 1) && reply[4..8] == BigEndian(4, q.seqNo);
      ReadU32(reply, 0, q.code + 1);
      ReadU32(reply, 4, q.seqNo);
    }
  }

  // ---------- reading a synthetic file ----------

  /** The parsed request an event carries, if it is one for the server. */
  function RequestOf(e: Event): Option<Drfp.Request> {
    if e.Frame? && e.category == CATEGORY then Drfp.Parse(e.payload) else None
  }

  predicate Names(q: Drfp.Request, fd: u32) {
    |q.payload| >= 4 && U32At(q.payload, 0) == fd
  }

  /** The event closes, seeks or resets the descriptor. */
  predicate Disturbs(e: Event, fd: u32) {
    || e.ResetTables?
    || (RequestOf(e).Some? &&
        var q := RequestOf(e).value;
        (q.code == Drfp.CLOSE || q.code == Drfp.DCLOSE || q.code == Drfp.SEEK) && Names(q, fd))
  }

  predicate Reads(e: Event, fd: u32) {
    RequestOf(e).Some? && RequestOf(e).value.code == Drfp.READ
    && |RequestOf(e).value.payload| >= 8 && Names(RequestOf(e).value, fd)
  }

  /** How many bytes a READ may return at most. */
  function Asked(e: Event, fd: u32): nat {
    if Reads(e, fd) then Cap(U32At(RequestOf(e).value.payload, 4)) else 0
  }

  /** The file bytes in the reply to an event. */
  function Returned(s: State, e: Event, fd: u32): seq<byte> {
    if Reads(e, fd) && Step(s, e).1.Some? && |Step(s, e).1.value| >= 16 then Step(s, e).1.value[16..] else []
  }

  lemma ReadReplyData(q: Drfp.Request, result: u32, data: seq<byte>)
    requires |data| < FD_LIMIT
    ensures |ReadReply(q, result, data)| == 16 + |data| && ReadReply(q, result, data)[16..] == data
  {
    var body := Drfp.ReadBody(result, data);
    assert ReadReply(q, result, data)[8..] == body;
    assert ReadReply(q, result, data)[16..] == body[8..];
  }

  /** One event that does not disturb a synthetic file: it stays, and what a READ of it
    * returns is the next stretch of its content. */
  lemma SynthAdvances(s: State, e: Event, fd: u32)
    requires Inv(s) && fd in s.synths && !Disturbs(e, fd)
    ensures var t := Step(s, e).0;
      var f := s.synths[fd];
      && fd in t.synths
      && t.synths[fd].content == f.content
      && t.synths[fd].pos == Min(f.pos + Asked(e, fd), |f.content|)
      && f.pos <= t.synths[fd].pos <= |f.content|
      && Returned(s, e, fd) == f.content[f.pos..t.synths[fd].pos]
  {
    hide Inv;
    assert 0 <= s.synths[fd].pos <= |s.synths[fd].content| && fd != s.nextFd by {
      InvAt(s, fd);
    }
    hide HostPaths.Chain, HostPaths.Normalise, HostPaths.CleanPath, Authorised, Local, IsParamSfo, PathAt;
    if RequestOf(e).Some? {
      var q := RequestOf(e).value;
      if Reads(e, fd) {
        var f := s.synths[fd];
        SynthRead(s, q, e.host, fd);
        ReadReplyData(q, OK, f.content[f.pos..Min(f.pos + Asked(e, fd), |f.content|)]);
      } else {
        SynthKept(s, q, e.host, fd);
      }
    }
  }

  lemma InvAt(s: State, fd: u32)
    requires Inv(s)
    ensures fd in s.synths ==> 0 <= s.synths[fd].pos <= |s.synths[fd].content| && fd < s.nextFd && fd !in s.dirs
    ensures fd in s.dirs ==> s.dirs[fd].pos <= |s.dirs[fd].entries| && fd < s.nextFd
  {
  }

  lemma SynthKept(s: State, q: Drfp.Request, h: Host, fd: u32)
    requires fd in s.synths && fd != s.nextFd && q.code <= Drfp.LAST_CODE
    requires (q.code == Drfp.CLOSE || q.code == Drfp.SEEK) ==> !Names(q, fd)
    requires q.code == Drfp.READ && |q.payload| >= 8 ==> !Names(q, fd)
    ensures var t := Handle(s, q, h).0; fd in t.synths && t.synths[fd] == s.synths[fd]
  {
  }

  lemma SynthRead(s: State, q: Drfp.Request, h: Host, fd: u32)
    requires fd in s.synths && 0 <= s.synths[fd].pos <= |s.synths[fd].content|
    requires q.code == Drfp.READ && |q.payload| >= 8 && Names(q, fd)
    ensures var f := s.synths[fd];
      var pos := Min(f.pos + Cap(U32At(q.payload, 4)), |f.content|);
      && |f.content[f.pos..pos]| < FD_LIMIT
      && Handle(s, q, h) == (s.(synths := s.synths[fd := f.(pos := pos)]), ReadReply(q, OK, f.content[f.pos..pos]))
  {
    hide ReadReply;
    var f := s.synths[fd];
    var pos := Min(f.pos + Cap(U32At(q.payload, 4)), |f.content|);
    assert Mid(f.content, f.pos, pos - f.pos) == f.content[f.pos..pos];
  }

  /** The bytes a run's READs of one descriptor return, in order. */
  function AllReturned(s: State, es: seq<Event>, fd: u32): seq<byte>
    decreases |es|
  {
    if es == [] then []
    else AllReturned(s, es[..|es| - 1], fd) + Returned(Run(s, es[..|es| - 1]), es[|es| - 1], fd)
  }

  function AllAsked(es: seq<Event>, fd: u32): nat
    decreases |es|
  {
    if es == [] then 0 else AllAsked(es[..|es| - 1], fd) + Asked(es[|es| - 1], fd)
  }

  /** Over any run that leaves a synthetic file open and does not seek it, whatever else
    * happens, its READs return exactly the content from where it stood, as far as was
    * asked: nothing twice, nothing skipped, and the rest of the file once enough is asked. */
  lemma {:induction false} ReadsReturnTheContent(s: State, es: seq<Event>, fd: u32)
    requires Inv(s) && CounterLasts(s, es) && fd in s.synths
    requires forall e :: e in es ==> !Disturbs(e, fd)
    ensures var t := Run(s, es);
      var f := s.synths[fd];
      && fd in t.synths
      && t.synths[fd] == f.(pos := Min(f.pos + AllAsked(es, fd), |f.content|))
      && f.pos <= t.synths[fd].pos <= |f.content|
      && AllReturned(s, es, fd) == f.content[f.pos..t.synths[fd].pos]
    decreases |es|
  {
    hide Step, Returned, Asked, Disturbs, Inv;
    InvAt(s, fd);
    if es != [] {
      var init := es[..|es| - 1];
      var e := es[|es| - 1];
      DescriptorsStaySound(s, init);
      ReadsReturnTheContent(s, init, fd);
      SynthAdvances(Run(s, init), e, fd);
      var f := s.synths[fd];
      var a, b := Run(s, init).synths[fd].pos, Run(s, es).synths[fd].pos;
      assert f.content[f.pos..a] + f.content[a..b] == f.content[f.pos..b];
    }
  }

  // ---------- seeking, then reading ----------

  /** One SEEK on a synthetic file. */
  lemma SynthSeek(s: State, q: Drfp.Request, h: Host, fd: u32)
    requires Inv(s) && fd in s.synths && q.code == Drfp.SEEK && |q.payload| >= 16 && Names(q, fd)
    ensures var f := s.synths[fd];
      var target := Target(U32At(q.payload, 12), f.pos, |f.content|, Signed(U64At(q.payload, 4)));
      Handle(s, q, h) ==
        if target.Some? && 0 <= target.value <= |f.content|
        then (s.(synths := s.synths[fd := f.(pos := target.value)]), SeekReply(q, target.value))
        else (s, Result(q, EINVAL))
  {
  }

  predicate Seeks(e: Event, fd: u32) {
    RequestOf(e).Some? && RequestOf(e).value.code == Drfp.SEEK
    && |RequestOf(e).value.payload| >= 16 && Names(RequestOf(e).value, fd)
  }

  /** The reply says the seek was done. */
  predicate SaysDone(reply: seq<byte>) {
    |reply| >= 20 && U32At(reply, 8) == OK
  }

  /** The position a seek reply reports, low word first. */
  function Position(reply: seq<byte>): nat
    requires |reply| >= 20
  {
    U32At(reply, 16) * 0x1_0000_0000 + U32At(reply, 12)
  }

  lemma SeekReplyReads(q: Drfp.Request, target: nat)
    requires target < 0x1_0000_0000_0000_0000
    ensures SaysDone(SeekReply(q, target)) && Position(SeekReply(q, target)) == target
  {
    hide BigEndian;
    var reply := SeekReply(q, target);
    assert reply[8..12] == BigEndian(4, OK) && reply[12..16] == BigEndian(4, Low32(target));
    assert reply[16..20] == BigEndian(4, High32(target));
    ReadU32(reply, 8, OK);
    ReadU32(reply, 12, Low32(target));
    ReadU32(reply, 16, High32(target));
  }

  /** What the console reads after a seek is what the reply promised: from the reported
    * position when the seek was done, which is when its target lies within the file, and
    * from the old position when it was refused. Whatever else happens in between, the reads
    * return the content from there, as far as is asked. A file holds fewer than 2^31 bytes. */
  lemma SeekThenReads(s: State, e: Event, es: seq<Event>, fd: u32)
    requires Inv(s) && fd in s.synths && Seeks(e, fd) && |s.synths[fd].content| < 0x8000_0000
    requires CounterLasts(Step(s, e).0, es) && forall x :: x in es ==> !Disturbs(x, fd)
    ensures Step(s, e).1.Some?
    ensures var f := s.synths[fd];
      var t, reply := Step(s, e).0, Step(s, e).1.value;
      var p := RequestOf(e).value.payload;
      var target := Target(U32At(p, 12), f.pos, |f.content|, Signed(U64At(p, 4)));
      var from := if SaysDone(reply) then Position(reply) else f.pos;
      && (SaysDone(reply) <==> target.Some? && 0 <= target.value <= |f.content|)
      && (SaysDone(reply) ==> Position(reply) == target.value)
      && 0 <= from <= |f.content|
      && AllReturned(t, es, fd) == f.content[from..Min(from + AllAsked(es, fd), |f.content|)]
  {
    hide Handle, SeekReply, AllReturned, AllAsked, Disturbs, Position, SaysDone, Run, Target, Inv, CounterLasts;
    var q, f := RequestOf(e).value, s.synths[fd];
    var t := Step(s, e).0;
    SynthSeek(s, q, e.host, fd);
    InvAt(s, fd);
    var target := Target(U32At(q.payload, 12), f.pos, |f.content|, Signed(U64At(q.payload, 4)));
    if target.Some? && 0 <= target.value <= |f.content| {
      SeekReplyReads(q, target.value);
    } else {
      RefusalIsShort(q);
    }
    StepEvolves(s, e);
    ReadsReturnTheContent(t, es, fd);
  }

  lemma RefusalIsShort(q: Drfp.Request)
    requires q.code <= Drfp.LAST_CODE
    ensures !SaysDone(Result(q, EINVAL))
  {
  }

  // ---------- reading a directory ----------

  /** A DREAD with room for an entry. */
  predicate Lists(e: Event, fd: u32) {
    RequestOf(e).Some? && RequestOf(e).value.code == Drfp.DREAD
    && |RequestOf(e).value.payload| >= 8 && Names(RequestOf(e).value, fd)
    && U32At(RequestOf(e).value.payload, 4) >= Drfp.DIRENT_SIZE
  }

  /** What one event lists of a descriptor; [[]] is the end of the directory. */
  function Listed(s: State, e: Event, fd: u32): (l: seq<seq<byte>>)
    ensures |l| <= 1
  {
    if Lists(e, fd) && Step(s, e).1.Some? && |Step(s, e).1.value| >= 16 then [Step(s, e).1.value[16..]] else []
  }

  function Listing(s: State, es: seq<Event>, fd: u32): seq<seq<byte>>
    decreases |es|
  {
    if es == [] then []
    else Listing(s, es[..|es| - 1], fd) + Listed(Run(s, es[..|es| - 1]), es[|es| - 1], fd)
  }

  /** Entry `i` of the listing of a directory that stands at `pos`: the kind byte is the
    * host's to say, the rest is the name. */
  predicate IsEntry(d: DirCursor, i: nat, data: seq<byte>) {
    if d.pos + i < |d.entries|
    then |data| == Drfp.DIRENT_SIZE && data[1..] == Drfp.Dirent(0, d.entries[d.pos + i])[1..]
    else data == []
  }

  lemma DirKept(s: State, q: Drfp.Request, h: Host, fd: u32)
    requires fd in s.dirs && fd != s.nextFd && q.code <= Drfp.LAST_CODE
    requires q.code == Drfp.DCLOSE ==> !Names(q, fd)
    requires q.code == Drfp.DREAD && |q.payload| >= 8 && U32At(q.payload, 4) >= Drfp.DIRENT_SIZE ==> !Names(q, fd)
    ensures var t := Handle(s, q, h).0; fd in t.dirs && t.dirs[fd] == s.dirs[fd]
  {
  }

  lemma DirRead(s: State, q: Drfp.Request, h: Host, fd: u32)
    requires fd in s.dirs && q.code == Drfp.DREAD && |q.payload| >= 8 && Names(q, fd)
    requires U32At(q.payload, 4) >= Drfp.DIRENT_SIZE
    ensures var d := s.dirs[fd];
      var r := Handle(s, q, h);
      && r.0 == (if d.pos < |d.entries| then s.(dirs := s.dirs[fd := d.(pos := d.pos + 1)]) else s)
      && |r.1| >= 16 && IsEntry(d, 0, r.1[16..])
  {
    hide Drfp.Build, BigEndian, DreadReply, Drfp.Dirent;
    var d := s.dirs[fd];
    var entry := if d.pos < |d.entries| then Drfp.Dirent(Kind(h), d.entries[d.pos]) else [];
    DreadReplyData(q, entry);
    if d.pos < |d.entries| {
      DirentTail(Kind(h), d.entries[d.pos]);
    }
  }

  lemma DirentTail(kind: byte, name: seq<byte>)
    ensures Drfp.Dirent(kind, name)[1..] == Drfp.Dirent(0, name)[1..]
  {
  }

  lemma DreadReplyData(q: Drfp.Request, entry: seq<byte>)
    requires |entry| < FD_LIMIT
    ensures |DreadReply(q, OK, entry)| == 16 + |entry| && DreadReply(q, OK, entry)[16..] == entry
  {
    var body := Drfp.DreadBody(OK, entry);
    assert DreadReply(q, OK, entry)[8..] == body;
    assert DreadReply(q, OK, entry)[16..] == body[8..];
  }

  lemma EntryShift(d: DirCursor, n: nat, data: seq<byte>)
    requires d.pos <= |d.entries| && IsEntry(d.(pos := Min(d.pos + n, |d.entries|)), 0, data)
    ensures IsEntry(d, n, data)
  {
  }

  /** One event that does not disturb a directory: it stays, and what is listed of it is
    * its next entry, or its end. */
  lemma DirAdvances(s: State, e: Event, fd: u32)
    requires Inv(s) && fd in s.dirs && !Disturbs(e, fd)
    ensures var t := Step(s, e).0;
      var d := s.dirs[fd];
      var l := Listed(s, e, fd);
      && fd in t.dirs
      && t.dirs[fd] == d.(pos := Min(d.pos + |l|, |d.entries|))
      && (|l| == 1 <==> Lists(e, fd))
      && (|l| == 1 ==> IsEntry(d, 0, l[0]))
  {
    hide Inv, IsEntry;
    assert s.dirs[fd].pos <= |s.dirs[fd].entries| && fd != s.nextFd by {
      InvAt(s, fd);
    }
    hide HostPaths.Chain, HostPaths.Normalise, HostPaths.CleanPath, Authorised, Local, IsParamSfo, PathAt, Handle;
    if RequestOf(e).Some? {
      if Lists(e, fd) {
        DirRead(s, RequestOf(e).value, e.host, fd);
      } else {
        DirKept(s, RequestOf(e).value, e.host, fd);
      }
    }
  }

  lemma FewerOpens(s: State, es: seq<Event>)
    requires es != []
    ensures Opens(s, es[..|es| - 1]) <= Opens(s, es)
  {
  }

  /** Over any run that leaves a directory open, whatever else happens, its listings give
    * each remaining entry once, in order, and then the end of the directory forever. */
  lemma {:induction false} ListingsGiveEachEntryOnce(s: State, es: seq<Event>, fd: u32)
    requires Inv(s) && CounterLasts(s, es) && fd in s.dirs
    requires forall e :: e in es ==> !Disturbs(e, fd)
    ensures var t := Run(s, es);
      var d := s.dirs[fd];
      var list := Listing(s, es, fd);
      && fd in t.dirs && t.dirs[fd] == d.(pos := Min(d.pos + |list|, |d.entries|))
      && forall i :: 0 <= i < |list| ==> IsEntry(d, i, list[i])
    decreases |es|
  {
    hide Inv, IsEntry, Step, Listed, Disturbs, Opens;
    InvAt(s, fd);
    if es != [] {
      var init := es[..|es| - 1];
      var e := es[|es| - 1];
      FewerOpens(s, es);
      DescriptorsStaySound(s, init);
      ListingsGiveEachEntryOnce(s, init, fd);
      DirAdvances(Run(s, init), e, fd);
      var before := Listing(s, init, fd);
      var one := Listed(Run(s, init), e, fd);
      if |one| == 1 {
        EntryShift(s.dirs[fd], |before|, one[0]);
      }
    }
  }
}
