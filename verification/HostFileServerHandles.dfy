/** What the console may conclude from a reply about the handles it holds, told by the bytes
  * of the messages: result words at offset 8, a new descriptor at offset 12.
  */
module HostFileServerHandles {
  import opened BeIo
  import opened Wrappers
  import opened HostFileServer
  import opened HostFileServerLaws
  import opened HostFileServerBounds
  import HostPaths
  import opened WireLayouts
  import Drfp = DrfpCodec

  // ---------- reading replies ----------

  /** The event is a request of this code with at least `size` payload bytes. */
  predicate Asks(e: Event, code: u32, size: nat) {
    RequestOf(e).Some? && RequestOf(e).value.code == code && |RequestOf(e).value.payload| >= size
  }

  /** The event is such a request and its first word is the descriptor. */
  predicate AsksOf(e: Event, code: u32, size: nat, fd: u32) {
    Asks(e, code, size) && size >= 4 && U32At(RequestOf(e).value.payload, 0) == fd
  }

  /** The reply to the event has this word at this offset. */
  predicate Says(s: State, e: Event, off: nat, w: u32) {
    Step(s, e).1.Some? && off + 4 <= |Step(s, e).1.value| && U32At(Step(s, e).1.value, off) == w
  }

  lemma FirstWord(code: u32, seqNo: u32, w: u32, rest: seq<byte>)
    ensures var b := Drfp.Build(code, seqNo, Drfp.Word(w) + rest); |b| >= 12 && U32At(b, 8) == w
  {
    var b := Drfp.Build(code, seqNo, Drfp.Word(w) + rest);
    assert b[8..12] == BigEndian(4, w);
    ReadU32(b, 8, w);
  }

  lemma TwoWords(code: u32, seqNo: u32, v: u32, w: u32)
    ensures var b := Drfp.Build(code, seqNo, Drfp.Word(v) + Drfp.Word(w));
            |b| == 16 && U32At(b, 8) == v && U32At(b, 12) == w
  {
    var b := Drfp.Build(code, seqNo, Drfp.Word(v) + Drfp.Word(w));
    assert b[8..12] == BigEndian(4, v) && b[12..16] == BigEndian(4, w);
    ReadU32(b, 8, v);
    ReadU32(b, 12, w);
  }

  lemma ResultWord(q: Drfp.Request, w: u32)
    requires q.code <= 33
    ensures var b := Result(q, w); |b| == 12 && U32At(b, 8) == w
  {
    FirstWord(q.code + 1, q.seqNo, w, []);
    assert Drfp.Word(w) + [] == Drfp.Word(w);
  }

  lemma DataWord(q: Drfp.Request, w: u32, data: seq<byte>)
    requires |data| < FD_LIMIT
    ensures var b := ReadReply(q, w, data); |b| >= 16 && U32At(b, 8) == w && b[16..] == data
  {
    FirstWord(Drfp.READ + 1, q.seqNo, w, Drfp.Word(|data|) + data);
    assert Drfp.ReadBody(w, data) == Drfp.Word(w) + (Drfp.Word(|data|) + data);
    ReadReplyData(q, w, data);
  }

  lemma EntryWord(q: Drfp.Request, w: u32, entry: seq<byte>)
    requires |entry| < FD_LIMIT
    ensures var b := DreadReply(q, w, entry); |b| >= 16 && U32At(b, 8) == w
  {
    var rest := if w != 0 then Drfp.Word(0) else Drfp.Word(|entry|) + entry;
    FirstWord(Drfp.DREAD + 1, q.seqNo, w, rest);
    assert Drfp.DreadBody(w, entry) == Drfp.Word(w) + rest;
  }

  lemma SeekWord(q: Drfp.Request, target: int)
    ensures |SeekReply(q, target)| >= 12 && U32At(SeekReply(q, target), 8) == 0
  {
    var rest := Drfp.Word(Low32(target)) + Drfp.Word(High32(target));
    FirstWord(Drfp.SEEK + 1, q.seqNo, 0, rest);
    assert Drfp.Word(0) + Drfp.Word(Low32(target)) + Drfp.Word(High32(target)) == Drfp.Word(0) + rest;
  }

  lemma StatWord(q: Drfp.Request, code: u32, w: u32, st: Drfp.Stat)
    ensures var b := Drfp.Build(code, q.seqNo, Drfp.StatBody(w, st)); |b| == 56 && U32At(b, 8) == w
  {
    var body := Drfp.StatBody(w, st);
    assert body[..4] == Drfp.Word(w);
    FirstWord(code, q.seqNo, w, body[4..]);
    assert body == Drfp.Word(w) + body[4..];
  }

  // ---------- closing ----------

  /** CLOSE of a file or synthetic file, and DCLOSE of a directory, take out exactly that
    * descriptor and say OK; of anything else they change nothing and say EBADF. */
  lemma CloseTakesExactly(s: State, e: Event, fd: u32)
    requires Inv(s) && (AsksOf(e, 4, 4, fd) || AsksOf(e, 22, 4, fd))
    ensures var t := Step(s, e).0;
            var held := if RequestOf(e).value.code == 4 then fd in s.files || fd in s.synths else fd in s.dirs;
            Says(s, e, 8, if held then 0 else 0x8001_002a)
            && (!held ==> t == s)
            && (held ==> t == s.(files := s.files - {fd}, synths := s.synths - {fd}, dirs := s.dirs - {fd}) && !t.Live(fd))
  {
    hide Result;
    var q := RequestOf(e).value;
    ResultWord(q, 0);
    ResultWord(q, 0x8001_002a);
    Without(s.files, fd);
    Without(s.synths, fd);
    Without(s.dirs, fd);
  }

  lemma Without<T>(m: map<u32, T>, fd: u32)
    ensures fd !in m ==> m - {fd} == m
    ensures fd !in m - {fd}
  {
  }

  /** After a reset nothing is live. */
  lemma ResetLeavesNothing(s: State, fd: u32)
    ensures !Step(s, ResetTables).0.Live(fd)
  {
  }

  // ---------- which descriptors are live ----------

  /** The reply to an OPEN or DOPEN says OK and hands out this descriptor. */
  predicate OpenedBy(s: State, e: Event, fd: u32) {
    (Asks(e, 2, 0) || Asks(e, 20, 0)) && Says(s, e, 8, 0) && Says(s, e, 12, fd)
  }

  /** The reply to a CLOSE or DCLOSE of this descriptor says OK, or the tables are reset. */
  predicate ClosedBy(s: State, e: Event, fd: u32) {
    e.ResetTables? || ((AsksOf(e, 4, 4, fd) || AsksOf(e, 22, 4, fd)) && Says(s, e, 8, 0))
  }

  lemma OpenTells(s: State, q: Drfp.Request, h: Host, fd: u32)
    ensures var t := OnOpen(s, q, h).0; var b := OnOpen(s, q, h).1;
            |b| == 16 && (U32At(b, 8) != 0 ==> t == s)
            && (U32At(b, 8) == 0 ==> (t.Live(fd) <==> s.Live(fd) || fd == U32At(b, 12)))
  {
    hide PathAt, IsParamSfo, Local, Flag, Drfp.Build, BigEndian;
    forall w: u32, v: u32 ensures |OpenReply(q, w, v)| == 16 && U32At(OpenReply(q, w, v), 8) == w && U32At(OpenReply(q, w, v), 12) == v {
      TwoWords(Drfp.OPEN + 1, q.seqNo, w, v);
    }
    hide OpenReply;
  }

  lemma DopenTells(s: State, q: Drfp.Request, h: Host, fd: u32)
    ensures var t := OnDopen(s, q, h).0; var b := OnDopen(s, q, h).1;
            |b| == 16 && (U32At(b, 8) != 0 ==> t == s)
            && (U32At(b, 8) == 0 ==> (t.Live(fd) <==> s.Live(fd) || fd == U32At(b, 12)))
  {
    hide PathAt, Local, Drfp.Build, BigEndian;
    forall w: u32, v: u32 {
      TwoWords(Drfp.DOPEN + 1, q.seqNo, w, v);
    }
  }

  lemma OthersKeepLive(s: State, q: Drfp.Request, h: Host, fd: u32)
    requires q.code <= 33 && q.code !in {2, 4, 20, 22}
    ensures Handle(s, q, h).0.Live(fd) == s.Live(fd)
  {
    hide OnOpen, OnClose, OnDopen, OnDclose, Result, ReadReply, SeekReply, DreadReply, Target, Mid, Signed;
  }

  lemma OpensAreRouted(s: State, q: Drfp.Request, h: Host)
    ensures q.code == 2 ==> Handle(s, q, h) == OnOpen(s, q, h)
    ensures q.code == 20 ==> Handle(s, q, h) == OnDopen(s, q, h)
  {
    hide OnOpen, OnDopen;
  }

  lemma ShortCloseKeeps(s: State, q: Drfp.Request, h: Host)
    requires (q.code == 4 || q.code == 22) && |q.payload| < 4
    ensures Handle(s, q, h).0 == s
  {
  }

  lemma CloseOfAnother(s: State, q: Drfp.Request, h: Host, fd: u32)
    requires (q.code == 4 || q.code == 22) && |q.payload| >= 4 && U32At(q.payload, 0) != fd
    ensures Handle(s, q, h).0.Live(fd) == s.Live(fd)
  {
    hide Result;
  }

  /** One event: a descriptor is live after it if and only if the reply hands it out, or it was
    * live and neither this reply nor a reset takes it away. */
  lemma LiveStep(s: State, e: Event, fd: u32)
    requires Inv(s)
    ensures Step(s, e).0.Live(fd) <==> OpenedBy(s, e, fd) || (s.Live(fd) && !ClosedBy(s, e, fd))
  {
    if RequestOf(e).Some? {
      hide State.Live, Inv, Handle, OnOpen, OnDopen;
      var q, h := RequestOf(e).value, e.host;
      if q.code == 2 {
        OpensAreRouted(s, q, h);
        OpenTells(s, q, h, fd);
      } else if q.code == 20 {
        OpensAreRouted(s, q, h);
        DopenTells(s, q, h, fd);
      } else if q.code == 4 || q.code == 22 {
        if |q.payload| < 4 {
          ShortCloseKeeps(s, q, h);
        } else if U32At(q.payload, 0) == fd {
          CloseTakesExactly(s, e, fd);
        } else {
          CloseOfAnother(s, q, h, fd);
        }
      } else {
        OthersKeepLive(s, q, h, fd);
      }
    } else {
      hide HostPaths.Chain, HostPaths.Normalise, HostPaths.CleanPath, Authorised, Handle;
      ResetLeavesNothing(s, fd);
    }
  }

  /** Some event of the run handed the descriptor out, and none after it took it away. */
  predicate OpenSince(sfo: seq<byte>, es: seq<Event>, fd: u32, i: nat)
    requires i < |es|
  {
    OpenedBy(Run(Start(sfo), es[..i]), es[i], fd)
    && forall j :: i < j < |es| ==> !ClosedBy(Run(Start(sfo), es[..j]), es[j], fd)
  }

  /** Over every run in which the counter does not wrap, a descriptor is live if and only if
    * some reply handed it out and since then neither a close that was granted nor a reset
    * has taken it away. */
  lemma {:induction false} LiveIffOpenSince(sfo: seq<byte>, es: seq<Event>, fd: u32)
    requires CounterLasts(Start(sfo), es)
    ensures Run(Start(sfo), es).Live(fd) <==> exists i: nat :: i < |es| && OpenSince(sfo, es, fd, i)
    decreases |es|
  {
    hide Step, Inv, CounterLasts, OpenedBy, ClosedBy, State.Live;
    if es == [] {
      NothingLive(sfo, fd);
    } else {
      var n := |es| - 1;
      var s := Run(Start(sfo), es[..n]);
      LastsBefore(sfo, es);
      StartIsSound(sfo);
      DescriptorsStaySound(Start(sfo), es[..n]);
      LiveIffOpenSince(sfo, es[..n], fd);
      LiveStep(s, es[n], fd);
      hide Run;
      forall i: nat | i < n ensures OpenSince(sfo, es, fd, i) <==> OpenSince(sfo, es[..n], fd, i) && !ClosedBy(s, es[n], fd) {
        OneMoreEvent(sfo, es, fd, i);
      }
      assert OpenedBy(s, es[n], fd) ==> OpenSince(sfo, es, fd, n);
    }
  }

  lemma NothingLive(sfo: seq<byte>, fd: u32)
    ensures !Run(Start(sfo), []).Live(fd) && Start(sfo).nextFd == 0x1000
  {
  }

  lemma LastsBefore(sfo: seq<byte>, es: seq<Event>)
    requires es != [] && CounterLasts(Start(sfo), es)
    ensures CounterLasts(Start(sfo), es[..|es| - 1])
  {
    FewerOpens(Start(sfo), es);
  }

  lemma OneMoreEvent(sfo: seq<byte>, es: seq<Event>, fd: u32, i: nat)
    requires i < |es| - 1
    ensures var n := |es| - 1;
            OpenSince(sfo, es, fd, i) <==> OpenSince(sfo, es[..n], fd, i) && !ClosedBy(Run(Start(sfo), es[..n]), es[n], fd)
  {
    hide Run, OpenedBy, ClosedBy;
    var n := |es| - 1;
    forall j | 0 <= j < n ensures es[..n][..j] == es[..j] && es[..n][j] == es[j] {
    }
  }

  // ---------- asking about a descriptor that is not open ----------

  /** The requests that name a descriptor, and the payload each needs. */
  function Needs(code: u32): nat {
    if code == 6 || code == 8 || code == 24 then 8
    else if code == 10 then 16
    else if code == 26 then 12
    else 4
  }

  predicate NamesOne(code: u32) {
    code in {4, 6, 8, 10, 12, 22, 24, 26}
  }

  /** The descriptor is open for this kind of request: directories for DCLOSE and DREAD, a real
    * file for FTRUNCATE, a writable one for WRITE, any file for the rest. */
  predicate OpenFor(s: State, code: u32, fd: u32) {
    if code == 22 || code == 24 then fd in s.dirs
    else if code == 26 then fd in s.files
    else if code == 8 then fd in s.files && s.files[fd].mode.write
    else fd in s.files || fd in s.synths
  }

  /** What one such request of the descriptor it names comes to. */
  predicate Refuses(s: State, q: Drfp.Request, r: (State, seq<byte>)) {
    && |r.1| >= 12
    && (|q.payload| < Needs(q.code) ==> U32At(r.1, 8) == 0x8001_001d && r.0 == s)
    && (|q.payload| >= Needs(q.code) ==>
          var fd := U32At(q.payload, 0);
          (U32At(r.1, 8) == 0x8001_002a <==> !OpenFor(s, q.code, fd)) && (!OpenFor(s, q.code, fd) ==> r.0 == s))
  }

  lemma CloseRefuses(s: State, q: Drfp.Request, h: Host)
    requires q.code == 4 || q.code == 22
    ensures Refuses(s, q, Handle(s, q, h))
  {
    hide Result;
    forall w: u32 {
      ResultWord(q, w);
    }
  }

  lemma ReadRefuses(s: State, q: Drfp.Request, h: Host)
    requires q.code == 6
    ensures Refuses(s, q, Handle(s, q, h))
  {
    hide ReadReply, Mid;
    forall w: u32, data: seq<byte> | |data| < FD_LIMIT ensures |ReadReply(q, w, data)| >= 16 && U32At(ReadReply(q, w, data), 8) == w {
      DataWord(q, w, data);
    }
  }

  lemma DreadRefuses(s: State, q: Drfp.Request, h: Host)
    requires q.code == 24
    ensures Refuses(s, q, Handle(s, q, h))
  {
    hide DreadReply, Drfp.Dirent;
    forall w: u32, entry: seq<byte> | |entry| < FD_LIMIT ensures |DreadReply(q, w, entry)| >= 16 && U32At(DreadReply(q, w, entry), 8) == w {
      EntryWord(q, w, entry);
    }
  }

  /** No descriptor names both a real and a synthetic file. */
  predicate Apart(s: State, q: Drfp.Request) {
    |q.payload| >= 4 && U32At(q.payload, 0) in s.files ==> U32At(q.payload, 0) !in s.synths
  }

  lemma WriteRefuses(s: State, q: Drfp.Request, h: Host)
    requires q.code == 8 && Apart(s, q)
    ensures Refuses(s, q, Handle(s, q, h))
  {
    hide Drfp.Build, BigEndian;
    forall w: u32, n: u32 {
      TwoWords(Drfp.WRITE + 1, q.seqNo, w, n);
    }
  }

  lemma FtruncateRefuses(s: State, q: Drfp.Request, h: Host)
    requires q.code == 26 && Apart(s, q)
    ensures Refuses(s, q, Handle(s, q, h))
  {
    hide Result;
    forall w: u32 {
      ResultWord(q, w);
    }
  }

  lemma SeekRefuses(s: State, q: Drfp.Request, h: Host)
    requires q.code == 10
    ensures Refuses(s, q, Handle(s, q, h))
  {
    hide Result, SeekReply, Target, Signed;
    forall w: u32 {
      ResultWord(q, w);
    }
    forall target: int {
      SeekWord(q, target);
    }
  }

  lemma FstatRefuses(s: State, q: Drfp.Request, h: Host)
    requires q.code == 12
    ensures Refuses(s, q, Handle(s, q, h))
  {
    hide Result, Drfp.Build, Drfp.StatBody;
    forall w: u32 {
      ResultWord(q, w);
    }
    forall w: u32, st: Drfp.Stat {
      StatWord(q, Drfp.FSTAT + 1, w, st);
    }
  }

  lemma RequestRefuses(s: State, q: Drfp.Request, h: Host)
    requires NamesOne(q.code) && Apart(s, q)
    ensures Refuses(s, q, Handle(s, q, h))
  {
    hide Handle, Refuses;
    match q.code
    case 6 => ReadRefuses(s, q, h);
    case 8 => WriteRefuses(s, q, h);
    case 10 => SeekRefuses(s, q, h);
    case 12 => FstatRefuses(s, q, h);
    case 24 => DreadRefuses(s, q, h);
    case 26 => FtruncateRefuses(s, q, h);
    case _ => CloseRefuses(s, q, h);
  }

  /** Such a request is refused with EBADF if and only if its descriptor is not open for it,
    * and then nothing changes; with too short a payload it says EINVAL and nothing changes. */
  lemma RefusedIffNotOpen(s: State, e: Event, code: u32, fd: u32)
    requires Inv(s) && NamesOne(code)
    ensures AsksOf(e, code, Needs(code), fd) ==>
              (Says(s, e, 8, 0x8001_002a) <==> !OpenFor(s, code, fd))
              && (!OpenFor(s, code, fd) ==> Step(s, e).0 == s)
    ensures Asks(e, code, 0) && !Asks(e, code, Needs(code)) ==> Says(s, e, 8, 0x8001_001d) && Step(s, e).0 == s
  {
    if Asks(e, code, 0) {
      var q := RequestOf(e).value;
      assert Apart(s, q);
      hide Handle, Inv, OpenFor;
      RequestRefuses(s, q, e.host);
    }
  }

  // ---------- what a real file was opened for ----------

  /** The words of an OPEN: it asks to write when either of the two low flag bits is set. */
  predicate AsksToWrite(e: Event) {
    Asks(e, 2, 8) && U32At(RequestOf(e).value.payload, 0) % 4 != 0
  }

  lemma WriteBits(flags: u32)
    ensures WantsWrite(flags) <==> flags % 4 != 0
  {
    assert flags == flags / 4 * 4 + flags % 4;
    assert Flag(flags, 1) <==> flags % 2 == 1;
    assert Flag(flags, 2) <==> flags / 2 % 2 == 1;
  }

  /** An OPEN that is granted opens for writing exactly when it asked to. */
  lemma OpenedToWrite(s: State, e: Event, fd: u32)
    requires Inv(s) && Asks(e, 2, 8) && OpenedBy(s, e, fd)
    ensures OpenFor(Step(s, e).0, 8, fd) <==> AsksToWrite(e)
    ensures fd == s.nextFd
  {
    hide PathAt, IsParamSfo, Local, Drfp.Build, BigEndian;
    var q, h := RequestOf(e).value, e.host;
    var flags := U32At(q.payload, 0);
    WriteBits(flags);
    forall w: u32, v: u32 ensures U32At(OpenReply(q, w, v), 8) == w && U32At(OpenReply(q, w, v), 12) == v {
      TwoWords(Drfp.OPEN + 1, q.seqNo, w, v);
    }
    hide OpenReply, Flag;
  }

  /** No event of the run takes the descriptor away. */
  predicate NeverClosed(s: State, es: seq<Event>, fd: u32) {
    forall j :: 0 <= j < |es| ==> !ClosedBy(Run(s, es[..j]), es[j], fd)
  }

  lemma FileStays(s: State, e: Event, fd: u32)
    requires Inv(s) && fd in s.files && !ClosedBy(s, e, fd)
    ensures var t := Step(s, e).0; fd in t.files && t.files[fd] == s.files[fd]
  {
    if RequestOf(e).Some? {
      var q := RequestOf(e).value;
      if AsksOf(e, 4, 4, fd) || AsksOf(e, 22, 4, fd) {
        CloseTakesExactly(s, e, fd);
      } else {
        hide Says;
        FileKept(s, q, e.host, fd);
      }
    }
  }

  lemma FileKept(s: State, q: Drfp.Request, h: Host, fd: u32)
    requires Inv(s) && fd in s.files && q.code <= 33
    requires q.code == 4 || q.code == 22 ==> |q.payload| < 4 || U32At(q.payload, 0) != fd
    ensures var t := Handle(s, q, h).0; fd in t.files && t.files[fd] == s.files[fd]
  {
    assert fd < s.nextFd;
    hide Inv, Local, PathAt, IsParamSfo, Flag, OpenReply, Result, ReadReply, SeekReply, DreadReply, Target, Mid, Signed;
  }

  /** Until it is closed or reset, an open file keeps its path and what it was opened for. */
  lemma {:induction false} FileStaysAsOpened(s: State, es: seq<Event>, fd: u32)
    requires Inv(s) && CounterLasts(s, es) && fd in s.files && NeverClosed(s, es, fd)
    ensures var t := Run(s, es); Inv(t) && fd in t.files && t.files[fd] == s.files[fd]
    decreases |es|
  {
    hide Step, Inv, ClosedBy;
    if es != [] {
      var n := |es| - 1;
      FewerOpens(s, es);
      assert NeverClosed(s, es[..n], fd) by {
        forall j | 0 <= j < n ensures es[..n][..j] == es[..j] {
        }
      }
      FileStaysAsOpened(s, es[..n], fd);
      DescriptorsStaySound(s, es);
      FileStays(Run(s, es[..n]), es[n], fd);
    }
  }

  /** A real file opened by a granted OPEN takes a WRITE, at any later time before it is closed,
    * if and only if that OPEN asked to write; else the WRITE says EBADF. */
  lemma WritableIffOpenedToWrite(s: State, e: Event, es: seq<Event>, w: Event, fd: u32)
    requires Inv(s) && Asks(e, 2, 8) && OpenedBy(s, e, fd) && CounterLasts(s, [e] + es)
    requires fd in Step(s, e).0.files && NeverClosed(Step(s, e).0, es, fd) && AsksOf(w, 8, 8, fd)
    ensures Says(Run(Step(s, e).0, es), w, 8, 0x8001_002a) <==> !AsksToWrite(e)
  {
    hide Step, Inv, OpenedBy, NeverClosed, AsksToWrite, Says, Asks;
    OpenedToWrite(s, e, fd);
    var t := Step(s, e).0;
    FirstThenRest(s, e, es);
    FileStaysAsOpened(t, es, fd);
    RefusedIffNotOpen(Run(t, es), w, 8, fd);
  }

  lemma FirstThenRest(s: State, e: Event, es: seq<Event>)
    requires Inv(s) && CounterLasts(s, [e] + es)
    ensures Inv(Step(s, e).0) && CounterLasts(Step(s, e).0, es)
  {
    hide Step, Inv;
    RunAppends(s, [e], es);
    assert Run(s, [e]) == Step(s, e).0 by {
      assert [e][..0] == [];
    }
    DescriptorsStaySound(s, [e]);
  }

  // ---------- reading a real file ----------

  /** A READ of a real file returns the front of what the host reads there, as much as was
    * asked for and never more than 0x4000 bytes, and says how many. */
  lemma RealRead(s: State, e: Event, fd: u32)
    requires Inv(s) && AsksOf(e, 6, 8, fd) && fd in s.files
    ensures var asked := U32At(RequestOf(e).value.payload, 4);
            var n := Min(|e.host.data|, Min(asked, 0x4000));
            Says(s, e, 8, 0) && Says(s, e, 12, n) && Step(s, e).1.value[16..] == e.host.data[..n] && Step(s, e).0 == s
  {
    hide ReadReply, U32At;
    var q := RequestOf(e).value;
    var data := Drfp.Left(e.host.data, Cap(U32At(q.payload, 4)));
    DataWord(q, 0, data);
    DataSize(q, data);
  }

  lemma DataSize(q: Drfp.Request, data: seq<byte>)
    requires |data| < FD_LIMIT
    ensures var b := ReadReply(q, 0, data); |b| >= 16 && U32At(b, 12) == |data|
  {
    var b := ReadReply(q, 0, data);
    assert b[12..16] == BigEndian(4, |data|);
    ReadU32(b, 12, |data|);
  }

  // ---------- when a request for a path is granted ----------

  predicate Bit(flags: u32, value: nat)
    requires value > 0
  {
    flags / value % 2 == 1
  }

  /** What must be so on the disk: nothing is overwritten, only empty directories are removed,
    * no directory is unlinked or truncated, and what is worked on is there. */
  predicate Sparing(q: Drfp.Request, h: Host) {
    if q.code == 2 then
      |q.payload| >= 8
      && var flags := U32At(q.payload, 0);
         if h.present then !(Bit(flags, 0x40) && Bit(flags, 0x80)) else Bit(flags, 0x40)
    else if q.code == 16 then !h.present
    else if q.code == 18 then h.present && h.isDir && h.isEmptyDir
    else if q.code == 20 then h.present && h.isDir
    else if q.code == 30 then h.present && !h.targetExists
    else h.present && !h.isDir
  }

  /** The host does its part. */
  predicate Willing(code: u32, h: Host) {
    if code == 2 then h.opens else if code == 20 then true else (code == 28 ==> h.opens) && h.succeeds
  }

  /** A request for a path, other than an OPEN to read the made-up PARAM.SFO. */
  predicate ForAPath(q: Drfp.Request) {
    q.code in {2, 16, 18, 20, 28, 30, 32}
    && (q.code == 2 && |q.payload| >= 8 && U32At(q.payload, 0) % 4 == 0 ==> !IsParamSfo(PathAt(q.payload, 8)))
  }

  /** Such a request is granted if and only if its paths resolve, the disk is as it must be and
    * the host does its part; a refusal changes nothing. */
  lemma GrantedIff(s: State, e: Event)
    requires RequestOf(e).Some? && ForAPath(RequestOf(e).value)
    ensures var q := RequestOf(e).value;
            (Says(s, e, 8, 0) <==> PathsOf(s, q) != [] && Sparing(q, e.host) && Willing(q.code, e.host))
            && (!Says(s, e, 8, 0) ==> Step(s, e).0 == s)
  {
    hide Handle, Sparing, Willing, PathsOf, ForAPath;
    RequestGrantedIff(s, RequestOf(e).value, e.host);
  }

  predicate Granted(s: State, q: Drfp.Request, h: Host, r: (State, seq<byte>)) {
    && |r.1| >= 12
    && (U32At(r.1, 8) == 0 <==> PathsOf(s, q) != [] && Sparing(q, h) && Willing(q.code, h))
    && (U32At(r.1, 8) != 0 ==> r.0 == s)
  }

  lemma RequestGrantedIff(s: State, q: Drfp.Request, h: Host)
    requires ForAPath(q)
    ensures Granted(s, q, h, Handle(s, q, h))
  {
    hide PathAt, IsParamSfo, Local, Drfp.Build, BigEndian, Result;
    if q.code == 2 {
      OpenGranted(s, q, h);
    } else if q.code == 20 {
      DopenGranted(s, q, h);
    } else {
      OthersGranted(s, q, h);
    }
  }

  lemma OpenGranted(s: State, q: Drfp.Request, h: Host)
    requires ForAPath(q) && q.code == 2
    ensures Granted(s, q, h, Handle(s, q, h))
  {
    hide PathAt, IsParamSfo, Local;
    if |q.payload| >= 8 {
      WriteBits(U32At(q.payload, 0));
    }
    forall w: u32, v: u32 ensures |OpenReply(q, w, v)| == 16 && U32At(OpenReply(q, w, v), 8) == w {
      TwoWords(Drfp.OPEN + 1, q.seqNo, w, v);
    }
    hide OpenReply, WantsWrite, ModeOf;
  }

  lemma DopenGranted(s: State, q: Drfp.Request, h: Host)
    requires q.code == 20
    ensures Granted(s, q, h, Handle(s, q, h))
  {
    hide PathAt, IsParamSfo, Local, Drfp.Build, BigEndian;
    forall w: u32, v: u32 {
      TwoWords(Drfp.DOPEN + 1, q.seqNo, w, v);
    }
  }

  lemma OthersGranted(s: State, q: Drfp.Request, h: Host)
    requires q.code in {16, 18, 28, 30, 32}
    ensures Granted(s, q, h, Handle(s, q, h))
  {
    hide PathAt, IsParamSfo, Local, Result;
    forall w: u32 {
      ResultWord(q, w);
    }
  }

  /** What a refused request for a path is told. */
  function Reason(s: State, q: Drfp.Request, h: Host): u32 {
    if q.code in {2, 16, 28} && |q.payload| < 8 then 0x8001_001d
    else if PathsOf(s, q) == [] then 0x8001_0006
    else if q.code == 2 then
      var flags := U32At(q.payload, 0);
      if !h.present && !Bit(flags, 0x40) then 0x8001_0006
      else if h.present && Bit(flags, 0x40) && Bit(flags, 0x80) then 0x8001_0014
      else if flags % 4 != 0 then 0x8001_002b
      else 0x8001_0006
    else if q.code == 16 then if h.present then 0x8001_0014 else 0x8001_002b
    else if !h.present then 0x8001_0006
    else if q.code == 18 then if !h.isDir then 0x8001_002e else if !h.isEmptyDir then 0x8001_0036 else 0x8001_002b
    else if q.code == 20 then 0x8001_002e
    else if q.code == 30 then if h.targetExists then 0x8001_0014 else 0x8001_002b
    else if h.isDir then 0x8001_0012
    else 0x8001_002b
  }

  /** Each refusal has its own reason, and the reason is what is said. */
  lemma RefusalSaysWhy(s: State, e: Event)
    requires RequestOf(e).Some? && ForAPath(RequestOf(e).value)
    ensures Says(s, e, 8, 0) || Says(s, e, 8, Reason(s, RequestOf(e).value, e.host))
  {
    hide Handle, Reason, ForAPath;
    var q := RequestOf(e).value;
    if q.code == 2 {
      OpenReason(s, q, e.host);
    } else {
      PathReason(s, q, e.host);
    }
  }

  predicate Reasoned(s: State, q: Drfp.Request, h: Host, reply: seq<byte>) {
    |reply| >= 12 && (U32At(reply, 8) == 0 || U32At(reply, 8) == Reason(s, q, h))
  }

  lemma OpenReason(s: State, q: Drfp.Request, h: Host)
    requires ForAPath(q) && q.code == 2
    ensures Reasoned(s, q, h, Handle(s, q, h).1)
  {
    hide PathAt, IsParamSfo, Local;
    if |q.payload| >= 8 {
      WriteBits(U32At(q.payload, 0));
    }
    forall w: u32, v: u32 ensures |OpenReply(q, w, v)| == 16 && U32At(OpenReply(q, w, v), 8) == w {
      TwoWords(Drfp.OPEN + 1, q.seqNo, w, v);
    }
    hide OpenReply, WantsWrite, ModeOf;
  }

  lemma PathReason(s: State, q: Drfp.Request, h: Host)
    requires ForAPath(q) && q.code != 2
    ensures Reasoned(s, q, h, Handle(s, q, h).1)
  {
    hide PathAt, IsParamSfo, Local, Result, Drfp.Build, BigEndian;
    forall w: u32 {
      ResultWord(q, w);
    }
    forall w: u32, v: u32 {
      TwoWords(Drfp.DOPEN + 1, q.seqNo, w, v);
    }
  }

  /** What a granted DOPEN opens: the host's listing of that directory, from its start. */
  lemma OpenedDirectory(s: State, e: Event, fd: u32)
    requires Asks(e, 20, 0) && OpenedBy(s, e, fd)
    ensures var t := Step(s, e).0;
            fd in t.dirs && t.dirs[fd] == DirCursor(e.host.entries, Local(s, RequestOf(e).value, 0), 0)
  {
    hide PathAt, Local, Drfp.Build, BigEndian;
    forall w: u32, v: u32 {
      TwoWords(Drfp.DOPEN + 1, RequestOf(e).value.seqNo, w, v);
    }
  }

  /** What a granted OPEN opens: the made-up file from its start, when that is asked for and not to
    * write; else the file the path resolves to, for what the flags say. */
  lemma OpenedFile(s: State, e: Event, fd: u32)
    requires Inv(s) && Asks(e, 2, 8) && OpenedBy(s, e, fd)
    ensures var t := Step(s, e).0; var q := RequestOf(e).value;
            var flags := U32At(q.payload, 0);
            if IsParamSfo(PathAt(q.payload, 8)) && flags % 4 == 0
            then fd in t.synths && t.synths[fd] == Synth(s.sfo, 0)
            else fd in t.files && t.files[fd].path == Local(s, q, 8)
                 && t.files[fd].mode == OpenMode(Bit(flags, 2) || !Bit(flags, 1), flags % 4 != 0,
                                                 flags % 4 != 0 && Bit(flags, 0x200), flags % 4 != 0 && Bit(flags, 0x400))
  {
    hide PathAt, IsParamSfo, Local, Drfp.Build, BigEndian;
    var q := RequestOf(e).value;
    WriteBits(U32At(q.payload, 0));
    forall w: u32, v: u32 ensures U32At(OpenReply(q, w, v), 8) == w && U32At(OpenReply(q, w, v), 12) == v {
      TwoWords(Drfp.OPEN + 1, q.seqNo, w, v);
    }
    hide OpenReply, Inv;
  }

  /** FTRUNCATE of an open file says OK or EIO as the host did it or not. */
  lemma FtruncateTells(s: State, e: Event, fd: u32)
    requires Inv(s) && AsksOf(e, 26, 12, fd) && fd in s.files
    ensures Step(s, e).0 == s && Says(s, e, 8, if e.host.succeeds then 0 else 0x8001_002b)
  {
    hide Result;
    forall w: u32 {
      ResultWord(RequestOf(e).value, w);
    }
  }

  /** A code that is no request is answered with ENOENT and changes nothing. */
  lemma RepliesAreNoRequests(s: State, e: Event)
    requires RequestOf(e).Some? && RequestOf(e).value.code % 2 == 1
    ensures Step(s, e).0 == s && Says(s, e, 8, 0x8001_0006)
  {
    var q := RequestOf(e).value;
    NoHandler(s, q, e.host);
    hide Handle, Result;
    ResultWord(q, 0x8001_0006);
  }

  lemma NoHandler(s: State, q: Drfp.Request, h: Host)
    requires q.code <= 33 && q.code % 2 == 1
    ensures Handle(s, q, h) == (s, Result(q, 0x8001_0006))
  {
    hide OnInit, OnStat, OnOpen, OnClose, OnRead, OnWrite, OnMkdir, OnRmdir, OnDopen, OnDclose, OnDread, OnFtruncate,
      OnTruncate, OnRename, OnUnlink, OnFstat, OnSeek, Result;
  }

  /** Behind the result of a refused request: no descriptor, no bytes written, no data. */
  lemma RefusalTails(s: State, e: Event)
    requires (Asks(e, 2, 0) || Asks(e, 6, 0) || Asks(e, 8, 0) || Asks(e, 20, 0) || Asks(e, 24, 0)) && !Says(s, e, 8, 0)
    ensures |Step(s, e).1.value| == 16 && Says(s, e, 12, if Asks(e, 20, 0) then 0xffff_ffff else 0)
  {
    hide Handle;
    TailOf(s, RequestOf(e).value, e.host);
  }

  lemma TailOf(s: State, q: Drfp.Request, h: Host)
    requires q.code in {2, 6, 8, 20, 24}
    ensures var b := Handle(s, q, h).1;
            |b| >= 16 && (U32At(b, 8) != 0 ==> |b| == 16 && U32At(b, 12) == if q.code == 20 then 0xffff_ffff else 0)
  {
    hide PathAt, IsParamSfo, Local, Drfp.Build, BigEndian, Flag, Mid, Drfp.Dirent, ReadReply, DreadReply, OpenReply;
    if q.code == 2 {
      forall w: u32, v: u32 ensures |OpenReply(q, w, v)| == 16 && U32At(OpenReply(q, w, v), 8) == w && U32At(OpenReply(q, w, v), 12) == v {
        OpenWords(q, w, v);
      }
    } else if q.code == 6 {
      forall w: u32, data: seq<byte> | |data| < FD_LIMIT ensures |ReadReply(q, w, data)| == 16 + |data|
        && U32At(ReadReply(q, w, data), 8) == w && U32At(ReadReply(q, w, data), 12) == |data| {
        DataWords(q, w, data);
      }
    } else if q.code == 24 {
      forall w: u32, entry: seq<byte> | |entry| < FD_LIMIT ensures |DreadReply(q, w, entry)| >= 16
        && U32At(DreadReply(q, w, entry), 8) == w
        && (w != 0 ==> |DreadReply(q, w, entry)| == 16 && U32At(DreadReply(q, w, entry), 12) == 0) {
        EntryWords(q, w, entry);
      }
    } else {
      forall w: u32, n: u32 {
        TwoWords(q.code + 1, q.seqNo, w, n);
      }
    }
  }

  lemma OpenWords(q: Drfp.Request, w: u32, v: u32)
    ensures var b := OpenReply(q, w, v); |b| == 16 && U32At(b, 8) == w && U32At(b, 12) == v
  {
    TwoWords(Drfp.OPEN + 1, q.seqNo, w, v);
  }

  lemma DataWords(q: Drfp.Request, w: u32, data: seq<byte>)
    requires |data| < FD_LIMIT
    ensures var b := ReadReply(q, w, data); |b| == 16 + |data| && U32At(b, 8) == w && U32At(b, 12) == |data|
  {
    var b := ReadReply(q, w, data);
    ReadReplyData(q, w, data);
    assert b[8..12] == BigEndian(4, w) && b[12..16] == BigEndian(4, |data|);
    ReadU32(b, 8, w);
    ReadU32(b, 12, |data|);
  }

  lemma EntryWords(q: Drfp.Request, w: u32, entry: seq<byte>)
    requires |entry| < FD_LIMIT
    ensures var b := DreadReply(q, w, entry);
            |b| >= 16 && U32At(b, 8) == w && (w != 0 ==> |b| == 16 && U32At(b, 12) == 0)
  {
    if w != 0 {
      TwoWords(Drfp.DREAD + 1, q.seqNo, w, 0);
    } else {
      EntryWord(q, w, entry);
    }
  }

  /** The kind byte of a listed entry: one for a directory, two for anything else. */
  lemma EntryKind(s: State, e: Event, fd: u32)
    requires AsksOf(e, 24, 8, fd) && U32At(RequestOf(e).value.payload, 4) >= 258
    requires fd in s.dirs && s.dirs[fd].pos < |s.dirs[fd].entries|
    ensures |Step(s, e).1.value| == 274 && Step(s, e).1.value[16] == if e.host.isDir then 1 else 2
  {
    hide DreadReply, U32At, Drfp.Dirent;
    var q, d := RequestOf(e).value, s.dirs[fd];
    var kind := if e.host.isDir then 1 else 2;
    var entry := Drfp.Dirent(kind, d.entries[d.pos]);
    DreadReplyData(q, entry);
    KindFirst(kind, d.entries[d.pos]);
    assert DreadReply(q, OK, entry)[16..][0] == entry[0];
  }

  lemma KindFirst(kind: byte, name: seq<byte>)
    ensures Drfp.Dirent(kind, name)[0] == kind
  {
  }

  // ---------- the made-up PARAM.SFO ----------

  /** The last nine characters, whatever their case, are those of PARAM.SFO, and what is before
    * them is nothing or ends in a slash of either kind. */
  predicate NamesSfo(path: string) {
    && |path| >= 9 && Lower(path[|path| - 9..]) == "param.sfo"
    && (|path| > 9 ==> path[|path| - 10] == '/' || path[|path| - 10] == '\\')
  }

  /** A file is made up exactly when its last component is PARAM.SFO, whatever the case. */
  lemma SfoByName(path: string)
    ensures IsParamSfo(path) <==> NamesSfo(path)
  {
    hide EndsWith, Lower;
    SfoSpelling(path);
    if |path| >= 10 {
      Endings(path);
    } else {
      TooShortToEnd(path);
    }
  }

  lemma SfoSpelling(path: string)
    ensures Lower(path) == Lower("PARAM.SFO") <==> |path| == 9 && Lower(path[|path| - 9..]) == "param.sfo"
  {
    assert Lower("PARAM.SFO") == "param.sfo";
    if |path| == 9 {
      assert path[0..] == path;
    } else {
      assert |Lower(path)| != |"param.sfo"|;
    }
  }

  lemma Endings(path: string)
    requires |path| >= 10
    ensures var name := Lower(path[|path| - 9..]) == "param.sfo";
            && (EndsWith(path, "/PARAM.SFO") <==> path[|path| - 10] == '/' && name)
            && (EndsWith(path, "\\PARAM.SFO") <==> path[|path| - 10] == '\\' && name)
    ensures EndsWith(path, "PS3_GAME/PARAM.SFO") ==> EndsWith(path, "/PARAM.SFO")
    ensures EndsWith(path, "PS3_GAME\\PARAM.SFO") ==> EndsWith(path, "\\PARAM.SFO")
  {
    hide EndsWith, Lower;
    LastTen(path, '/');
    LastTen(path, '\\');
    LongerEnding(path, '/');
    LongerEnding(path, '\\');
    assert ['/'] + "PARAM.SFO" == "/PARAM.SFO" && ['\\'] + "PARAM.SFO" == "\\PARAM.SFO";
    assert "PS3_GAME" + "/PARAM.SFO" == "PS3_GAME/PARAM.SFO" && "PS3_GAME" + "\\PARAM.SFO" == "PS3_GAME\\PARAM.SFO";
  }

  lemma TooShortToEnd(path: string)
    requires |path| < 10
    ensures !EndsWith(path, "PS3_GAME/PARAM.SFO") && !EndsWith(path, "PS3_GAME\\PARAM.SFO")
    ensures !EndsWith(path, "/PARAM.SFO") && !EndsWith(path, "\\PARAM.SFO")
  {
  }

  lemma LastTen(path: string, slash: char)
    requires |path| >= 10 && (slash == '/' || slash == '\\')
    ensures EndsWith(path, [slash] + "PARAM.SFO") <==>
              path[|path| - 10] == slash && Lower(path[|path| - 9..]) == "param.sfo"
  {
    var end := path[|path| - 10..];
    assert Lower(end) == Lower([end[0]]) + Lower(path[|path| - 9..]);
    assert Lower([slash] + "PARAM.SFO") == [slash] + "param.sfo";
    assert Lower(end)[0] == slash <==> end[0] == slash;
    assert Lower(end)[1..] == Lower(path[|path| - 9..]);
  }

  lemma LongerEnding(path: string, slash: char)
    ensures EndsWith(path, "PS3_GAME" + ([slash] + "PARAM.SFO")) ==> EndsWith(path, [slash] + "PARAM.SFO")
  {
    var long, short := "PS3_GAME" + ([slash] + "PARAM.SFO"), [slash] + "PARAM.SFO";
    if |path| >= |long| {
      assert Lower(path[|path| - |long|..])[8..] == Lower(path[|path| - |short|..]);
      assert Lower(long)[8..] == Lower(short);
    }
  }

  // ---------- what is said about files ----------

  /** The stat fields of a reply are these. */
  predicate Describes(s: State, e: Event, st: Drfp.Stat) {
    var r := Step(s, e).1;
    r.Some? && |r.value| == 56 && Says(s, e, 8, 0) && Says(s, e, 12, st.mode) && Says(s, e, 52, st.size)
    && U64At(r.value, 24) == st.mtime && U64At(r.value, 32) == st.atime && U64At(r.value, 40) == st.ctime
  }

  lemma StatFields(code: u32, seqNo: u32, st: Drfp.Stat)
    ensures var b := Drfp.Build(code, seqNo, Drfp.StatBody(0, st));
            |b| == 56 && U32At(b, 8) == 0 && U32At(b, 12) == st.mode && U32At(b, 52) == st.size
            && U64At(b, 24) == st.mtime && U64At(b, 32) == st.atime && U64At(b, 40) == st.ctime
  {
    var body := Drfp.StatBody(0, st);
    StatLayout(0, st);
    hide Drfp.StatBody, BigEndian;
    var head := BigEndian(4, code) + BigEndian(4, seqNo);
    assert |head| == 8;
    BehindWord(head, body, 0);
    BehindWord(head, body, 4);
    BehindWord(head, body, 44);
    BehindLong(head, body, 16);
    BehindLong(head, body, 24);
    BehindLong(head, body, 32);
  }

  lemma BehindWord(head: seq<byte>, body: seq<byte>, off: nat)
    requires off + 4 <= |body|
    ensures U32At(head + body, |head| + off) == U32At(body, off)
  {
  }

  lemma BehindLong(head: seq<byte>, body: seq<byte>, off: nat)
    requires off + 8 <= |body|
    ensures U64At(head + body, |head| + off) == U64At(body, off)
  {
  }

  /** What the host says of a file is passed on; a made-up file is a readable regular file of its
    * content's size, dated now. A path that does not resolve or is not there is ENOENT. */
  lemma StatTells(s: State, e: Event)
    requires Asks(e, 14, 0)
    ensures var path := PathAt(RequestOf(e).value.payload, 0); var h := e.host;
            if IsParamSfo(path) then Describes(s, e, Drfp.Stat(0x8180, h.now, h.now, h.now, |s.sfo| % 0x1_0000_0000))
            else if h.present && Local(s, RequestOf(e).value, 0) != "" then Describes(s, e, h.stat)
            else Says(s, e, 8, 0x8001_0006)
  {
    hide PathAt, Local, IsParamSfo, Drfp.Build, Drfp.StatBody, Result, U64At, U32At;
    var q := RequestOf(e).value;
    StatFields(Drfp.STAT + 1, q.seqNo, e.host.stat);
    StatFields(Drfp.STAT + 1, q.seqNo, SynthStat(s, e.host));
    ResultWord(q, 0x8001_0006);
  }

  /** The same for an open descriptor. */
  lemma FstatTells(s: State, e: Event, fd: u32)
    requires Inv(s) && AsksOf(e, 12, 4, fd)
    ensures var h := e.host;
            (fd in s.synths ==>
               Describes(s, e, Drfp.Stat(0x8180, h.now, h.now, h.now, |s.synths[fd].content| % 0x1_0000_0000)))
            && (fd in s.files ==> Describes(s, e, h.stat))
  {
    hide Drfp.Build, Drfp.StatBody, Result, U64At, U32At;
    var q := RequestOf(e).value;
    StatFields(Drfp.FSTAT + 1, q.seqNo, e.host.stat);
    if fd in s.synths {
      StatFields(Drfp.FSTAT + 1, q.seqNo, SynthStat(s, e.host).(size := Low32(|s.synths[fd].content|)));
    }
  }

  /** A WRITE that is taken says how much the host wrote, and one the host refused says EIO. */
  lemma WriteTells(s: State, e: Event, fd: u32)
    requires Inv(s) && AsksOf(e, 8, 8, fd) && OpenFor(s, 8, fd)
    ensures Step(s, e).0 == s
    ensures if e.host.written < 0 then Says(s, e, 8, 0x8001_002b) && Says(s, e, 12, 0)
            else Says(s, e, 8, 0) && Says(s, e, 12, e.host.written % 0x1_0000_0000)
  {
    hide Drfp.Build, BigEndian, U32At;
    var q := RequestOf(e).value;
    forall w: u32, n: u32 {
      TwoWords(Drfp.WRITE + 1, q.seqNo, w, n);
    }
  }

  /** A seek of a real file goes where its base and offset say, or says EINVAL. */
  lemma RealSeek(s: State, e: Event, fd: u32)
    requires Inv(s) && AsksOf(e, 10, 16, fd) && fd in s.files
    ensures var p := RequestOf(e).value.payload; var h := e.host;
            var raw, base := U64At(p, 4) as int, U32At(p, 12);
            var off := if raw < 0x8000_0000_0000_0000 then raw else raw - 0x1_0000_0000_0000_0000;
            var target := off + if base == 1 then h.filePos else if base == 2 then h.fileSize else 0;
            Step(s, e).0 == s
            && (if base <= 2 && h.succeeds
                then Says(s, e, 8, 0) && Says(s, e, 12, target % 0x1_0000_0000)
                     && Says(s, e, 16, target / 0x1_0000_0000 % 0x1_0000_0000)
                else Says(s, e, 8, 0x8001_001d))
  {
    hide SeekReply, Result, U32At, U64At;
    var q := RequestOf(e).value;
    ResultWord(q, 0x8001_001d);
    forall target: int {
      SeekWords(q, target);
    }
  }

  lemma SeekWords(q: Drfp.Request, target: int)
    ensures var b := SeekReply(q, target);
            |b| == 20 && U32At(b, 8) == 0 && U32At(b, 12) as int == target % 0x1_0000_0000
            && U32At(b, 16) as int == target / 0x1_0000_0000 % 0x1_0000_0000
  {
    hide BigEndian;
    var b := SeekReply(q, target);
    assert b[8..12] == BigEndian(4, 0) && b[12..16] == BigEndian(4, Low32(target)) && b[16..20] == BigEndian(4, High32(target));
    ReadU32(b, 8, 0);
    ReadU32(b, 12, Low32(target));
    ReadU32(b, 16, High32(target));
  }

  /** The first request of a connection is answered with OK and version 15. */
  lemma InitTells(s: State, e: Event)
    requires Asks(e, 0, 0)
    ensures Says(s, e, 8, 0) && Says(s, e, 12, 15) && Step(s, e).0 == s
  {
    hide Drfp.Build, BigEndian, U32At;
    TwoWords(Drfp.INIT + 1, RequestOf(e).value.seqNo, 0, 15);
  }
}
