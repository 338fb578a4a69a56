/** Completion of the kernel explorer's fan-outs, for every order of replies.
  *
  * A category is followed through a run by its outstanding requests, its accumulator and
  * its own signals. Events that answer none of its requests leave all three alone; the
  * others are folded in arrival order.
  */
module KernelExplorerLaws {
  import opened BeIo
  import opened Wrappers
  import DbgpCodec
  import Deci3Codec
  import opened KernelExplorer
  import Sessions = SessionController

  const LIMIT: nat := 0x1_0000_0000

  /** The outstanding requests of a category. */
  function Mine(s: State, c: Category): map<u32, Pending> {
    map q | q in s.pending && Owned(s.pending[q].cmd, c) :: s.pending[q]
  }

  function SignalsOf(c: Category, gs: seq<Signal>): seq<Signal> {
    if gs == [] then []
    else
      var front := SignalsOf(c, gs[..|gs| - 1]);
      if About(gs[|gs| - 1], c) then front + [gs[|gs| - 1]] else front
  }

  lemma {:induction false} SignalsOfSum(c: Category, xs: seq<Signal>, ys: seq<Signal>)
    ensures SignalsOf(c, xs + ys) == SignalsOf(c, xs) + SignalsOf(c, ys)
  {
    if ys == [] {
      assert xs + ys == xs;
    } else {
      var front := ys[..|ys| - 1];
      assert (xs + ys)[..|xs + ys| - 1] == xs + front;
      SignalsOfSum(c, xs, front);
    }
  }

  /** The counter is beyond every outstanding request of the category. */
  predicate Older(s: State, c: Category) {
    forall q: u32 :: q in Mine(s, c) ==> q < s.seqNo
  }

  /** What the category sees of the state. */
  predicate SameFor(c: Category, s: State, t: State) {
    Mine(t, c) == Mine(s, c) && t.accums.Of(c) == s.accums.Of(c)
    && SignalsOf(c, t.signals) == SignalsOf(c, s.signals)
  }

  // ---------- requests ----------

  lemma SendElsewhere(s: State, cmd: Command, pid: u32, h: u32, lost: set<u32>, c: Category)
    requires !Owned(cmd, c) && Older(s, c) && s.seqNo + 1 < LIMIT
    ensures var t := Send(s, cmd, pid, h, lost);
            SameFor(c, s, t) && Older(t, c) && t.seqNo == s.seqNo + 1
  {
    hide Suits, SignalsOf;
    var t := Send(s, cmd, pid, h, lost);
    assert s.seqNo !in Mine(s, c);
    assert Mine(t, c) == Mine(s, c);
  }

  lemma SendMine(s: State, cmd: Command, pid: u32, h: u32, lost: set<u32>, c: Category)
    requires Owned(cmd, c) && Older(s, c) && s.seqNo + 1 < LIMIT
    ensures var t := Send(s, cmd, pid, h, lost);
            Mine(t, c) == (if s.seqNo in lost then Mine(s, c) else Mine(s, c)[s.seqNo := Pending(cmd, pid, h)])
            && Older(t, c) && t.seqNo == s.seqNo + 1 && t.accums == s.accums && t.signals == s.signals
  {
    hide Suits, SignalsOf;
    var t := Send(s, cmd, pid, h, lost);
    assert s.seqNo !in Mine(s, c);
  }

  function Stride(c: Category): nat {
    if c == Process then 2 else 1
  }

  lemma AskOneElsewhere(s: State, d: Category, pid: u32, h: u32, lost: set<u32>, c: Category)
    requires d != c && Older(s, c) && s.seqNo + Stride(d) < LIMIT
    ensures var t := AskOne(s, d, pid, h, lost);
            SameFor(c, s, t) && Older(t, c) && t.seqNo == s.seqNo + Stride(d)
  {
    hide Send, SignalsOf, Mine, Older, Suits;
    if d == Process {
      SendElsewhere(s, Info(Process), h, 0, lost, c);
      SendElsewhere(Send(s, Info(Process), h, 0, lost), Memory, h, 0, lost, c);
    } else {
      SendElsewhere(s, Info(d), pid, h, lost, c);
    }
  }

  lemma {:induction false} AskElsewhere(s: State, d: Category, pid: u32, hs: seq<u32>, lost: set<u32>, c: Category)
    requires d != c && Older(s, c) && s.seqNo + Stride(d) * |hs| < LIMIT
    ensures var t := Ask(s, d, pid, hs, lost);
            SameFor(c, s, t) && Older(t, c) && t.seqNo == s.seqNo + Stride(d) * |hs|
  {
    hide AskOne, SignalsOf, Mine, Older, Suits;
    if hs != [] {
      var n := |hs| - 1;
      AskElsewhere(s, d, pid, hs[..n], lost, c);
      AskOneElsewhere(Ask(s, d, pid, hs[..n], lost), d, pid, hs[n], lost, c);
    }
  }

  /** The outstanding request that a send of number `q` leaves behind. */
  function Question(cmd: Command, pid: u32, h: u32, q: u32, lost: set<u32>): map<u32, Pending> {
    if q in lost then map[] else map[q := Pending(cmd, pid, h)]
  }

  function QuestionsFor(c: Category, pid: u32, h: u32, q: u32, lost: set<u32>): map<u32, Pending>
    requires q + Stride(c) <= LIMIT
  {
    if c == Process then Question(Info(Process), h, 0, q, lost) + Question(Memory, h, 0, q + 1, lost)
    else Question(Info(c), pid, h, q, lost)
  }

  /** What a fan-out over `hs` leaves outstanding, its first number being `q`. */
  function Questions(c: Category, pid: u32, hs: seq<u32>, q: u32, lost: set<u32>): map<u32, Pending>
    requires q + Stride(c) * |hs| <= LIMIT
  {
    if hs == [] then map[]
    else
      var n := |hs| - 1;
      Questions(c, pid, hs[..n], q, lost) + QuestionsFor(c, pid, hs[n], q + Stride(c) * n, lost)
  }

  lemma AskOneMine(s: State, c: Category, pid: u32, h: u32, lost: set<u32>)
    requires Older(s, c) && s.seqNo + Stride(c) < LIMIT
    ensures var t := AskOne(s, c, pid, h, lost);
            Mine(t, c) == Mine(s, c) + QuestionsFor(c, pid, h, s.seqNo, lost) && Older(t, c)
            && t.seqNo == s.seqNo + Stride(c) && t.accums == s.accums && t.signals == s.signals
  {
    hide Send, Mine, Older, Suits;
    if c == Process {
      var m := Send(s, Info(Process), h, 0, lost);
      SendMine(s, Info(Process), h, 0, lost, c);
      SendMine(m, Memory, h, 0, lost, c);
    } else {
      SendMine(s, Info(c), pid, h, lost, c);
    }
  }

  /** A fan-out leaves exactly its delivered questions outstanding. */
  lemma {:induction false} AskMine(s: State, c: Category, pid: u32, hs: seq<u32>, lost: set<u32>)
    requires Mine(s, c) == map[] && s.seqNo + Stride(c) * |hs| < LIMIT
    ensures var t := Ask(s, c, pid, hs, lost);
            Mine(t, c) == Questions(c, pid, hs, s.seqNo, lost) && Older(t, c)
            && t.seqNo == s.seqNo + Stride(c) * |hs| && t.accums == s.accums && t.signals == s.signals
  {
    hide AskOne, Mine, Suits, QuestionsFor;
    if hs != [] {
      var n := |hs| - 1;
      AskMine(s, c, pid, hs[..n], lost);
      AskOneMine(Ask(s, c, pid, hs[..n], lost), c, pid, hs[n], lost);
    }
  }

  // ---------- one event ----------

  function Cost(e: Event): nat {
    match e
    case Received(f, _) => |f.payload|
    case Elsewhere(n) => n
    case _ => 1
  }

  function CostAll(es: seq<Event>): nat {
    if es == [] then 0 else CostAll(es[..|es| - 1]) + Cost(es[|es| - 1])
  }

  /** No new refresh of the category, and no new epoch. */
  predicate Quiet(e: Event, c: Category) {
    !(e.Refresh? && e.c == c) && !e.Restarted?
  }

  predicate AllQuiet(es: seq<Event>, c: Category) {
    forall i :: 0 <= i < |es| ==> Quiet(es[i], c)
  }

  /** The event answers one of the given requests. */
  predicate Hits(e: Event, open: map<u32, Pending>) {
    e.Received? && Accepted(e.frame) && Answer(e.frame).reqId in open
  }

  lemma HandlesAreFew(c: Category, payload: seq<byte>)
    ensures Handles(c, payload).Some? ==> Stride(c) * |Handles(c, payload).value| <= |payload|
  {
  }

  lemma AnswerIsShorter(f: Deci3Codec.Frame)
    requires Accepted(f)
    ensures |Answer(f).payload| <= |f.payload|
  {
  }

  lemma RetireElsewhere(s: State, q: u32, c: Category)
    requires q in s.pending && q !in Mine(s, c) && Older(s, c)
    ensures var t := s.(pending := s.pending - {q});
            SameFor(c, s, t) && Older(t, c)
  {
    assert Mine(s.(pending := s.pending - {q}), c) == Mine(s, c);
  }

  lemma ListReplyElsewhere(s: State, d: Category, pid: u32, payload: seq<byte>, lost: set<u32>, c: Category)
    requires d != c && Older(s, c) && s.seqNo + |payload| < LIMIT
    ensures var t := ListReply(s, d, pid, payload, lost);
            SameFor(c, s, t) && Older(t, c) && s.seqNo <= t.seqNo <= s.seqNo + |payload|
  {
    hide Ask, Listed, Handles, SignalsOf;
    HandlesAreFew(d, payload);
    SignalsOfSum(c, s.signals, EmptyList(d, pid));
    assert SignalsOf(c, EmptyList(d, pid)) == [] by {
      NotAbout(c, EmptyList(d, pid));
    }
    var listed := Handles(d, payload);
    if listed.Some? {
      var hs := listed.value;
      var t := s.(accums := s.accums.With(d, Listed(d, s.accums.Of(d), pid, hs)));
      assert Mine(t, c) == Mine(s, c);
      if hs != [] {
        AskElsewhere(t, d, pid, hs, lost, c);
      }
    }
  }

  lemma {:induction false} NotAbout(c: Category, gs: seq<Signal>)
    requires forall i :: 0 <= i < |gs| ==> !About(gs[i], c)
    ensures SignalsOf(c, gs) == []
  {
    if gs != [] {
      NotAbout(c, gs[..|gs| - 1]);
    }
  }

  lemma {:induction false} AllAbout(c: Category, gs: seq<Signal>)
    requires forall i :: 0 <= i < |gs| ==> About(gs[i], c)
    ensures SignalsOf(c, gs) == gs
  {
    if gs != [] {
      AllAbout(c, gs[..|gs| - 1]);
    }
  }

  lemma PartElsewhere(s: State, d: Category, p: Pending, payload: seq<byte>, c: Category)
    requires d != c && Owned(p.cmd, d) && !p.cmd.List? && Older(s, c)
    ensures var t := Part(s, d, p, payload);
            SameFor(c, s, t) && Older(t, c) && t.seqNo == s.seqNo
  {
    hide Absorb, SignalsOf;
    var a := Absorb(s.accums.Of(d), p, payload);
    assert Suits(d, a);
    var t := Part(s, d, p, payload);
    assert Mine(t, c) == Mine(s, c);
    SignalsOfSum(c, s.signals, Announce(a, p, payload));
    NotAbout(c, Announce(a, p, payload));
  }

  /** An event that answers nothing of the category changes nothing of it. */
  lemma UnrelatedEvent(s: State, e: Event, c: Category)
    requires Quiet(e, c) && !Hits(e, Mine(s, c)) && Older(s, c) && s.seqNo + Cost(e) < LIMIT
    ensures var t := Step(s, e);
            SameFor(c, s, t) && Older(t, c) && s.seqNo <= t.seqNo <= s.seqNo + Cost(e)
  {
    hide Send, ListReply, Part, Mine, SignalsOf, Refreshed, Accepted, Answer, Suits;
    match e
    case Refresh(d, pid, lost) =>
      var m := s.(accums := s.accums.With(d, Refreshed(d, s.accums.Of(d), pid)));
      SameMine(s, m, c);
      SendElsewhere(m, List(d), if d == Process then 0 else pid, 0, lost, c);
    case RefreshContainers(pid, lost) => SendElsewhere(s, Containers, pid, 0, lost, c);
    case Act(pid, lost) => if pid != 0 { SendElsewhere(s, Action, pid, 0, lost, c); }
    case Elsewhere(n) => SameMine(s, Step(s, e), c);
    case Restarted(msecs) =>
    case Received(f, lost) =>
      if Accepted(f) && Answer(f).reqId in s.pending {
        var q := Answer(f).reqId;
        RetireElsewhere(s, q, c);
        AnswerIsShorter(f);
        UnrelatedReply(s.(pending := s.pending - {q}), s.pending[q], Answer(f).payload, lost, c)
          by { IsMine(s, q, c); }
      }
  }

  lemma SameMine(s: State, t: State, c: Category)
    requires t.pending == s.pending
    ensures Mine(t, c) == Mine(s, c)
  {
  }

  lemma IsMine(s: State, q: u32, c: Category)
    requires q in s.pending
    ensures q in Mine(s, c) <==> Owned(s.pending[q].cmd, c)
    ensures q in Mine(s, c) ==> Mine(s, c)[q] == s.pending[q]
  {
  }

  lemma UnrelatedReply(s: State, p: Pending, payload: seq<byte>, lost: set<u32>, c: Category)
    requires !Owned(p.cmd, c) && Older(s, c) && s.seqNo + |payload| < LIMIT
    ensures var t := Reply(s, p, payload, lost);
            SameFor(c, s, t) && Older(t, c) && s.seqNo <= t.seqNo <= s.seqNo + |payload|
  {
    hide ListReply, Part, SignalsOf;
    match p.cmd
    case List(d) => ListReplyElsewhere(s, d, p.pid, payload, lost, c);
    case Info(d) => PartElsewhere(s, d, p, payload, c);
    case Memory => PartElsewhere(s, Process, p, payload, c);
    case Action =>
    case Containers =>
      var cs := DbgpCodec.Containers(payload);
      if cs.Some? {
        var gs := [ContainersReady(p.pid, cs.value)];
        SignalsOfSum(c, s.signals, gs);
        NotAbout(c, gs);
        SameMine(s, Reply(s, p, payload, lost), c);
      }
  }

  /** An answer about an item is absorbed and announced. */
  lemma ItemAnswered(s: State, f: Deci3Codec.Frame, lost: set<u32>, c: Category)
    requires Hits(Received(f, lost), Mine(s, c)) && Older(s, c)
    requires !Mine(s, c)[Answer(f).reqId].cmd.List?
    ensures var p := Mine(s, c)[Answer(f).reqId];
            var a := Absorb(s.accums.Of(c), p, Answer(f).payload);
            var t := Step(s, Received(f, lost));
            Mine(t, c) == Mine(s, c) - {Answer(f).reqId} && t.accums.Of(c) == a && Older(t, c) && t.seqNo == s.seqNo
            && SignalsOf(c, t.signals) == SignalsOf(c, s.signals) + Announce(a, p, Answer(f).payload)
  {
    hide Accepted, Answer, SignalsOf, Absorb, Announce, Suits;
    var q := Answer(f).reqId;
    IsMine(s, q, c);
    var m := s.(pending := s.pending - {q});
    assert Step(s, Received(f, lost)) == Part(m, c, s.pending[q], Answer(f).payload);
    assert Mine(m, c) == Mine(s, c) - {q};
    PartMine(m, c, s.pending[q], Answer(f).payload);
  }

  lemma PartMine(s: State, c: Category, p: Pending, payload: seq<byte>)
    requires Owned(p.cmd, c) && !p.cmd.List?
    ensures var a := Absorb(s.accums.Of(c), p, payload); var t := Part(s, c, p, payload);
            Mine(t, c) == Mine(s, c) && t.accums.Of(c) == a && t.seqNo == s.seqNo
            && SignalsOf(c, t.signals) == SignalsOf(c, s.signals) + Announce(a, p, payload)
  {
    hide Absorb, Announce, SignalsOf;
    var a := Absorb(s.accums.Of(c), p, payload);
    assert Suits(c, a);
    SameMine(s, Part(s, c, p, payload), c);
    SignalsOfSum(c, s.signals, Announce(a, p, payload));
    AnnouncesItsOwn(c, a, p, payload);
  }

  lemma AnnouncesItsOwn(c: Category, a: Accum, p: Pending, payload: seq<byte>)
    requires Suits(c, a) && Owned(p.cmd, c) && !p.cmd.List?
    ensures SignalsOf(c, Announce(a, p, payload)) == Announce(a, p, payload)
  {
    AllAbout(c, Announce(a, p, payload));
  }

  // ---------- runs ----------

  datatype Heard = Heard(p: Pending, payload: seq<byte>)

  /** The requests still open after the events. */
  function Left(open: map<u32, Pending>, es: seq<Event>): map<u32, Pending> {
    if es == [] then open
    else
      var before, e := Left(open, es[..|es| - 1]), es[|es| - 1];
      if Hits(e, before) then before - {Answer(e.frame).reqId} else before
  }

  /** The answers to those requests, in arrival order; a second answer is no answer. */
  function Arrivals(open: map<u32, Pending>, es: seq<Event>): seq<Heard> {
    if es == [] then []
    else
      var before, e := Left(open, es[..|es| - 1]), es[|es| - 1];
      Arrivals(open, es[..|es| - 1])
      + if Hits(e, before) then [Heard(before[Answer(e.frame).reqId], Answer(e.frame).payload)] else []
  }

  function AbsorbAll(a: Accum, hs: seq<Heard>): (r: Accum)
  {
    if hs == [] then a
    else Absorb(AbsorbAll(a, hs[..|hs| - 1]), hs[|hs| - 1].p, hs[|hs| - 1].payload)
  }

  function AnnounceAll(a: Accum, hs: seq<Heard>): seq<Signal> {
    if hs == [] then []
    else AnnounceAll(a, hs[..|hs| - 1]) + Announce(AbsorbAll(a, hs), hs[|hs| - 1].p, hs[|hs| - 1].payload)
  }

  predicate ItemsOnly(open: map<u32, Pending>) {
    forall q: u32 :: q in open ==> !open[q].cmd.List?
  }

  lemma FoldOne(a: Accum, hs: seq<Heard>, h: Heard)
    ensures AbsorbAll(a, hs + [h]) == Absorb(AbsorbAll(a, hs), h.p, h.payload)
    ensures AnnounceAll(a, hs + [h]) ==
            AnnounceAll(a, hs) + Announce(Absorb(AbsorbAll(a, hs), h.p, h.payload), h.p, h.payload)
  {
    assert (hs + [h])[..|hs|] == hs;
  }

  /** Over every run without a new refresh of the category, whatever else happens in it,
    * the category's state is the fold of its own answers in arrival order. */
  lemma {:induction false} RunIsFold(s: State, c: Category, es: seq<Event>)
    requires AllQuiet(es, c) && Older(s, c) && ItemsOnly(Mine(s, c)) && s.seqNo + CostAll(es) < LIMIT
    ensures var t := Run(s, es); var heard := Arrivals(Mine(s, c), es);
            Mine(t, c) == Left(Mine(s, c), es) && Older(t, c) && t.seqNo <= s.seqNo + CostAll(es)
            && ItemsOnly(Mine(t, c))
            && t.accums.Of(c) == AbsorbAll(s.accums.Of(c), heard)
            && SignalsOf(c, t.signals) == SignalsOf(c, s.signals) + AnnounceAll(s.accums.Of(c), heard)
  {
    hide Step, Mine, SignalsOf, Accepted, Answer, AbsorbAll, AnnounceAll, Older, Cost, Quiet, Suits;
    if es == [] {
      assert Arrivals(Mine(s, c), es) == [] && Run(s, es) == s;
      NothingHeard(s.accums.Of(c));
      assert SignalsOf(c, s.signals) + [] == SignalsOf(c, s.signals);
    } else {
      var front, e := es[..|es| - 1], es[|es| - 1];
      var m, open := Run(s, front), Mine(s, c);
      RunIsFold(s, c, front);
      if Hits(e, Left(open, front)) {
        ItemAnswered(m, e.frame, e.lost, c);
        FoldOne(s.accums.Of(c), Arrivals(open, front),
                Heard(Left(open, front)[Answer(e.frame).reqId], Answer(e.frame).payload));
      } else {
        UnrelatedEvent(m, e, c);
        assert Arrivals(open, es) == Arrivals(open, front);
      }
    }
  }

  lemma NothingHeard(a: Accum)
    ensures AbsorbAll(a, []) == a && AnnounceAll(a, []) == []
  {
  }

  // ---------- a console that answers under its own word ----------

  /** Every frame of the run carries this session word. */
  predicate AnswersUnder(es: seq<Event>, word: u32) {
    forall i :: 0 <= i < |es| ==> es[i].Received? ==> es[i].frame.sessionB == word
  }

  lemma {:induction false} OtherWordIsSilent(s: State, es: seq<Event>, word: u32)
    requires AnswersUnder(es, word) && word != 0x0210_0000
    ensures Run(s, es).signals == s.signals
  {
    if es != [] {
      OtherWordIsSilent(s, es[..|es| - 1], word);
      UnacceptedIsSilent(Run(s, es[..|es| - 1]), es[|es| - 1]);
    }
  }

  lemma UnacceptedIsSilent(s: State, e: Event)
    requires e.Received? ==> e.frame.sessionB != 0x0210_0000
    ensures Step(s, e).signals == s.signals
  {
    hide Suits, Reply;
  }

  /** A malformed thread list is announced at once, so a console that answers under the word
    * that is accepted can make the explorer announce. */
  lemma ThreadsAnnounced()
    ensures var s, f := Start(0x1000), FrameOf(DbgpCodec.Response(0x8000_0103, 0x1000, 0, 0, 0, []));
      var es := [Refresh(Thread, 7, {}), Received(f, {})];
      AnswersUnder(es, 0x0210_0000) && Run(s, es).signals == [Ready(Thread, 7, [])]
  {
    hide FrameOf, Accepted, Answer, Suits;
    var r := DbgpCodec.Response(0x8000_0103, 0x1000, 0, 0, 0, []);
    var asked, answered := Refresh(Thread, 7, {}), Received(FrameOf(r), {});
    var s := Start(0x1000);
    FrameIsAccepted(r);
    FrameUnder(r);
    assert [asked, answered][..1] == [asked] && [asked][..0] == [];
    assert Run(s, [asked]) == Step(s, asked);
    assert Step(s, asked).pending == map[0x1000 := Pending(List(Thread), 7, 0)];
    assert Step(Step(s, asked), answered).signals == [Ready(Thread, 7, [])];
  }

  lemma FrameUnder(r: DbgpCodec.Response)
    ensures FrameOf(r).sessionB == 0x0210_0000
  {
  }

  /** A console answers under the word it was asked with. Then nothing is ever announced, in
    * any run from any state, if and only if the console is a DEX one: only the other word
    * is accepted. */
  lemma SilentIffDex(dex: bool)
    ensures (forall s: State, es: seq<Event> ::
               AnswersUnder(es, Sessions.DbgshlWord(dex)) ==> Run(s, es).signals == s.signals)
      <==> dex
  {
    hide Run, AnswersUnder;
    if dex {
      forall s: State, es: seq<Event> | AnswersUnder(es, Sessions.DbgshlWord(dex)) ensures Run(s, es).signals == s.signals {
        OtherWordIsSilent(s, es, Sessions.DbgshlWord(dex));
      }
    } else {
      ThreadsAnnounced();
    }
  }
}
