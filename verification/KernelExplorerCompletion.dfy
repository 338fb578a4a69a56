/** When a fan-out announces its result: once, at the last answer, whatever the order. */
module KernelExplorerCompletion {
  import opened BeIo
  import opened Wrappers
  import DbgpCodec
  import Deci3Codec
  import opened KernelExplorer
  import opened KernelExplorerLaws

  // ---------- from the refresh to the open questions ----------

  predicate NoneHits(es: seq<Event>, open: map<u32, Pending>) {
    forall i :: 0 <= i < |es| ==> !Hits(es[i], open)
  }

  lemma {:induction false} UnrelatedRun(s: State, c: Category, es: seq<Event>)
    requires AllQuiet(es, c) && NoneHits(es, Mine(s, c)) && Older(s, c) && s.seqNo + CostAll(es) < 0x1_0000_0000
    ensures var t := Run(s, es);
            SameFor(c, s, t) && Older(t, c) && s.seqNo <= t.seqNo <= s.seqNo + CostAll(es)
  {
    hide Step, Mine, SignalsOf, Older, Cost, Hits;
    if es != [] {
      UnrelatedRun(s, c, es[..|es| - 1]);
      UnrelatedEvent(Run(s, es[..|es| - 1]), es[|es| - 1], c);
    }
  }

  function ListRequest(c: Category, pid: u32): Pending {
    Pending(List(c), if c == Process then 0 else pid, 0)
  }

  lemma RefreshAsks(s: State, c: Category, pid: u32)
    requires Mine(s, c) == map[] && s.seqNo + 1 < 0x1_0000_0000
    ensures var t := Step(s, Refresh(c, pid, {}));
            Mine(t, c) == map[s.seqNo := ListRequest(c, pid)] && Older(t, c) && t.seqNo == s.seqNo + 1
            && t.accums.Of(c) == Refreshed(c, s.accums.Of(c), pid)
            && t.signals == s.signals
  {
    hide Send, Mine, Refreshed;
    assert Suits(c, Refreshed(c, s.accums.Of(c), pid));
    var m := s.(accums := s.accums.With(c, Refreshed(c, s.accums.Of(c), pid)));
    SameMine(s, m, c);
    SendMine(m, List(c), if c == Process then 0 else pid, 0, {}, c);
  }

  lemma ListAnswered(s: State, c: Category, p: Pending, f: Deci3Codec.Frame, lost: set<u32>)
    requires Accepted(f) && Mine(s, c) == map[Answer(f).reqId := p] && p.cmd == List(c)
    requires Handles(c, Answer(f).payload).Some? && Handles(c, Answer(f).payload).value != []
    requires s.seqNo + |f.payload| < 0x1_0000_0000
    ensures var hs := Handles(c, Answer(f).payload).value;
            var t := Step(s, Received(f, lost));
            s.seqNo + Stride(c) * |hs| <= t.seqNo <= s.seqNo + |f.payload| && Older(t, c)
            && Mine(t, c) == Questions(c, p.pid, hs, s.seqNo, lost)
            && t.accums.Of(c) == Listed(c, s.accums.Of(c), p.pid, hs)
            && t.signals == s.signals
  {
    hide Accepted, Answer, Handles, Ask, Questions, Listed;
    var q := Answer(f).reqId;
    assert q in Mine(s, c);
    IsMine(s, q, c);
    var hs := Handles(c, Answer(f).payload).value;
    HandlesAreFew(c, Answer(f).payload);
    AnswerIsShorter(f);
    var m := s.(pending := s.pending - {q}, accums := s.accums.With(c, Listed(c, s.accums.Of(c), p.pid, hs)));
    assert Mine(m, c) == map[] by {
      assert Mine(m, c) == Mine(s, c) - {q};
    }
    AskMine(m, c, p.pid, hs, lost);
    assert Step(s, Received(f, lost)) == Ask(m, c, p.pid, hs, lost);
  }

  // ---------- the questions and their answers ----------

  function Handle(h: Heard): u32 {
    h.p.handle
  }

  predicate NoRepeat(hs: seq<u32>) {
    forall i, j :: 0 <= i < j < |hs| ==> hs[i] != hs[j]
  }

  /** Every question is about a different item. */
  predicate Injective(open: map<u32, Pending>) {
    forall k: u32, l: u32 :: k in open && l in open && open[k] == open[l] ==> k == l
  }

  /** Each open number asks about the item at its distance from `q`. */
  predicate Numbered(open: map<u32, Pending>, c: Category, pid: u32, hs: seq<u32>, q: u32) {
    forall k: u32 :: k in open ==> q <= k < q + |hs| && open[k] == Pending(Info(c), pid, hs[k - q])
  }

  lemma {:induction false} QuestionsAre(c: Category, pid: u32, hs: seq<u32>, q: u32, lost: set<u32>)
    requires c != Process && q + |hs| <= 0x1_0000_0000
    ensures Numbered(Questions(c, pid, hs, q, lost), c, pid, hs, q) && |Questions(c, pid, hs, q, lost)| <= |hs|
  {
    hide Numbered, Question, Questions;
    if hs == [] {
      NothingNumbered(c, pid, q);
      NothingAsked(c, pid, q, lost);
    } else {
      var n := |hs| - 1;
      var front, one := Questions(c, pid, hs[..n], q, lost), Question(Info(c), pid, hs[n], q + n, lost);
      LastQuestion(c, pid, hs, q, lost);
      QuestionsAre(c, pid, hs[..n], q, lost);
      SizeOfSum(front, one);
      OneQuestion(Info(c), pid, hs[n], q + n, lost);
      NumberedGrows(front, c, pid, hs, q, lost);
    }
  }

  lemma LastQuestion(c: Category, pid: u32, hs: seq<u32>, q: u32, lost: set<u32>)
    requires c != Process && hs != [] && q + |hs| <= 0x1_0000_0000
    ensures var n := |hs| - 1;
            Questions(c, pid, hs, q, lost) ==
              Questions(c, pid, hs[..n], q, lost) + Question(Info(c), pid, hs[n], q + n, lost)
  {
  }

  lemma NothingAsked(c: Category, pid: u32, q: u32, lost: set<u32>)
    ensures Questions(c, pid, [], q, lost) == map[]
  {
  }

  lemma NothingNumbered(c: Category, pid: u32, q: u32)
    ensures Numbered(map[], c, pid, [], q)
  {
  }

  lemma OneQuestion(cmd: Command, pid: u32, h: u32, q: u32, lost: set<u32>)
    ensures |Question(cmd, pid, h, q, lost)| <= 1
  {
  }

  lemma NumberedGrows(front: map<u32, Pending>, c: Category, pid: u32, hs: seq<u32>, q: u32, lost: set<u32>)
    requires hs != [] && q + |hs| <= 0x1_0000_0000 && Numbered(front, c, pid, hs[..|hs| - 1], q)
    ensures Numbered(front + Question(Info(c), pid, hs[|hs| - 1], q + |hs| - 1, lost), c, pid, hs, q)
  {
  }

  lemma {:induction false} AllQuestionsOpen(c: Category, pid: u32, hs: seq<u32>, q: u32)
    requires c != Process && q + |hs| <= 0x1_0000_0000
    ensures |Questions(c, pid, hs, q, {})| == |hs|
  {
    hide Questions, Numbered, Question;
    if hs == [] {
      NothingAsked(c, pid, q, {});
    } else {
      LastQuestion(c, pid, hs, q, {});
      var n := |hs| - 1;
      var front := Questions(c, pid, hs[..n], q, {});
      AllQuestionsOpen(c, pid, hs[..n], q);
      QuestionsAre(c, pid, hs[..n], q, {});
      OneMoreQuestion(front, c, pid, hs, q);
    }
  }

  lemma OneMoreQuestion(front: map<u32, Pending>, c: Category, pid: u32, hs: seq<u32>, q: u32)
    requires hs != [] && q + |hs| <= 0x1_0000_0000 && Numbered(front, c, pid, hs[..|hs| - 1], q)
    ensures |front + Question(Info(c), pid, hs[|hs| - 1], q + |hs| - 1, {})| == |front| + 1
  {
    var one := Question(Info(c), pid, hs[|hs| - 1], q + |hs| - 1, {});
    assert q + |hs| - 1 !in front;
    SizeOfSum(front, one);
  }

  lemma SizeOfSum(a: map<u32, Pending>, b: map<u32, Pending>)
    ensures |a + b| <= |a| + |b|
    ensures a.Keys !! b.Keys ==> |a + b| == |a| + |b|
  {
    assert (a + b).Keys == a.Keys + b.Keys;
    assert |(a + b).Keys| == |a + b| && |a.Keys| == |a| && |b.Keys| == |b|;
  }

  predicate Answered(heard: seq<Heard>, p: Pending) {
    exists i :: 0 <= i < |heard| && heard[i].p == p
  }

  predicate Closed(open: map<u32, Pending>, left: map<u32, Pending>, p: Pending) {
    exists k: u32 :: k in open && k !in left && open[k] == p
  }

  /** Each open question is answered at most once, and only open questions are. */
  predicate Accounts(open: map<u32, Pending>, left: map<u32, Pending>, heard: seq<Heard>) {
    |heard| + |left| == |open|
    && (forall k: u32 :: k in left ==> k in open && left[k] == open[k])
    && (forall i :: 0 <= i < |heard| ==> Closed(open, left, heard[i].p))
    && (forall k: u32 :: k in open && k !in left ==> Answered(heard, open[k]))
  }

  lemma ClosedStays(open: map<u32, Pending>, left: map<u32, Pending>, q: u32, p: Pending)
    requires Closed(open, left, p)
    ensures Closed(open, left - {q}, p)
  {
    var k: u32 :| k in open && k !in left && open[k] == p;
    assert k !in left - {q};
  }

  lemma OneMoreAnswered(heard: seq<Heard>, h: Heard, p: Pending)
    ensures Answered(heard + [h], p) <==> Answered(heard, p) || p == h.p
  {
    var all := heard + [h];
    assert all[|heard|] == h;
    if Answered(heard, p) {
      var i :| 0 <= i < |heard| && heard[i].p == p;
      assert all[i].p == p;
    }
  }

  lemma OneMore(open: map<u32, Pending>, left: map<u32, Pending>, heard: seq<Heard>, q: u32, h: Heard)
    requires Accounts(open, left, heard) && q in left && h.p == left[q]
    ensures Accounts(open, left - {q}, heard + [h])
  {
    hide Closed, Answered;
    var left', heard' := left - {q}, heard + [h];
    assert |left'| == |left| - 1 by {
      assert left'.Keys == left.Keys - {q};
      assert |left'.Keys| == |left'| && |left.Keys| == |left|;
    }
    forall i | 0 <= i < |heard'| ensures Closed(open, left', heard'[i].p) {
      if i < |heard| {
        ClosedStays(open, left, q, heard[i].p);
      } else {
        NowClosed(open, left, q);
      }
    }
    forall k: u32 | k in open && k !in left' ensures Answered(heard', open[k]) {
      OneMoreAnswered(heard, h, open[k]);
    }
  }

  lemma NowClosed(open: map<u32, Pending>, left: map<u32, Pending>, q: u32)
    requires q in open
    ensures Closed(open, left - {q}, open[q])
  {
  }

  lemma {:induction false} ArrivalsAnswer(open: map<u32, Pending>, es: seq<Event>)
    ensures Accounts(open, Left(open, es), Arrivals(open, es))
  {
    hide Accepted, Answer, Closed, Answered;
    if es != [] {
      var n := |es| - 1;
      ArrivalsAnswer(open, es[..n]);
      var heard, left := Arrivals(open, es[..n]), Left(open, es[..n]);
      if Hits(es[n], left) {
        var q := Answer(es[n].frame).reqId;
        OneMore(open, left, heard, q, Heard(left[q], Answer(es[n].frame).payload));
      } else {
        assert Arrivals(open, es) == heard && Left(open, es) == left;
      }
    }
  }

  predicate AllDiffer(heard: seq<Heard>) {
    forall i, j :: 0 <= i < j < |heard| ==> heard[i].p != heard[j].p
  }

  lemma {:induction false} ArrivalsDiffer(open: map<u32, Pending>, es: seq<Event>)
    requires Injective(open)
    ensures AllDiffer(Arrivals(open, es))
  {
    hide Accepted, Answer, Closed, Answered;
    if es != [] {
      var n := |es| - 1;
      ArrivalsDiffer(open, es[..n]);
      ArrivalsAnswer(open, es[..n]);
      var heard, left := Arrivals(open, es[..n]), Left(open, es[..n]);
      if Hits(es[n], left) {
        var q := Answer(es[n].frame).reqId;
        forall i | 0 <= i < |heard| ensures heard[i].p != left[q] {
          NotClosed(open, left, q, heard[i].p);
        }
      } else {
        assert Arrivals(open, es) == heard;
      }
    }
  }

  lemma NotClosed(open: map<u32, Pending>, left: map<u32, Pending>, q: u32, p: Pending)
    requires Injective(open) && q in left && q in open && Closed(open, left, p)
    ensures p != open[q]
  {
  }

  // ---------- counting ----------

  function SetOf(hs: seq<u32>): (r: set<u32>)
    ensures forall h :: h in r <==> h in hs
  {
    set h | h in hs
  }

  lemma {:induction false} SizeOfDistinct(hs: seq<u32>)
    requires NoRepeat(hs)
    ensures |SetOf(hs)| == |hs|
  {
    if hs != [] {
      var n := |hs| - 1;
      SizeOfDistinct(hs[..n]);
      assert hs == hs[..n] + [hs[n]];
      assert SetOf(hs) == SetOf(hs[..n]) + {hs[n]};
    }
  }

  lemma CoveredIffAsMany(hs: seq<u32>, gs: seq<u32>)
    requires NoRepeat(hs) && NoRepeat(gs) && forall g :: g in gs ==> g in hs
    ensures |gs| <= |hs|
    ensures (forall h :: h in hs ==> h in gs) <==> |gs| == |hs|
  {
    SizeOfDistinct(hs);
    SizeOfDistinct(gs);
    hide NoRepeat;
    assert SetOf(gs) <= SetOf(hs);
    Subsets(SetOf(gs), SetOf(hs));
    assert SetOf(gs) == SetOf(hs) ==> forall h :: h in hs ==> h in gs by {
      if SetOf(gs) == SetOf(hs) {
        forall h | h in hs ensures h in gs {
          assert h in SetOf(hs);
        }
      }
    }
  }

  lemma Subsets(a: set<u32>, b: set<u32>)
    requires a <= b
    ensures |a| <= |b|
    ensures |a| == |b| <==> a == b
  {
    assert b == a + (b - a);
  }

  // ---------- the six item categories ----------

  function HandlesOf(heard: seq<Heard>): (hs: seq<u32>)
    ensures |hs| == |heard|
  {
    if heard == [] then [] else HandlesOf(heard[..|heard| - 1]) + [heard[|heard| - 1].p.handle]
  }

  /** The entries that parse, in arrival order. */
  function Entries(heard: seq<Heard>): seq<Entry> {
    if heard == [] then []
    else Entries(heard[..|heard| - 1]) + Parsed(heard[|heard| - 1].p, heard[|heard| - 1].payload)
  }

  /** All answers belong to the fan-out over `hs`. */
  predicate BelongTo(heard: seq<Heard>, c: Category, pid: u32, hs: seq<u32>) {
    forall i :: 0 <= i < |heard| ==> heard[i].p == Pending(Info(c), pid, heard[i].p.handle) && heard[i].p.handle in hs
  }

  function Opening(c: Category, pid: u32, hs: seq<u32>): Accum {
    if IsSync(c) then Sync(pid, hs, []) else Counted(pid, |hs|, 0, [])
  }

  lemma {:induction false} Gathered(c: Category, pid: u32, hs: seq<u32>, heard: seq<Heard>)
    requires c != Process
    ensures var a := AbsorbAll(Opening(c, pid, hs), heard);
            (IsSync(c) ==> a.Sync? && a.pid == pid && a.info == Entries(heard)
                           && forall x :: x in a.remaining <==> x in hs && x !in HandlesOf(heard))
            && (!IsSync(c) ==> a == Counted(pid, |hs|, |heard|, Entries(heard)))
  {
    hide Parsed;
    if heard != [] {
      Gathered(c, pid, hs, heard[..|heard| - 1]);
    }
  }

  /** The answers so far cover the list: for a sync category every handle has been heard of,
    * for a counted one there have been enough answers. */
  predicate Covered(c: Category, hs: seq<u32>, heard: seq<Heard>) {
    if IsSync(c) then forall h :: h in hs ==> h in HandlesOf(heard) else |heard| >= |hs|
  }

  /** Whatever the handles are, an answer announces exactly when the answers cover the list. */
  lemma AnnouncesWhenCovered(c: Category, pid: u32, hs: seq<u32>, heard: seq<Heard>)
    requires c != Process && heard != [] && BelongTo(heard, c, pid, hs)
    ensures AnnounceAll(Opening(c, pid, hs), heard) ==
            AnnounceAll(Opening(c, pid, hs), heard[..|heard| - 1])
            + if Covered(c, hs, heard) then [Ready(c, pid, Entries(heard))] else []
  {
    hide Parsed, Entries, HandlesOf;
    Gathered(c, pid, hs, heard);
    var a := AbsorbAll(Opening(c, pid, hs), heard);
    if IsSync(c) {
      assert a.remaining == [] <==> forall x :: x !in a.remaining by {
        if a.remaining != [] {
          assert a.remaining[0] in a.remaining;
        }
      }
    }
  }

  lemma {:induction false} HandlesOfIs(heard: seq<Heard>)
    ensures forall i :: 0 <= i < |heard| ==> HandlesOf(heard)[i] == heard[i].p.handle
  {
    if heard != [] {
      HandlesOfIs(heard[..|heard| - 1]);
    }
  }

  lemma CoveredIffAll(c: Category, pid: u32, hs: seq<u32>, heard: seq<Heard>)
    requires c != Process && BelongTo(heard, c, pid, hs) && AllDiffer(heard) && |heard| <= |hs|
    requires IsSync(c) ==> NoRepeat(hs)
    ensures Covered(c, hs, heard) <==> |heard| == |hs|
  {
    if IsSync(c) {
      HandlesOfIs(heard);
      var gs := HandlesOf(heard);
      forall i, j | 0 <= i < j < |gs| ensures gs[i] != gs[j] {
        assert heard[i].p != heard[j].p;
      }
      CoveredIffAsMany(hs, gs);
    }
  }

  lemma {:induction false} AnnouncesOnce(c: Category, pid: u32, hs: seq<u32>, heard: seq<Heard>)
    requires c != Process && hs != [] && |heard| <= |hs|
    requires BelongTo(heard, c, pid, hs) && (IsSync(c) ==> NoRepeat(hs) && AllDiffer(heard))
    ensures AnnounceAll(Opening(c, pid, hs), heard) ==
            if |heard| == |hs| then [Ready(c, pid, Entries(heard))] else []
  {
    hide AbsorbAll, Entries, Covered;
    if heard != [] {
      AnnouncesOnce(c, pid, hs, heard[..|heard| - 1]);
      AnnouncesWhenCovered(c, pid, hs, heard);
      EnoughHeard(c, pid, hs, heard);
    }
  }

  lemma EnoughHeard(c: Category, pid: u32, hs: seq<u32>, heard: seq<Heard>)
    requires c != Process && |heard| <= |hs|
    requires BelongTo(heard, c, pid, hs) && (IsSync(c) ==> NoRepeat(hs) && AllDiffer(heard))
    ensures Covered(c, hs, heard) <==> |heard| == |hs|
  {
    if IsSync(c) {
      CoveredIffAll(c, pid, hs, heard);
    }
  }

  lemma NumberedIsInjective(open: map<u32, Pending>, c: Category, pid: u32, hs: seq<u32>, q: u32)
    requires Numbered(open, c, pid, hs, q) && NoRepeat(hs)
    ensures Injective(open)
  {
    forall k: u32, l: u32 | k in open && l in open && open[k] == open[l] ensures k == l {
      assert hs[k - q] == hs[l - q];
    }
  }

  /** What arrives for a fan-out belongs to it, once per question. */
  lemma ArrivalsBelong(c: Category, pid: u32, hs: seq<u32>, q: u32, lost: set<u32>, es: seq<Event>)
    requires c != Process && q + |hs| <= 0x1_0000_0000
    ensures var open := Questions(c, pid, hs, q, lost);
            |Arrivals(open, es)| <= |hs| && (lost == {} ==> (|Arrivals(open, es)| == |hs| <==> Left(open, es) == map[]))
            && BelongTo(Arrivals(open, es), c, pid, hs)
            && ItemsOnly(open)
            && (NoRepeat(hs) ==> AllDiffer(Arrivals(open, es)))
  {
    hide Questions, Arrivals, Left, Answered, NoRepeat;
    QuestionsAre(c, pid, hs, q, lost);
    var open := Questions(c, pid, hs, q, lost);
    ArrivalsAnswer(open, es);
    if lost == {} {
      AllQuestionsOpen(c, pid, hs, q);
    }
    if NoRepeat(hs) {
      NumberedIsInjective(open, c, pid, hs, q);
      ArrivalsDiffer(open, es);
    }
  }

  /** Fan-out completion. A refresh whose send succeeds, its list reply after any unrelated
    * events, then any events at all except another refresh of this category or a new
    * epoch: the category announces nothing before its last answer, and then announces
    * once, with the parsed entries in arrival order. When a request of the fan-out was
    * lost, `|heard|` stays below `|hs|` and nothing is announced.
    */
  lemma FanOutCompletes(s: State, c: Category, pid: u32, before: seq<Event>, f: Deci3Codec.Frame, lost: set<u32>,
                        after: seq<Event>)
    requires c != Process && Mine(s, c) == map[] && AllQuiet(before, c) && AllQuiet(after, c)
    requires Accepted(f) && Answer(f).reqId == s.seqNo
    requires NoneHits(before, map[s.seqNo := ListRequest(c, pid)])
    requires Handles(c, Answer(f).payload).Some? && Handles(c, Answer(f).payload).value != []
    requires IsSync(c) ==> NoRepeat(Handles(c, Answer(f).payload).value)
    requires s.seqNo + 1 + CostAll(before) + |f.payload| + CostAll(after) < 0x1_0000_0000
    ensures var hs := Handles(c, Answer(f).payload).value;
            var asked := Run(Step(s, Refresh(c, pid, {})), before);
            var listed := Step(asked, Received(f, lost));
            var heard := Arrivals(Mine(listed, c), after);
            |heard| <= |hs| && (lost == {} ==> (|heard| == |hs| <==> Left(Mine(listed, c), after) == map[]))
            && SignalsOf(c, Run(listed, after).signals) ==
               SignalsOf(c, s.signals) + if |heard| == |hs| then [Ready(c, pid, Entries(heard))] else []
  {
    hide Step, Run, Mine, Accepted, Answer, Handles, SignalsOf, Questions, Arrivals, Left, AnnounceAll, Entries, CostAll,
      Hits, Older, ItemsOnly, NoRepeat;
    var hs := Handles(c, Answer(f).payload).value;
    var started := Step(s, Refresh(c, pid, {}));
    RefreshAsks(s, c, pid);
    UnrelatedRun(started, c, before);
    var asked := Run(started, before);
    ListAnswered(asked, c, ListRequest(c, pid), f, lost);
    var listed := Step(asked, Received(f, lost));
    ArrivalsBelong(c, pid, hs, asked.seqNo, lost, after);
    RunIsFold(listed, c, after);
    assert listed.accums.Of(c) == Opening(c, pid, hs);
    AnnouncesOnce(c, pid, hs, Arrivals(Questions(c, pid, hs, asked.seqNo, lost), after));
  }

  // ---------- lists with a repeated handle ----------

  /** Once the list is covered, every further answer announces again. */
  lemma CoveredEarlyAnnouncesTwice(c: Category, pid: u32, hs: seq<u32>, heard: seq<Heard>, again: Heard)
    requires IsSync(c) && heard != [] && BelongTo(heard + [again], c, pid, hs) && Covered(c, hs, heard)
    ensures AnnounceAll(Opening(c, pid, hs), heard + [again]) ==
            AnnounceAll(Opening(c, pid, hs), heard[..|heard| - 1])
            + [Ready(c, pid, Entries(heard))] + [Ready(c, pid, Entries(heard + [again]))]
  {
    StillCovered(c, pid, hs, heard, again);
    AnnouncesNow(c, pid, hs, heard);
    AnnouncesNow(c, pid, hs, heard + [again]);
    hide *;
    assert (heard + [again])[..|heard + [again]| - 1] == heard;
  }

  /** The console's answer to one question, with nothing in it. */
  function AnswerTo(q: u32): Event {
    Received(FrameOf(DbgpCodec.Response(0x8000_0000, q, 0, 0, 0, [])), {})
  }

  function AnswersTo(qs: seq<u32>): (es: seq<Event>)
    ensures |es| == |qs|
  {
    seq(|qs|, i requires 0 <= i < |qs| => AnswerTo(qs[i]))
  }

  function HeardFrom(open: map<u32, Pending>, qs: seq<u32>): (heard: seq<Heard>)
    requires forall q :: q in qs ==> q in open
    ensures |heard| == |qs|
  {
    seq(|qs|, i requires 0 <= i < |qs| => Heard(open[qs[i]], []))
  }

  lemma AnswerHits(q: u32, open: map<u32, Pending>)
    ensures AnswerTo(q).Received? && Accepted(AnswerTo(q).frame)
    ensures Answer(AnswerTo(q).frame).reqId == q && Answer(AnswerTo(q).frame).payload == []
    ensures Hits(AnswerTo(q), open) <==> q in open
    ensures Cost(AnswerTo(q)) == 21
  {
    hide FrameOf, Accepted, Answer;
    FrameIsAccepted(DbgpCodec.Response(0x8000_0000, q, 0, 0, 0, []));
  }

  /** Answers to different open questions are heard in the order they are sent. */
  lemma {:induction false} AnswersArrive(open: map<u32, Pending>, qs: seq<u32>)
    requires NoRepeat(qs) && forall q :: q in qs ==> q in open
    ensures var es := AnswersTo(qs);
            Arrivals(open, es) == HeardFrom(open, qs) && CostAll(es) == 21 * |qs|
            && (forall k: u32 :: k in Left(open, es) <==> k in open && k !in qs)
            && forall k: u32 :: k in Left(open, es) ==> Left(open, es)[k] == open[k]
  {
    hide AnswerTo, Hits, Cost, Accepted, Answer;
    if qs != [] {
      var n := |qs| - 1;
      var es := AnswersTo(qs);
      assert es[..n] == AnswersTo(qs[..n]);
      assert qs == qs[..n] + [qs[n]];
      AnswersArrive(open, qs[..n]);
      assert qs[n] !in qs[..n];
      AnswerHits(qs[n], Left(open, es[..n]));
    }
  }

  predicate Permutes(qs: seq<u32>, q: u32, n: nat) {
    |qs| == n && NoRepeat(qs) && forall k: u32 :: k in qs <==> q <= k < q + n
  }

  /** The questions in order, except that number `j` comes last. */
  function MovedLast(q: u32, n: nat, j: nat): (qs: seq<u32>)
    requires j < n && q + n <= 0x1_0000_0000
    ensures |qs| == n
  {
    seq(n, m requires 0 <= m < n => if m < j then q + m else if m < n - 1 then q + m + 1 else q + j)
  }

  lemma MovedLastPermutes(q: u32, n: nat, j: nat)
    requires j < n && q + n <= 0x1_0000_0000
    ensures Permutes(MovedLast(q, n, j), q, n)
  {
    var qs := MovedLast(q, n, j);
    forall k: u32 | q <= k < q + n ensures k in qs {
      var m := if k < q + j then k - q else if k == q + j then n - 1 else k - q - 1;
      assert qs[m] == k;
    }
  }

  /** A fan-out over `hs` has just gone out, numbered from `q` on, and nothing is answered. */
  predicate JustListed(s: State, c: Category, pid: u32, hs: seq<u32>, q: u32) {
    q + |hs| <= 0x1_0000_0000 && c != Process && Mine(s, c) == Questions(c, pid, hs, q, {})
    && s.accums.Of(c) == Opening(c, pid, hs) && Older(s, c)
  }

  lemma ListReplyOpens(s: State, c: Category, pid: u32, before: seq<Event>, f: Deci3Codec.Frame)
    requires c != Process && Mine(s, c) == map[] && AllQuiet(before, c)
    requires Accepted(f) && Answer(f).reqId == s.seqNo
    requires NoneHits(before, map[s.seqNo := ListRequest(c, pid)])
    requires Handles(c, Answer(f).payload).Some? && Handles(c, Answer(f).payload).value != []
    requires s.seqNo + 1 + CostAll(before) + |f.payload| < 0x1_0000_0000
    ensures var asked := Run(Step(s, Refresh(c, pid, {})), before);
            JustListed(Step(asked, Received(f, {})), c, pid, Handles(c, Answer(f).payload).value, asked.seqNo)
  {
    hide Step, Run, Mine, Accepted, Answer, Handles, SignalsOf, Questions, CostAll, Hits, Older;
    var started := Step(s, Refresh(c, pid, {}));
    RefreshAsks(s, c, pid);
    UnrelatedRun(started, c, before);
    ListAnswered(Run(started, before), c, ListRequest(c, pid), f, {});
  }

  /** The run answers every question of the category, in whatever order and among whatever
    * other events. */
  predicate Completes(s: State, c: Category, es: seq<Event>) {
    AllQuiet(es, c) && s.seqNo + CostAll(es) < 0x1_0000_0000 && Left(Mine(s, c), es) == map[]
  }

  predicate OneMoreSignal(s: State, c: Category, es: seq<Event>) {
    |SignalsOf(c, Run(s, es).signals)| == |SignalsOf(c, s.signals)| + 1
  }

  /** A synchronisation list is announced exactly once by every run that completes it, if and
    * only if it names no handle twice. A repeated handle announces too early in some order:
    * put one of the two answers last. */
  lemma AnnouncedOnceInEveryOrderIff(s: State, c: Category, pid: u32, hs: seq<u32>, q: u32)
    requires JustListed(s, c, pid, hs, q) && IsSync(c) && hs != [] && s.seqNo + 21 * |hs| < 0x1_0000_0000
    ensures (forall es :: Completes(s, c, es) ==> OneMoreSignal(s, c, es)) <==> NoRepeat(hs)
  {
    hide JustListed, Completes, OneMoreSignal, NoRepeat;
    if NoRepeat(hs) {
      forall es | Completes(s, c, es) ensures OneMoreSignal(s, c, es) {
        CompletesOnce(s, c, pid, hs, q, es);
      }
    } else {
      var i, j := RepeatIn(hs);
      RepeatBreaks(s, c, pid, hs, q, i, j);
    }
  }

  lemma RepeatIn(hs: seq<u32>) returns (i: nat, j: nat)
    requires !NoRepeat(hs)
    ensures i < j < |hs| && hs[i] == hs[j]
  {
    i, j :| i < j < |hs| && hs[i] == hs[j];
  }

  lemma CompletesOnce(s: State, c: Category, pid: u32, hs: seq<u32>, q: u32, es: seq<Event>)
    requires JustListed(s, c, pid, hs, q) && IsSync(c) && hs != [] && NoRepeat(hs) && Completes(s, c, es)
    ensures OneMoreSignal(s, c, es)
  {
    hide Run, Mine, SignalsOf, Questions, Arrivals, Left, AnnounceAll, Entries, CostAll, Older, ItemsOnly, NoRepeat;
    ArrivalsBelong(c, pid, hs, q, {}, es);
    RunIsFold(s, c, es);
    AnnouncesOnce(c, pid, hs, Arrivals(Mine(s, c), es));
  }

  lemma RepeatBreaks(s: State, c: Category, pid: u32, hs: seq<u32>, q: u32, i: nat, j: nat)
    requires JustListed(s, c, pid, hs, q) && IsSync(c) && s.seqNo + 21 * |hs| < 0x1_0000_0000
    requires i < j < |hs| && hs[i] == hs[j]
    ensures exists es :: Completes(s, c, es) && !OneMoreSignal(s, c, es)
  {
    hide Run, Mine, SignalsOf, Questions, Arrivals, Left, AnnounceAll, Entries, CostAll, Older, ItemsOnly, Covered,
      MovedLast, Question, Numbered, AnswersTo, HeardFrom, BelongTo;
    var n := |hs|;
    var qs := MovedLast(q, n, j);
    var es := AnswersTo(qs);
    var open := Mine(s, c);
    MovedLastPermutes(q, n, j);
    QuestionsAre(c, pid, hs, q, {});
    AllNumbersOpen(c, pid, hs, q);
    AnswersArrive(open, qs);
    NothingLeftOpen(open, Left(open, es), c, pid, hs, q, qs);
    AnswersAreQuiet(qs, c);
    ArrivalsBelong(c, pid, hs, q, {}, es);
    RunIsFold(s, c, es);
    var heard := Arrivals(open, es);
    CoveredBeforeTheLast(c, pid, hs, q, open, i, j);
    assert heard[..n - 1] + [heard[n - 1]] == heard;
    CoveredEarlyAnnouncesTwice(c, pid, hs, heard[..n - 1], heard[n - 1]);
    assert Completes(s, c, es) && !OneMoreSignal(s, c, es);
  }

  lemma NothingLeftOpen(open: map<u32, Pending>, left: map<u32, Pending>, c: Category, pid: u32, hs: seq<u32>, q: u32,
                        qs: seq<u32>)
    requires Numbered(open, c, pid, hs, q) && Permutes(qs, q, |hs|)
    requires forall k: u32 :: k in left <==> k in open && k !in qs
    ensures left == map[]
  {
  }

  lemma AnswersAreQuiet(qs: seq<u32>, c: Category)
    ensures AllQuiet(AnswersTo(qs), c)
  {
    hide FrameOf;
  }

  /** With every request delivered, every number of the fan-out is open. */
  lemma {:induction false} AllNumbersOpen(c: Category, pid: u32, hs: seq<u32>, q: u32)
    requires c != Process && q + |hs| <= 0x1_0000_0000
    ensures forall k: u32 :: q <= k < q + |hs| ==> k in Questions(c, pid, hs, q, {})
  {
    hide Questions;
    if hs != [] {
      LastQuestion(c, pid, hs, q, {});
      AllNumbersOpen(c, pid, hs[..|hs| - 1], q);
    }
  }

  lemma CoveredBeforeTheLast(c: Category, pid: u32, hs: seq<u32>, q: u32, open: map<u32, Pending>, i: nat, j: nat)
    requires q + |hs| <= 0x1_0000_0000 && i < j < |hs| && hs[i] == hs[j] && IsSync(c)
    requires Numbered(open, c, pid, hs, q) && forall k :: k in MovedLast(q, |hs|, j) ==> k in open
    ensures Covered(c, hs, HeardFrom(open, MovedLast(q, |hs|, j))[..|hs| - 1])
  {
    var qs := MovedLast(q, |hs|, j);
    var heard := HeardFrom(open, qs)[..|hs| - 1];
    hide MovedLast, HeardFrom, Numbered;
    HandlesOfIs(heard);
    forall h | h in hs ensures h in HandlesOf(heard) {
      var p :| 0 <= p < |hs| && hs[p] == h;
      var m := HeardBeforeTheLast(c, pid, hs, q, open, i, j, p);
      assert HandlesOf(heard)[m] == h;
    }
  }

  lemma HeardBeforeTheLast(c: Category, pid: u32, hs: seq<u32>, q: u32, open: map<u32, Pending>, i: nat, j: nat, p: nat)
      returns (m: nat)
    requires q + |hs| <= 0x1_0000_0000 && i < j < |hs| && hs[i] == hs[j] && p < |hs|
    requires Numbered(open, c, pid, hs, q) && forall k :: k in MovedLast(q, |hs|, j) ==> k in open
    ensures m < |hs| - 1 && HeardFrom(open, MovedLast(q, |hs|, j))[m].p.handle == hs[p]
  {
    var qs := MovedLast(q, |hs|, j);
    m := if p < j then p else if p > j then p - 1 else i;
    assert qs[m] in qs;
  }

  lemma AnnouncesNow(c: Category, pid: u32, hs: seq<u32>, heard: seq<Heard>)
    requires IsSync(c) && heard != [] && BelongTo(heard, c, pid, hs) && Covered(c, hs, heard)
    ensures AnnounceAll(Opening(c, pid, hs), heard) ==
            AnnounceAll(Opening(c, pid, hs), heard[..|heard| - 1]) + [Ready(c, pid, Entries(heard))]
  {
    hide AnnounceAll, Entries, BelongTo, Covered;
    AnnouncesWhenCovered(c, pid, hs, heard);
  }

  lemma StillCovered(c: Category, pid: u32, hs: seq<u32>, heard: seq<Heard>, again: Heard)
    requires IsSync(c) && BelongTo(heard + [again], c, pid, hs) && Covered(c, hs, heard)
    ensures BelongTo(heard, c, pid, hs) && Covered(c, hs, heard + [again])
  {
    var all := heard + [again];
    assert all[..|all| - 1] == heard;
    assert HandlesOf(all) == HandlesOf(heard) + [again.p.handle];
    assert forall i :: 0 <= i < |heard| ==> all[i] == heard[i];
  }

  /** An empty list: the counted categories announce it, the sync ones never do. */
  lemma EmptyListReply(s: State, c: Category, pid: u32, f: Deci3Codec.Frame, lost: set<u32>)
    requires Accepted(f) && Mine(s, c) == map[Answer(f).reqId := ListRequest(c, pid)]
    requires Handles(c, Answer(f).payload) == Some([])
    ensures var t := Step(s, Received(f, lost));
            Mine(t, c) == map[]
            && SignalsOf(c, t.signals) == SignalsOf(c, s.signals) + EmptyList(c, ListRequest(c, pid).pid)
  {
    hide Accepted, Answer, Handles, SignalsOf;
    var q := Answer(f).reqId;
    assert q in Mine(s, c);
    IsMine(s, q, c);
    assert Mine(Step(s, Received(f, lost)), c) == Mine(s, c) - {q};
    SignalsOfSum(c, s.signals, EmptyList(c, ListRequest(c, pid).pid));
    AllAbout(c, EmptyList(c, ListRequest(c, pid).pid));
  }
}
