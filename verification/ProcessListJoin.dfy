/** The process list joins two answers per process. */
module ProcessListJoin {
  import opened BeIo
  import opened Wrappers
  import DbgpCodec
  import Deci3Codec
  import opened KernelExplorer
  import opened KernelExplorerLaws
  import opened KernelExplorerCompletion

  /** The latest part of this kind that parsed for this process. */
  function Found(heard: seq<Heard>, cmd: Command, pid: u32): Option<seq<byte>> {
    if heard == [] then None
    else
      var h := heard[|heard| - 1];
      if h.p.cmd == cmd && h.p.pid == pid && |h.payload| >= 28 then Some(h.payload)
      else Found(heard[..|heard| - 1], cmd, pid)
  }

  function SummaryOf(heard: seq<Heard>, pid: u32): Summary {
    Summary(pid, Found(heard, Info(Process), pid), Found(heard, Memory, pid))
  }

  function SummariesOf(pids: seq<u32>, heard: seq<Heard>): (ss: seq<Summary>)
    ensures |ss| == |pids|
  {
    seq(|pids|, i requires 0 <= i < |pids| => SummaryOf(heard, pids[i]))
  }

  predicate MemoryHeard(heard: seq<Heard>, pid: u32) {
    exists i :: 0 <= i < |heard| && heard[i].p.cmd == Memory && heard[i].p.pid == pid
  }

  predicate AllMemory(pids: seq<u32>, heard: seq<Heard>) {
    forall pid :: pid in pids ==> MemoryHeard(heard, pid)
  }

  /** The lists announced: one for each answer that counts once all memory answers are in. */
  function Lists(pids: seq<u32>, heard: seq<Heard>): seq<Signal> {
    if heard == [] then []
    else
      var h := heard[|heard| - 1];
      Lists(pids, heard[..|heard| - 1])
      + if AllMemory(pids, heard) && (h.p.cmd == Memory || |h.payload| >= 28)
        then [ProcessesReady(SummariesOf(pids, heard))] else []
  }

  predicate PartsOnly(heard: seq<Heard>) {
    forall i :: 0 <= i < |heard| ==> heard[i].p.cmd == Info(Process) || heard[i].p.cmd == Memory
  }

  lemma {:induction false} FillAt(ss: seq<Summary>, p: Pending, payload: seq<byte>, i: nat)
    requires i < |ss| && forall j, k :: 0 <= j < k < |ss| ==> ss[j].pid != ss[k].pid
    ensures Fill(ss, p, payload)[i] ==
            if ss[i].pid != p.pid then ss[i]
            else if p.cmd == Memory then ss[i].(memory := Some(payload))
            else ss[i].(info := Some(payload))
  {
    if i > 0 && ss[0].pid != p.pid {
      FillAt(ss[1..], p, payload, i - 1);
    }
  }

  lemma FillIsFound(pids: seq<u32>, heard: seq<Heard>, h: Heard)
    requires NoRepeat(pids) && PartsOnly([h])
    ensures (if |h.payload| < 28 then SummariesOf(pids, heard)
             else Fill(SummariesOf(pids, heard), h.p, h.payload)) == SummariesOf(pids, heard + [h])
  {
    assert [h][0] == h;
    assert (heard + [h])[..|heard|] == heard;
    var ss, tt := SummariesOf(pids, heard), SummariesOf(pids, heard + [h]);
    forall i | 0 <= i < |pids| ensures
        (if |h.payload| < 28 then ss[i] else Fill(ss, h.p, h.payload)[i]) == tt[i] {
      FillAt(ss, h.p, h.payload, i);
    }
  }

  lemma MemoryHeardStep(heard: seq<Heard>, h: Heard, pid: u32)
    ensures MemoryHeard(heard + [h], pid) <==> MemoryHeard(heard, pid) || (h.p.cmd == Memory && h.p.pid == pid)
  {
    var all := heard + [h];
    assert all[|heard|] == h;
    if MemoryHeard(heard, pid) {
      var i :| 0 <= i < |heard| && heard[i].p.cmd == Memory && heard[i].p.pid == pid;
      assert all[i] == heard[i];
    }
  }

  /** After any answers the accumulator holds the joined summaries and the processes whose
    * memory answer is missing. */
  predicate Joins(a: Accum, pids: seq<u32>, heard: seq<Heard>) {
    a.Joined? && a.gotList && a.summaries == SummariesOf(pids, heard)
    && forall x :: x in a.left <==> x in pids && !MemoryHeard(heard, x)
  }

  lemma JoinsStep(a: Accum, pids: seq<u32>, heard: seq<Heard>, h: Heard)
    requires Joins(a, pids, heard) && NoRepeat(pids) && PartsOnly([h])
    ensures Joins(Absorb(a, h.p, h.payload), pids, heard + [h])
  {
    hide SummariesOf, MemoryHeard, Fill, NoRepeat;
    assert [h][0] == h;
    FillIsFound(pids, heard, h);
    forall x: u32 ensures MemoryHeard(heard + [h], x) <==> MemoryHeard(heard, x) || (h.p.cmd == Memory && h.p.pid == x) {
      MemoryHeardStep(heard, h, x);
    }
  }

  lemma {:induction false} JoinIsFold(pids: seq<u32>, heard: seq<Heard>)
    requires NoRepeat(pids) && PartsOnly(heard)
    ensures var a := Joined(Fresh(pids), pids, true);
            Joins(AbsorbAll(a, heard), pids, heard) && AnnounceAll(a, heard) == Lists(pids, heard)
  {
    var a := Joined(Fresh(pids), pids, true);
    if heard == [] {
      assert Fresh(pids) == SummariesOf(pids, []);
    } else {
      hide Absorb, SummariesOf, AllMemory, Joins, MemoryHeard, NoRepeat;
      var n := |heard| - 1;
      JoinIsFold(pids, heard[..n]);
      assert heard[..n] + [heard[n]] == heard;
      JoinsStep(AbsorbAll(a, heard[..n]), pids, heard[..n], heard[n]);
      NothingLeft(AbsorbAll(a, heard), pids, heard);
    }
  }

  lemma NothingLeft(a: Accum, pids: seq<u32>, heard: seq<Heard>)
    requires Joins(a, pids, heard)
    ensures a.Joined? && a.gotList && a.summaries == SummariesOf(pids, heard)
    ensures a.left == [] <==> AllMemory(pids, heard)
  {
    if a.left != [] {
      assert a.left[0] in a.left;
    }
  }

  // ---------- before and at the end ----------

  lemma {:induction false} NoListBeforeAllMemory(pids: seq<u32>, heard: seq<Heard>)
    requires !AllMemory(pids, heard)
    ensures Lists(pids, heard) == []
  {
    if heard != [] {
      var n := |heard| - 1;
      assert heard == heard[..n] + [heard[n]];
      forall pid: u32 ensures MemoryHeard(heard[..n], pid) ==> MemoryHeard(heard, pid) {
        MemoryHeardStep(heard[..n], heard[n], pid);
      }
      NoListBeforeAllMemory(pids, heard[..n]);
    }
  }

  predicate AllParse(heard: seq<Heard>) {
    forall i :: 0 <= i < |heard| ==> |heard[i].payload| >= 28
  }

  lemma {:induction false} FoundWhenAnswered(heard: seq<Heard>, cmd: Command, pid: u32, i: nat)
    requires i < |heard| && heard[i].p.cmd == cmd && heard[i].p.pid == pid && |heard[i].payload| >= 28
    ensures Found(heard, cmd, pid).Some?
  {
    if i < |heard| - 1 {
      FoundWhenAnswered(heard[..|heard| - 1], cmd, pid, i);
    }
  }

  /** Both questions about every process are among the answers. */
  predicate AllAnswered(pids: seq<u32>, heard: seq<Heard>) {
    forall pid :: pid in pids ==> Answered(heard, Pending(Info(Process), pid, 0)) && Answered(heard, Pending(Memory, pid, 0))
  }

  lemma LastListIsFull(pids: seq<u32>, heard: seq<Heard>)
    requires heard != [] && AllAnswered(pids, heard) && AllParse(heard)
    ensures var ss := SummariesOf(pids, heard);
            Lists(pids, heard) == Lists(pids, heard[..|heard| - 1]) + [ProcessesReady(ss)]
            && forall i :: 0 <= i < |pids| ==> ss[i].pid == pids[i] && ss[i].info.Some? && ss[i].memory.Some?
  {
    forall pid | pid in pids ensures
        MemoryHeard(heard, pid) && Found(heard, Info(Process), pid).Some? && Found(heard, Memory, pid).Some? {
      BothFound(heard, pid);
    }
  }

  lemma BothFound(heard: seq<Heard>, pid: u32)
    requires Answered(heard, Pending(Info(Process), pid, 0)) && Answered(heard, Pending(Memory, pid, 0)) && AllParse(heard)
    ensures MemoryHeard(heard, pid) && Found(heard, Info(Process), pid).Some? && Found(heard, Memory, pid).Some?
  {
    var i :| 0 <= i < |heard| && heard[i].p == Pending(Info(Process), pid, 0);
    var j :| 0 <= j < |heard| && heard[j].p == Pending(Memory, pid, 0);
    FoundWhenAnswered(heard, Info(Process), pid, i);
    FoundWhenAnswered(heard, Memory, pid, j);
  }

  // ---------- the questions ----------

  predicate AboutProcesses(open: map<u32, Pending>) {
    forall k: u32 :: k in open ==> open[k].cmd == Info(Process) || open[k].cmd == Memory
  }

  predicate AsksBoth(open: map<u32, Pending>, pids: seq<u32>, q: u32)
    requires q + 2 * |pids| <= 0x1_0000_0000
  {
    forall i :: 0 <= i < |pids| ==> Asks(open, q + 2 * i, pids[i])
  }

  predicate Asks(open: map<u32, Pending>, k: u32, pid: u32)
    requires k < 0xFFFF_FFFF
  {
    k in open && open[k] == Pending(Info(Process), pid, 0) && k + 1 in open && open[k + 1] == Pending(Memory, pid, 0)
  }

  lemma {:induction false} ProcessQuestions(pid: u32, pids: seq<u32>, q: u32)
    requires q + 2 * |pids| <= 0x1_0000_0000
    ensures var open := Questions(Process, pid, pids, q, {});
            AboutProcesses(open) && AsksBoth(open, pids, q)
            && forall k: u32 :: k in open ==> q <= k < q + 2 * |pids|
  {
    hide QuestionsFor, AsksBoth;
    if pids == [] {
      NothingToAsk(q);
    } else {
      var n := |pids| - 1;
      ProcessQuestions(pid, pids[..n], q);
      var front, two := Questions(Process, pid, pids[..n], q, {}), QuestionsFor(Process, pid, pids[n], q + 2 * n, {});
      assert Questions(Process, pid, pids, q, {}) == front + two;
      TwoQuestions(pid, pids[n], q + 2 * n);
      BothAskedOfMore(front, two, pids, q);
    }
  }

  lemma NothingToAsk(q: u32)
    ensures AsksBoth(map[], [], q)
  {
  }

  lemma TwoQuestions(pid: u32, h: u32, q: u32)
    requires q + 2 <= 0x1_0000_0000
    ensures var two := QuestionsFor(Process, pid, h, q, {});
            Asks(two, q, h) && AboutProcesses(two) && forall k: u32 :: k in two ==> q <= k < q + 2
  {
  }

  lemma BothAskedOfMore(front: map<u32, Pending>, two: map<u32, Pending>, pids: seq<u32>, q: u32)
    requires pids != [] && q + 2 * |pids| <= 0x1_0000_0000 && AsksBoth(front, pids[..|pids| - 1], q)
    requires Asks(two, q + 2 * (|pids| - 1), pids[|pids| - 1])
    requires forall k: u32 :: k in two ==> q + 2 * (|pids| - 1) <= k < q + 2 * |pids|
    ensures AsksBoth(front + two, pids, q)
  {
    var n := |pids| - 1;
    forall i | 0 <= i < |pids| ensures Asks(front + two, q + 2 * i, pids[i]) {
      if i < n {
        assert Asks(front, q + 2 * i, pids[..n][i]);
      }
    }
  }

  lemma EverythingAnswered(pids: seq<u32>, q: u32, open: map<u32, Pending>, heard: seq<Heard>)
    requires q + 2 * |pids| <= 0x1_0000_0000 && AsksBoth(open, pids, q) && Accounts(open, map[], heard)
    ensures AllAnswered(pids, heard)
  {
    hide Answered;
    forall pid | pid in pids
      ensures Answered(heard, Pending(Info(Process), pid, 0)) && Answered(heard, Pending(Memory, pid, 0)) {
      var i :| 0 <= i < |pids| && pids[i] == pid;
      assert Asks(open, q + 2 * i, pids[i]);
    }
  }

  lemma HeardAreParts(open: map<u32, Pending>, left: map<u32, Pending>, heard: seq<Heard>)
    requires AboutProcesses(open) && Accounts(open, left, heard)
    ensures PartsOnly(heard)
  {
  }

  /** The join. After one refresh and its list of distinct processes, with every request
    * delivered and whatever else happens: no list before every memory answer; and when all
    * answers are in and parse, the last one announces a list that has both parts of every
    * process.
    */
  lemma ProcessListIsJoined(s: State, pid: u32, before: seq<Event>, f: Deci3Codec.Frame, after: seq<Event>)
    requires Mine(s, Process) == map[] && AllQuiet(before, Process) && AllQuiet(after, Process)
    requires Accepted(f) && Answer(f).reqId == s.seqNo
    requires NoneHits(before, map[s.seqNo := ListRequest(Process, pid)])
    requires DbgpCodec.ProcessList(Answer(f).payload) != [] && NoRepeat(DbgpCodec.ProcessList(Answer(f).payload))
    requires s.seqNo + 1 + CostAll(before) + |f.payload| + CostAll(after) < 0x1_0000_0000
    ensures var pids := DbgpCodec.ProcessList(Answer(f).payload);
            var listed := Step(Run(Step(s, Refresh(Process, pid, {})), before), Received(f, {}));
            var heard := Arrivals(Mine(listed, Process), after);
            var ss := SummariesOf(pids, heard);
            SignalsOf(Process, Run(listed, after).signals) == SignalsOf(Process, s.signals) + Lists(pids, heard)
            && (!AllMemory(pids, heard) ==> Lists(pids, heard) == [])
            && (Left(Mine(listed, Process), after) == map[] && AllParse(heard) ==>
                heard != [] && Lists(pids, heard) == Lists(pids, heard[..|heard| - 1]) + [ProcessesReady(ss)]
                && forall i :: 0 <= i < |pids| ==> ss[i].pid == pids[i] && ss[i].info.Some? && ss[i].memory.Some?)
  {
    hide Step, Run, Mine, Accepted, Answer, Handles, SignalsOf, Questions, Arrivals, Left, AnnounceAll, AbsorbAll, CostAll,
      Hits, Older, NoRepeat, Lists, SummariesOf, AllMemory, AllParse, AllAnswered, Accounts, AsksBoth, AboutProcesses,
      PartsOnly, Joins;
    var pids := DbgpCodec.ProcessList(Answer(f).payload);
    PidsAreListed(Answer(f).payload);
    var started := Step(s, Refresh(Process, pid, {}));
    RefreshAsks(s, Process, pid);
    UnrelatedRun(started, Process, before);
    var asked := Run(started, before);
    ListAnswered(asked, Process, ListRequest(Process, pid), f, {});
    var listed := Step(asked, Received(f, {}));
    var open := Mine(listed, Process);
    ProcessQuestions(0, pids, asked.seqNo);
    NoListsAmong(open);
    RunIsFold(listed, Process, after);
    var heard := Arrivals(open, after);
    ArrivalsAnswer(open, after);
    HeardAreParts(open, Left(open, after), heard);
    JoinIsFold(pids, heard);
    assert listed.accums.Of(Process) == Joined(Fresh(pids), pids, true);
    Ending(pids, asked.seqNo, open, Left(open, after), heard);
  }

  lemma PidsAreListed(payload: seq<byte>)
    ensures Handles(Process, payload) == Some(DbgpCodec.ProcessList(payload))
  {
  }

  lemma NoListsAmong(open: map<u32, Pending>)
    requires AboutProcesses(open)
    ensures ItemsOnly(open)
  {
  }

  lemma Ending(pids: seq<u32>, q: u32, open: map<u32, Pending>, left: map<u32, Pending>, heard: seq<Heard>)
    requires pids != [] && q + 2 * |pids| <= 0x1_0000_0000 && AsksBoth(open, pids, q) && Accounts(open, left, heard)
    ensures !AllMemory(pids, heard) ==> Lists(pids, heard) == []
    ensures var ss := SummariesOf(pids, heard);
            left == map[] && AllParse(heard) ==>
              heard != [] && Lists(pids, heard) == Lists(pids, heard[..|heard| - 1]) + [ProcessesReady(ss)]
              && forall i :: 0 <= i < |pids| ==> ss[i].pid == pids[i] && ss[i].info.Some? && ss[i].memory.Some?
  {
    hide AsksBoth, Accounts, AllMemory, Lists, SummariesOf, Answered;
    if !AllMemory(pids, heard) {
      NoListBeforeAllMemory(pids, heard);
    }
    if left == map[] && AllParse(heard) {
      EverythingAnswered(pids, q, open, heard);
      assert heard != [] by {
        assert pids[0] in pids;
        SomethingHeard(heard, Pending(Memory, pids[0], 0));
      }
      LastListIsFull(pids, heard);
    }
  }

  lemma SomethingHeard(heard: seq<Heard>, p: Pending)
    requires Answered(heard, p)
    ensures heard != []
  {
  }
}
