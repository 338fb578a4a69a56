/** The fan-outs told from the bytes of a list reply to the signal: what is listed is asked
  * about, item by item, and announced when it has been answered.
  */
module KernelExplorerLayouts {
  import opened BeIo
  import opened Wrappers
  import DbgpCodec
  import Deci3Codec
  import opened KernelExplorer
  import opened KernelExplorerLaws
  import opened KernelExplorerCompletion
  import ProcessListJoin

  // ---------- list replies as the console lays them out ----------

  predicate AreLow(hs: seq<u32>, ids: seq<u64>) {
    |hs| == |ids| && forall i :: 0 <= i < |hs| ==> hs[i] == ids[i] % 0x1_0000_0000
  }

  /** The payload lists these items: processes as plain words, threads as the low words of the
    * PPU part of a thread list, the rest behind a count. */
  ghost predicate LaidOut(c: Category, payload: seq<byte>, hs: seq<u32>) {
    match c
    case Process => exists rest: seq<byte> :: |rest| < 4 && payload == DbgpCodec.PutWords(hs) + rest
    case Thread =>
      exists t: DbgpCodec.ThreadList, rest: seq<byte> :: |t.ppu| < LIMIT && |t.spu| < LIMIT
        && payload == DbgpCodec.ThreadListBytes(t) + rest && AreLow(hs, t.ppu)
    case _ =>
      exists rest: seq<byte> :: |hs| < LIMIT && payload == BigEndian(4, |hs|) + DbgpCodec.PutWords(hs) + rest
  }

  lemma LaidOutIsRead(c: Category, payload: seq<byte>, hs: seq<u32>)
    requires LaidOut(c, payload, hs)
    ensures Handles(c, payload) == Some(hs)
  {
    hide BigEndian, DbgpCodec.PutWords, DbgpCodec.ThreadListBytes, DbgpCodec.HandleList, DbgpCodec.Threads, DbgpCodec.ProcessList;
    match c
    case Process =>
      var rest: seq<byte> :| |rest| < 4 && payload == DbgpCodec.PutWords(hs) + rest;
      PidsReadBack(hs, rest);
    case Thread =>
      var t: DbgpCodec.ThreadList, rest: seq<byte> :| |t.ppu| < LIMIT && |t.spu| < LIMIT
        && payload == DbgpCodec.ThreadListBytes(t) + rest && AreLow(hs, t.ppu);
      DbgpCodec.ThreadListReadsBack(t, rest);
      assert LowWords(t.ppu) == hs;
    case _ =>
      var rest: seq<byte> :| |hs| < LIMIT && payload == BigEndian(4, |hs|) + DbgpCodec.PutWords(hs) + rest;
      DbgpCodec.HandleListReadsBack(hs, rest);
  }

  /** Process numbers written one after the other are read back, whatever cut-off word follows. */
  lemma PidsReadBack(pids: seq<u32>, rest: seq<byte>)
    requires |rest| < 4
    ensures DbgpCodec.ProcessList(DbgpCodec.PutWords(pids) + rest) == pids
  {
    hide DbgpCodec.PutWords, U32At;
    var p := DbgpCodec.PutWords(pids) + rest;
    var got := DbgpCodec.ProcessList(p);
    assert |got| == |pids|;
    forall k | 0 <= k < |pids| ensures got[k] == pids[k] {
      DbgpCodec.WordsOfPut([], pids, rest, k);
      assert [] + DbgpCodec.PutWords(pids) + rest == p;
    }
  }

  // ---------- one question per listed item ----------

  /** Number `q + i` asks about item `i`, unless its send was lost; nothing else is open. */
  predicate AsksEach(open: map<u32, Pending>, c: Category, pid: u32, hs: seq<u32>, q: u32, lost: set<u32>) {
    (forall k: u32 :: k in open <==> q <= k < q + |hs| && k !in lost)
    && forall k: u32 :: k in open ==> open[k] == Pending(Info(c), pid, hs[k - q])
  }

  lemma {:induction false} QuestionsAskEach(c: Category, pid: u32, hs: seq<u32>, q: u32, lost: set<u32>)
    requires c != Process && q + |hs| <= LIMIT
    ensures AsksEach(Questions(c, pid, hs, q, lost), c, pid, hs, q, lost)
  {
    hide Questions;
    if hs == [] {
      NothingAsked(c, pid, q, lost);
    } else {
      LastQuestion(c, pid, hs, q, lost);
      QuestionsAskEach(c, pid, hs[..|hs| - 1], q, lost);
    }
  }

  /** A refresh, any unrelated events, and the list reply: exactly one question per listed item
    * goes out, numbers ascending with the list. */
  lemma ListIsAskedAbout(s: State, c: Category, pid: u32, before: seq<Event>, f: Deci3Codec.Frame, lost: set<u32>,
                         hs: seq<u32>)
    requires c != Process && Mine(s, c) == map[] && AllQuiet(before, c)
    requires Accepted(f) && Answer(f).reqId == s.seqNo && NoneHits(before, map[s.seqNo := ListRequest(c, pid)])
    requires LaidOut(c, Answer(f).payload, hs) && hs != []
    requires s.seqNo + 1 + CostAll(before) + |f.payload| < LIMIT
    ensures var asked := Run(Step(s, Refresh(c, pid, {})), before);
            var listed := Step(asked, Received(f, lost));
            AsksEach(Mine(listed, c), c, pid, hs, asked.seqNo, lost) && listed.seqNo == asked.seqNo + |hs|
            && SignalsOf(c, listed.signals) == SignalsOf(c, s.signals)
  {
    hide Step, Run, Mine, Accepted, Answer, Handles, SignalsOf, Questions, CostAll, Hits, Older, LaidOut, AsksEach;
    LaidOutIsRead(c, Answer(f).payload, hs);
    var started := Step(s, Refresh(c, pid, {}));
    RefreshAsks(s, c, pid);
    UnrelatedRun(started, c, before);
    var asked := Run(started, before);
    ListAnswered(asked, c, ListRequest(c, pid), f, lost);
    QuestionsAskEach(c, pid, hs, asked.seqNo, lost);
    OneNumberEach(asked, c, ListRequest(c, pid), f, lost);
  }

  /** The list reply leaves its fan-out just opened, over exactly the items it lists. */
  lemma ListedIsOpen(s: State, c: Category, pid: u32, before: seq<Event>, f: Deci3Codec.Frame, hs: seq<u32>)
    requires c != Process && Mine(s, c) == map[] && AllQuiet(before, c)
    requires Accepted(f) && Answer(f).reqId == s.seqNo && NoneHits(before, map[s.seqNo := ListRequest(c, pid)])
    requires LaidOut(c, Answer(f).payload, hs) && hs != []
    requires s.seqNo + 1 + CostAll(before) + |f.payload| < LIMIT
    ensures var asked := Run(Step(s, Refresh(c, pid, {})), before);
            JustListed(Step(asked, Received(f, {})), c, pid, hs, asked.seqNo)
  {
    hide Step, Run, Mine, Accepted, Answer, Handles, CostAll, LaidOut, JustListed;
    LaidOutIsRead(c, Answer(f).payload, hs);
    ListReplyOpens(s, c, pid, before, f);
  }

  /** The fan-out takes as many numbers as it has questions. */
  lemma OneNumberEach(s: State, c: Category, p: Pending, f: Deci3Codec.Frame, lost: set<u32>)
    requires Accepted(f) && Mine(s, c) == map[Answer(f).reqId := p] && p.cmd == List(c)
    requires Handles(c, Answer(f).payload).Some? && Handles(c, Answer(f).payload).value != []
    requires s.seqNo + |f.payload| < LIMIT
    ensures Step(s, Received(f, lost)).seqNo == s.seqNo + Stride(c) * |Handles(c, Answer(f).payload).value|
  {
    hide Accepted, Answer, Handles, Ask, Listed;
    var q := Answer(f).reqId;
    assert q in Mine(s, c);
    IsMine(s, q, c);
    var hs := Handles(c, Answer(f).payload).value;
    HandlesAreFew(c, Answer(f).payload);
    AnswerIsShorter(f);
    var m := s.(pending := s.pending - {q}, accums := s.accums.With(c, Listed(c, s.accums.Of(c), p.pid, hs)));
    assert Mine(m, c) == Mine(s, c) - {q};
    AskMine(m, c, p.pid, hs, lost);
    assert Step(s, Received(f, lost)) == Ask(m, c, p.pid, hs, lost);
  }

  /** Numbers `q + 2i` and `q + 2i + 1` ask about process `i`, and nothing else is open. */
  predicate AsksTwice(open: map<u32, Pending>, pids: seq<u32>, q: u32) {
    q + 2 * |pids| <= LIMIT && ProcessListJoin.AsksBoth(open, pids, q)
    && forall k: u32 :: k in open ==> q <= k < q + 2 * |pids|
  }

  /** The same for processes: two questions per process, its information and its memory. */
  lemma ProcessesAreAskedAbout(s: State, pid: u32, before: seq<Event>, f: Deci3Codec.Frame, pids: seq<u32>)
    requires Mine(s, Process) == map[] && AllQuiet(before, Process)
    requires Accepted(f) && Answer(f).reqId == s.seqNo && NoneHits(before, map[s.seqNo := ListRequest(Process, pid)])
    requires LaidOut(Process, Answer(f).payload, pids) && pids != []
    requires s.seqNo + 1 + CostAll(before) + |f.payload| < LIMIT
    ensures var asked := Run(Step(s, Refresh(Process, pid, {})), before);
            var listed := Step(asked, Received(f, {}));
            AsksTwice(Mine(listed, Process), pids, asked.seqNo) && listed.seqNo == asked.seqNo + 2 * |pids|
  {
    hide Step, Run, Mine, Accepted, Answer, Handles, SignalsOf, Questions, CostAll, Hits, Older, LaidOut,
      ProcessListJoin.AsksBoth;
    LaidOutIsRead(Process, Answer(f).payload, pids);
    var started := Step(s, Refresh(Process, pid, {}));
    RefreshAsks(s, Process, pid);
    UnrelatedRun(started, Process, before);
    var asked := Run(started, before);
    ListAnswered(asked, Process, ListRequest(Process, pid), f, {});
    ProcessListJoin.ProcessQuestions(0, pids, asked.seqNo);
    OneNumberEach(asked, Process, ListRequest(Process, pid), f, {});
  }

  // ---------- what is announced ----------

  /** The shortest answer a category takes, and where an entry has its identity: the handle asked
    * about for a module, a 64-bit number for a thread, the first word else. */
  function Least(c: Category): nat {
    match c
    case Mutex => 68
    case LwMutex => 36
    case Cond => 36
    case EventQueue => 40
    case Module => 568
    case Thread => 36
    case Process => 28
  }

  function EntryOf(c: Category, h: Heard): Entry
    requires |h.payload| >= Least(c)
  {
    Entry(if c == Module then h.p.handle else if c == Thread then U64At(h.payload, 0) else U32At(h.payload, 0), h.payload)
  }

  /** The answers that are long enough, each as the entry it holds. */
  function Taken(c: Category, heard: seq<Heard>): seq<Entry> {
    if heard == [] then []
    else
      var h := heard[|heard| - 1];
      Taken(c, heard[..|heard| - 1]) + if |h.payload| >= Least(c) then [EntryOf(c, h)] else []
  }

  lemma {:induction false} EntriesAreTaken(c: Category, pid: u32, hs: seq<u32>, heard: seq<Heard>)
    requires c != Process && BelongTo(heard, c, pid, hs)
    ensures Entries(heard) == Taken(c, heard)
  {
    if heard != [] {
      EntriesAreTaken(c, pid, hs, heard[..|heard| - 1]);
    }
  }

  /** From the bytes of the list to the signal. Whatever the order of the answers and whatever
    * else happens: nothing is announced before every listed item has been answered, and then
    * one signal with the entries of the answers that are long enough, in arrival order. */
  lemma ListIsAnnounced(s: State, c: Category, pid: u32, before: seq<Event>, f: Deci3Codec.Frame, lost: set<u32>,
                        after: seq<Event>, hs: seq<u32>)
    requires c != Process && Mine(s, c) == map[] && AllQuiet(before, c) && AllQuiet(after, c)
    requires Accepted(f) && Answer(f).reqId == s.seqNo && NoneHits(before, map[s.seqNo := ListRequest(c, pid)])
    requires LaidOut(c, Answer(f).payload, hs) && hs != [] && (IsSync(c) ==> NoRepeat(hs))
    requires s.seqNo + 1 + CostAll(before) + |f.payload| + CostAll(after) < LIMIT
    ensures var listed := Step(Run(Step(s, Refresh(c, pid, {})), before), Received(f, lost));
            var heard := Arrivals(Mine(listed, c), after);
            |heard| <= |hs| && (lost == {} ==> (|heard| == |hs| <==> Left(Mine(listed, c), after) == map[]))
            && SignalsOf(c, Run(listed, after).signals) ==
               SignalsOf(c, s.signals) + if |heard| == |hs| then [Ready(c, pid, Taken(c, heard))] else []
  {
    hide Step, Run, Mine, Accepted, Answer, Handles, SignalsOf, Questions, Arrivals, Left, Entries, Taken, CostAll, Hits,
      LaidOut, NoRepeat, AsksEach;
    LaidOutIsRead(c, Answer(f).payload, hs);
    FanOutCompletes(s, c, pid, before, f, lost, after);
    ListIsAskedAbout(s, c, pid, before, f, lost, hs);
    var asked := Run(Step(s, Refresh(c, pid, {})), before);
    var listed := Step(asked, Received(f, lost));
    HeardBelongs(Mine(listed, c), c, pid, hs, asked.seqNo, lost, after);
    EntriesAreTaken(c, pid, hs, Arrivals(Mine(listed, c), after));
  }

  lemma HeardBelongs(open: map<u32, Pending>, c: Category, pid: u32, hs: seq<u32>, q: u32, lost: set<u32>, es: seq<Event>)
    requires c != Process && q + |hs| <= LIMIT && AsksEach(open, c, pid, hs, q, lost)
    ensures BelongTo(Arrivals(open, es), c, pid, hs)
  {
    hide Arrivals, Left;
    ArrivalsAnswer(open, es);
    var heard := Arrivals(open, es);
    forall i | 0 <= i < |heard| ensures heard[i].p == Pending(Info(c), pid, heard[i].p.handle) && heard[i].p.handle in hs {
      assert Closed(open, Left(open, es), heard[i].p);
    }
  }

  // ---------- lists of nothing ----------

  /** A list of nothing, or a thread list that is cut short: modules, threads and processes
    * announce an empty result, the four synchronisation kinds stay silent. */
  lemma NothingListed(s: State, c: Category, pid: u32, f: Deci3Codec.Frame, lost: set<u32>)
    requires Accepted(f) && Mine(s, c) == map[Answer(f).reqId := ListRequest(c, pid)]
    requires LaidOut(c, Answer(f).payload, []) || (c == Thread && CutShort(Answer(f).payload))
    ensures var t := Step(s, Received(f, lost));
            Mine(t, c) == map[]
            && SignalsOf(c, t.signals) == SignalsOf(c, s.signals)
                 + match c
                   case Module => [Ready(Module, pid, [])]
                   case Thread => [Ready(Thread, pid, [])]
                   case Process => [ProcessesReady([])]
                   case _ => []
  {
    hide Accepted, Answer, Handles, SignalsOf, LaidOut, CutShort, Mine;
    if LaidOut(c, Answer(f).payload, []) {
      LaidOutIsRead(c, Answer(f).payload, []);
      EmptyListReply(s, c, pid, f, lost);
    } else {
      CutShortIsNone(Answer(f).payload);
      MalformedList(s, pid, f, lost);
    }
  }

  predicate CutShort(payload: seq<byte>) {
    |payload| < 8 || |payload| < 8 + 8 * U32At(payload, 0) + 4 * U32At(payload, 4)
  }

  lemma CutShortIsNone(payload: seq<byte>)
    requires CutShort(payload)
    ensures Handles(Thread, payload) == None
  {
  }

  lemma MalformedList(s: State, pid: u32, f: Deci3Codec.Frame, lost: set<u32>)
    requires Accepted(f) && Mine(s, Thread) == map[Answer(f).reqId := ListRequest(Thread, pid)]
    requires Handles(Thread, Answer(f).payload) == None
    ensures var t := Step(s, Received(f, lost));
            Mine(t, Thread) == map[] && SignalsOf(Thread, t.signals) == SignalsOf(Thread, s.signals) + [Ready(Thread, pid, [])]
  {
    hide Accepted, Answer, Handles, SignalsOf;
    var q := Answer(f).reqId;
    assert q in Mine(s, Thread);
    IsMine(s, q, Thread);
    assert Mine(Step(s, Received(f, lost)), Thread) == Mine(s, Thread) - {q};
    SignalsOfSum(Thread, s.signals, [Ready(Thread, pid, [])]);
    AllAbout(Thread, [Ready(Thread, pid, [])]);
  }

  // ---------- containers and segments ----------

  /** Four words per container, in the order the console writes them. */
  predicate WordsOf(ws: seq<u32>, cs: seq<DbgpCodec.Container>) {
    |ws| == 4 * |cs| && forall i :: 0 <= i < |cs| ==>
      cs[i] == DbgpCodec.Container(ws[4 * i], ws[4 * i + 1], ws[4 * i + 2], ws[4 * i + 3])
  }

  /** A container list reads back: total, available, number and parent of each. */
  lemma ContainersReadBack(cs: seq<DbgpCodec.Container>, ws: seq<u32>, rest: seq<byte>)
    requires WordsOf(ws, cs) && |cs| < LIMIT
    ensures DbgpCodec.Containers(BigEndian(4, |cs|) + DbgpCodec.PutWords(ws) + rest) == Some(cs)
  {
    hide DbgpCodec.PutWords, DbgpCodec.ContainerAt, U32At, BigEndian;
    var front := BigEndian(4, |cs|);
    var p := front + DbgpCodec.PutWords(ws) + rest;
    assert p == front + (DbgpCodec.PutWords(ws) + rest);
    DbgpCodec.FirstWord(front, DbgpCodec.PutWords(ws) + rest, |cs|);
    var got := DbgpCodec.Containers(p).value;
    Divides(|p|, |cs|);
    assert |got| == |cs|;
    forall i | 0 <= i < |cs| ensures got[i] == cs[i] {
      WordsOfOne(front, ws, rest, 4 * i);
    }
    assert got == cs;
  }

  lemma WordsOfOne(front: seq<byte>, ws: seq<u32>, rest: seq<byte>, k: nat)
    requires k + 4 <= |ws|
    ensures DbgpCodec.ContainerAt(front + DbgpCodec.PutWords(ws) + rest, |front| + 4 * k)
            == DbgpCodec.Container(ws[k], ws[k + 1], ws[k + 2], ws[k + 3])
  {
    hide DbgpCodec.PutWords, U32At;
    DbgpCodec.WordsOfPut(front, ws, rest, k);
    DbgpCodec.WordsOfPut(front, ws, rest, k + 1);
    DbgpCodec.WordsOfPut(front, ws, rest, k + 2);
    DbgpCodec.WordsOfPut(front, ws, rest, k + 3);
  }

  lemma Divides(size: nat, n: nat)
    requires size >= 4 + 16 * n
    ensures DbgpCodec.AtMost(n, DbgpCodec.Fitting(size, 4, 16)) == n
  {
  }

  /** Seven long words per segment, in the order the console writes them. */
  predicate LongWordsOf(ws: seq<u64>, ss: seq<DbgpCodec.Segment>) {
    |ws| == 7 * |ss| && forall i :: 0 <= i < |ss| ==>
      ss[i] == DbgpCodec.Segment(ws[7 * i], ws[7 * i + 1], ws[7 * i + 2], ws[7 * i + 3], ws[7 * i + 4], ws[7 * i + 5],
                                 ws[7 * i + 6])
  }

  /** The segments of a module read back, behind the 564 bytes of its fixed part and their count. */
  lemma SegmentsReadBack(fixed: seq<byte>, ss: seq<DbgpCodec.Segment>, ws: seq<u64>, rest: seq<byte>)
    requires LongWordsOf(ws, ss) && |ss| < LIMIT && |fixed| == 564
    ensures DbgpCodec.Segments(fixed + BigEndian(4, |ss|) + DbgpCodec.PutLongWords(ws) + rest) == ss
  {
    hide DbgpCodec.PutLongWords, DbgpCodec.SegmentAt, U64At, U32At, BigEndian;
    var front := fixed + BigEndian(4, |ss|);
    var p := front + DbgpCodec.PutLongWords(ws) + rest;
    assert p[564..568] == BigEndian(4, |ss|);
    ReadU32(p, 564, |ss|);
    var got := DbgpCodec.Segments(p);
    DividesLong(|p|, |ss|);
    assert |got| == |ss|;
    forall i | 0 <= i < |ss| ensures got[i] == ss[i] {
      LongWordsOfOne(front, ws, rest, 7 * i);
    }
    assert got == ss;
  }

  lemma LongWordsOfOne(front: seq<byte>, ws: seq<u64>, rest: seq<byte>, k: nat)
    requires k + 7 <= |ws|
    ensures var p := front + DbgpCodec.PutLongWords(ws) + rest;
            DbgpCodec.SegmentAt(p, |front| + 8 * k)
            == DbgpCodec.Segment(ws[k], ws[k + 1], ws[k + 2], ws[k + 3], ws[k + 4], ws[k + 5], ws[k + 6])
  {
    hide DbgpCodec.PutLongWords, U64At;
    DbgpCodec.LongWordsOfPut(front, ws, rest, k);
    DbgpCodec.LongWordsOfPut(front, ws, rest, k + 1);
    DbgpCodec.LongWordsOfPut(front, ws, rest, k + 2);
    DbgpCodec.LongWordsOfPut(front, ws, rest, k + 3);
    DbgpCodec.LongWordsOfPut(front, ws, rest, k + 4);
    DbgpCodec.LongWordsOfPut(front, ws, rest, k + 5);
    DbgpCodec.LongWordsOfPut(front, ws, rest, k + 6);
  }

  lemma DividesLong(size: nat, n: nat)
    requires size >= 568 + 56 * n
    ensures DbgpCodec.AtMost(n, DbgpCodec.Fitting(size, 568, 56)) == n
  {
  }

  /** A request for the containers, and its answer whenever it comes: the listed containers are
    * announced for the process asked about. */
  lemma ContainersAnnounced(s: State, pid: u32, f: Deci3Codec.Frame, lost: set<u32>, cs: seq<DbgpCodec.Container>,
                            ws: seq<u32>, rest: seq<byte>)
    requires Accepted(f) && Answer(f).reqId in s.pending && s.pending[Answer(f).reqId] == Pending(Containers, pid, 0)
    requires WordsOf(ws, cs) && |cs| < LIMIT && Answer(f).payload == BigEndian(4, |cs|) + DbgpCodec.PutWords(ws) + rest
    ensures Step(s, Received(f, lost)) ==
            s.(pending := s.pending - {Answer(f).reqId}, signals := s.signals + [ContainersReady(pid, cs)])
  {
    hide Accepted, Answer, BigEndian, DbgpCodec.PutWords, DbgpCodec.Containers, WordsOf;
    ContainersReadBack(cs, ws, rest);
  }

  /** A frame of another category, under another session word, too short for a response, or
    * without the reply bit changes nothing. */
  lemma ForeignFramesIgnored(s: State, f: Deci3Codec.Frame, lost: set<u32>)
    requires f.category != 0x0200 || f.sessionB != 0x0210_0000 || |f.payload| < 21 || f.payload[0] < 0x80
    ensures Step(s, Received(f, lost)) == s
  {
  }

  /** Whose result is announced when an answer is one of an earlier refresh: the last refreshed
    * process for modules and synchronisation kinds, the process asked about for threads. */
  lemma AnnouncedFor(s: State, c: Category, f: Deci3Codec.Frame, lost: set<u32>)
    requires c != Process && Accepted(f) && Answer(f).reqId in s.pending && s.pending[Answer(f).reqId].cmd == Info(c)
    ensures var t := Step(s, Received(f, lost));
            var pid := if c == Thread then s.pending[Answer(f).reqId].pid else s.accums.Of(c).pid;
            t.signals == s.signals || t.signals == s.signals + [Ready(c, pid, t.accums.Of(c).info)]
  {
    hide Accepted, Answer, Without, Parsed;
    assert Suits(c, s.accums.Of(c));
  }

  /** A process list reply adds its processes, with nothing known of them, to those already there. */
  lemma ProcessListAppends(s: State, f: Deci3Codec.Frame, lost: set<u32>, pid: u32, pids: seq<u32>)
    requires Accepted(f) && Mine(s, Process) == map[Answer(f).reqId := ListRequest(Process, pid)]
    requires LaidOut(Process, Answer(f).payload, pids) && pids != [] && s.seqNo + |f.payload| < LIMIT
    ensures var a, b := s.accums.Of(Process), Step(s, Received(f, lost)).accums.Of(Process);
            b.gotList && b.left == a.left + pids && |b.summaries| == |a.summaries| + |pids|
            && b.summaries[..|a.summaries|] == a.summaries
            && forall i :: 0 <= i < |pids| ==> b.summaries[|a.summaries| + i] == Summary(pids[i], None, None)
  {
    hide Step, Mine, Accepted, Answer, Handles, Questions, LaidOut, Older;
    LaidOutIsRead(Process, Answer(f).payload, pids);
    ListAnswered(s, Process, ListRequest(Process, pid), f, lost);
  }
}
