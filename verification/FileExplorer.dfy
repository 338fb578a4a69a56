/** The file explorer: directory listings and file operations, found again by sequence
  * number. It opens the debug stream and takes its numbers through the session.
  */
module FileExplorer {
  import opened BeIo
  import opened Wrappers
  import Sessions = SessionController

  datatype Op = Delete | Rename | MakeDirectory | SetPermissions | SetTimes

  datatype Signal =
    | DirectoryListed(path: string, body: seq<byte>)
    | OpFinished(op: Option<Op>, marker: u32, status: u32)

  datatype State = State(path: string, openSeq: u32, listSeq: u32, ops: map<u32, Op>, signals: seq<Signal>)

  /** The controller beside the session it shares. */
  datatype Desk = Desk(session: Sessions.State, files: State)

  function Start(): State {
    State("", 0, 0, map[], [])
  }

  datatype Event =
    | ListDirectory(path: string, linkReady: bool, haveSettings: bool)
    | StartOp(op: Op, linkReady: bool, sent: bool)
    | Transfer(linkReady: bool, sent: bool)
    | OpReply(seqNo: u32, marker: u32, status: u32)
    | ListReply(seqNo: u32, body: seq<byte>)
    | SessionInvalidated

  function Taken(session: Sessions.State, n: nat): Sessions.State {
    session.(seqNo := SeqAfter(session.seqNo, n))
  }

  function SeqAfter(seqNo: u32, n: nat): u32 {
    (seqNo + n) % 0x1_0000_0000
  }

  lemma SeqAdds(q: u32, n: nat)
    ensures Sessions.NextSeq(SeqAfter(q, n)) == SeqAfter(q, n + 1)
    ensures SeqAfter(q, 0) == q
  {
  }

  /** How many requests open the stream: a probe, an init and, when the served directory has
    * a settings file, its transfer. A DEX console never asks for the transfer. */
  function OpeningRequests(session: Sessions.State, haveSettings: bool): nat {
    if session.streamOpen then 0 else if session.dex || !haveSettings then 2 else 3
  }

  /** Number zero counts as a failed send. */
  function Started(d: Desk, op: Option<Op>, sent: bool): Desk {
    var q := d.session.seqNo;
    Desk(Taken(d.session, 1),
         if sent && q != 0 && op.Some? then d.files.(ops := d.files.ops[q := op.value]) else d.files)
  }

  function Step(d: Desk, e: Event): Desk {
    match e
    case ListDirectory(path, linkReady, haveSettings) =>
      if !linkReady || !d.session.ready then d
      else
        var n := OpeningRequests(d.session, haveSettings);
        var own := if d.session.dex then 1 else 2;
        Desk(Taken(d.session, n + own).(streamOpen := true),
             d.files.(path := path,
                      openSeq := if d.session.dex then 0 else SeqAfter(d.session.seqNo, n),
                      listSeq := SeqAfter(d.session.seqNo, n + own - 1)))
    case StartOp(op, linkReady, sent) =>
      if !linkReady || !d.session.ready then d else Started(d, Some(op), sent)
    case Transfer(linkReady, sent) =>
      if !linkReady || !d.session.ready then d else Started(d, None, sent)
    case OpReply(q, marker, status) =>
      var op := if q in d.files.ops then Some(d.files.ops[q]) else None;
      d.(files := d.files.(ops := d.files.ops - {q}, signals := d.files.signals + [OpFinished(op, marker, status)]))
    case ListReply(q, body) =>
      if d.files.listSeq == 0 || q != d.files.listSeq then d
      else d.(files := d.files.(listSeq := 0, signals := d.files.signals + [DirectoryListed(d.files.path, body)]))
    case SessionInvalidated => d.(files := d.files.(openSeq := 0, listSeq := 0))
  }

  class Explorer {
    const session: Sessions.Session
    var pendingPath: string
    var openSeq: u32
    var listSeq: u32
    var pendingOps: map<u32, Op>
    var signals: seq<Signal>

    function Snapshot(): Desk
      reads this, session
    {
      Desk(session.Snapshot(), State(pendingPath, openSeq, listSeq, pendingOps, signals))
    }

    constructor (session: Sessions.Session)
      ensures this.session == session && Snapshot() == Desk(session.Snapshot(), Start())
    {
      this.session := session;
      pendingPath, openSeq, listSeq, pendingOps, signals := "", 0, 0, map[], [];
    }

    /** The requests in front of the first listing; they are sent whether or not the link
      * takes them. */
    method OpenStream(haveSettings: bool)
      modifies session
      ensures session.Snapshot() ==
              Taken(old(session.Snapshot()), OpeningRequests(old(session.Snapshot()), haveSettings)).(streamOpen := true)
      ensures session.dbgshlStreamOpen && session.dbgshlSeq as int == (old(session.dbgshlSeq) as int
                + if old(session.dbgshlStreamOpen) then 0 else if session.cfwDex || !haveSettings then 2 else 3) % 0x1_0000_0000
    {
      hide SeqAfter, Sessions.NextSeq;
      var first := session.dbgshlSeq;
      SeqAdds(first, 0);
      if session.dbgshlStreamOpen {
        return;
      }
      SeqAdds(first, 1);
      SeqAdds(first, 2);
      var _ := session.NextDbgshlSeq();
      var _ := session.NextDbgshlSeq();
      if !session.cfwDex && haveSettings {
        var _ := session.NextDbgshlSeq();
      }
      session.MarkDbgshlStreamOpen();
    }

    method OnListDirectory(path: string, linkReady: bool, haveSettings: bool)
      modifies this, session
      ensures Snapshot() == Step(old(Snapshot()), ListDirectory(path, linkReady, haveSettings))
      ensures if linkReady && old(session.sessionReady)
              then pendingPath == path && session.dbgshlStreamOpen && session.dbgshlSeq == Sessions.NextSeq(listSeq)
                   && (if session.cfwDex then openSeq == 0 else listSeq == Sessions.NextSeq(openSeq))
              else pendingPath == old(pendingPath) && listSeq == old(listSeq) && openSeq == old(openSeq)
                   && session.dbgshlSeq == old(session.dbgshlSeq) && session.dbgshlStreamOpen == old(session.dbgshlStreamOpen)
      ensures pendingOps == old(pendingOps) && signals == old(signals)
    {
      hide OpeningRequests, SeqAfter, Sessions.NextSeq;
      if !linkReady || !session.sessionReady {
        return;
      }
      pendingPath := path;
      ghost var n := OpeningRequests(session.Snapshot(), haveSettings);
      SeqAdds(session.dbgshlSeq, n);
      SeqAdds(session.dbgshlSeq, n + 1);
      OpenStream(haveSettings);
      if session.cfwDex {
        openSeq := 0;
        listSeq := session.NextDbgshlSeq();
      } else {
        openSeq := session.NextDbgshlSeq();
        listSeq := session.NextDbgshlSeq();
      }
    }

    method SendDfmp(linkReady: bool, sent: bool) returns (seqNo: u32)
      modifies session`dbgshlSeq
      ensures Snapshot() == if linkReady && old(session.sessionReady) then Started(old(Snapshot()), None, sent) else old(Snapshot())
      ensures seqNo == if linkReady && session.sessionReady && sent then old(session.dbgshlSeq) else 0
    {
      if !linkReady || !session.sessionReady {
        return 0;
      }
      seqNo := session.NextDbgshlSeq();
      if !sent {
        seqNo := 0;
      }
    }

    method OnStartOp(op: Op, linkReady: bool, sent: bool)
      modifies this`pendingOps, session`dbgshlSeq
      ensures Snapshot() == Step(old(Snapshot()), StartOp(op, linkReady, sent))
      ensures pendingOps == if linkReady && session.sessionReady && sent && old(session.dbgshlSeq) != 0
                            then old(pendingOps)[old(session.dbgshlSeq) := op] else old(pendingOps)
    {
      var q := SendDfmp(linkReady, sent);
      if q != 0 {
        pendingOps := pendingOps[q := op];
      }
    }

    method OnTransfer(linkReady: bool, sent: bool)
      modifies session`dbgshlSeq
      ensures Snapshot() == Step(old(Snapshot()), Transfer(linkReady, sent))
    {
      var _ := SendDfmp(linkReady, sent);
    }

    method OnDfmpOpReply(q: u32, marker: u32, status: u32)
      modifies this`pendingOps, this`signals
      ensures Snapshot() == Step(old(Snapshot()), OpReply(q, marker, status))
      ensures pendingOps == old(pendingOps) - {q}
      ensures signals == old(signals)
                + [OpFinished(if q in old(pendingOps) then Some(old(pendingOps)[q]) else None, marker, status)]
    {
      var op := if q in pendingOps then Some(pendingOps[q]) else None;
      pendingOps := pendingOps - {q};
      signals := signals + [OpFinished(op, marker, status)];
    }

    method OnDfmpGetEntriesReply(q: u32, body: seq<byte>)
      modifies this`listSeq, this`signals
      ensures Snapshot() == Step(old(Snapshot()), ListReply(q, body))
      ensures if q == old(listSeq) != 0
              then listSeq == 0 && signals == old(signals) + [DirectoryListed(pendingPath, body)]
              else listSeq == old(listSeq) && signals == old(signals)
    {
      if listSeq == 0 || q != listSeq {
        return;
      }
      signals := signals + [DirectoryListed(pendingPath, body)];
      listSeq := 0;
    }

    method OnSessionInvalidated()
      modifies this`openSeq, this`listSeq
      ensures Snapshot() == Step(old(Snapshot()), SessionInvalidated)
      ensures openSeq == 0 && listSeq == 0
    {
      openSeq := 0;
      listSeq := 0;
    }
  }
}
