/** What the user of the file explorer is told, over whole runs of the controllers together:
  * an operation or a listing that was started is reported under its own name when its own
  * frame arrives, whatever happened in between.
  */
module FileExplorerRuns {
  import opened BeIo
  import opened Wrappers
  import Deci3Codec
  import F = FileExplorer
  import K = KernelExplorer
  import S = SessionController
  import opened SharedCounter

  // ---------- frames by their words ----------

  /** A file reply: category, direction and first word, then number, length, status and body. */
  predicate IsFileReply(f: Deci3Codec.Frame, q: u32) {
    f.category == 0x0200 && f.direction == 0x5448 && |f.payload| >= 20
    && U32At(f.payload, 0) == 0x8020_000F && U32At(f.payload, 4) == q
  }

  /** The body: as long as its length word says, or as long as there is. */
  function BodyOf(f: Deci3Codec.Frame): seq<byte>
    requires |f.payload| >= 20
  {
    var n := U32At(f.payload, 8);
    if n as int + 16 <= |f.payload| then f.payload[16..16 + n] else f.payload[16..]
  }

  /** Delete, rename, make a directory, set permissions, set times. */
  predicate EndsOperation(marker: u32) {
    marker == 0x09 || marker == 0x0B || marker == 0x0D || marker == 0x17 || marker == 0x19
  }

  /** Two replies are meant for nobody here: a transfer's end and its acknowledgement. */
  predicate EndsTransfer(marker: u32, size: nat) {
    (marker == 0x11 && size >= 16) || marker == 0x13
  }

  /** A reply to an operation reports it with its marker and status, and retires it. */
  lemma OperationReported(w: World, f: Deci3Codec.Frame, lost: set<u32>, q: u32, marker: u32)
    requires IsFileReply(f, q) && |BodyOf(f)| >= 8 && U32At(f.payload, 20) == marker && EndsOperation(marker)
    ensures Step(w, Arrived(f, lost)).files ==
            w.files.(ops := w.files.ops - {q},
                     signals := w.files.signals
                       + [F.OpFinished(if q in w.files.ops then Some(w.files.ops[q]) else None, marker, U32At(f.payload, 12))])
  {
    hide K.Step;
    assert Routed(f) == Some(F.OpReply(q, marker, U32At(f.payload, 12)));
  }

  /** A reply with any other marker answers the outstanding listing, if the number is its own. */
  lemma ListingReported(w: World, f: Deci3Codec.Frame, lost: set<u32>, q: u32, marker: u32)
    requires IsFileReply(f, q) && marker == (if |BodyOf(f)| >= 8 then U32At(f.payload, 20) else 0)
    requires !EndsOperation(marker) && !EndsTransfer(marker, |BodyOf(f)|)
    ensures Step(w, Arrived(f, lost)).files ==
            if q == w.files.listSeq != 0
            then w.files.(listSeq := 0, signals := w.files.signals + [F.DirectoryListed(w.files.path, BodyOf(f))])
            else w.files
  {
    hide K.Step;
    assert f.payload[16..] == f.payload[16..|f.payload|];
    assert Routed(f) == Some(F.ListReply(q, BodyOf(f)));
  }

  /** Every other frame leaves the file explorer alone. */
  lemma OtherFramesPass(w: World, f: Deci3Codec.Frame, lost: set<u32>)
    requires |f.payload| < 20 || !IsFileReply(f, U32At(f.payload, 4))
    ensures Step(w, Arrived(f, lost)).files == w.files
  {
    hide K.Step;
    assert Routed(f) == None;
  }

  // ---------- until its own frame arrives ----------

  /** The event is no file reply with this number. */
  predicate LeavesOpen(e: Event, q: u32) {
    e.Arrived? ==> !IsFileReply(e.frame, q)
  }

  lemma OperationStays(w: World, e: Event, q: u32)
    requires Apart(w) && Genuine(e) && q in w.files.ops && LeavesOpen(e, q)
    requires w.session.seqNo + Cost(e) < 0x1_0000_0000
    ensures q in Step(w, e).files.ops && Step(w, e).files.ops[q] == w.files.ops[q]
  {
    hide K.Step, S.Step;
    assert q < w.session.seqNo;
    if e.Arrived? && Routed(e.frame).Some? {
      RoutedIsReply(e.frame);
    }
  }

  lemma ListingStays(w: World, e: Event)
    requires Apart(w) && Genuine(e) && w.files.listSeq != 0 && LeavesOpen(e, w.files.listSeq)
    requires !(e.OfFiles? && e.f.ListDirectory?)
    ensures Step(w, e).files.listSeq == w.files.listSeq && Step(w, e).files.path == w.files.path
  {
    hide K.Step, S.Step;
    if e.Arrived? && Routed(e.frame).Some? {
      RoutedIsReply(e.frame);
    }
  }

  predicate AllLeaveOpen(es: seq<Event>, q: u32) {
    forall i :: 0 <= i < |es| ==> LeavesOpen(es[i], q)
  }

  predicate NoListing(es: seq<Event>) {
    forall i :: 0 <= i < |es| ==> !(es[i].OfFiles? && es[i].f.ListDirectory?)
  }

  lemma Before(w: World, es: seq<Event>)
    requires es != [] && WithinEpoch(w, es)
    ensures WithinEpoch(w, es[..|es| - 1])
  {
    hide Cost, Restarts, Run;
    var n := |es| - 1;
    assert forall i :: 0 <= i < n ==> es[..n][..i] == es[..i];
  }

  /** Within an epoch an operation stays in the table until its own reply. */
  lemma {:induction false} OperationLasts(w: World, es: seq<Event>, q: u32)
    requires Apart(w) && WithinEpoch(w, es) && q in w.files.ops && AllLeaveOpen(es, q)
    ensures q in Run(w, es).files.ops && Run(w, es).files.ops[q] == w.files.ops[q]
  {
    if es != [] {
      hide Step, Apart, LeavesOpen, Cost, Genuine;
      var n := |es| - 1;
      Before(w, es);
      OperationLasts(w, es[..n], q);
      TablesStayApart(w, es[..n]);
      OperationStays(Run(w, es[..n]), es[n], q);
    }
  }

  lemma {:induction false} ListingLasts(w: World, es: seq<Event>)
    requires Apart(w) && WithinEpoch(w, es) && w.files.listSeq != 0 && AllLeaveOpen(es, w.files.listSeq) && NoListing(es)
    ensures Run(w, es).files.listSeq == w.files.listSeq && Run(w, es).files.path == w.files.path
  {
    if es != [] {
      hide Step, Apart, LeavesOpen, Cost, Genuine;
      var n := |es| - 1;
      Before(w, es);
      ListingLasts(w, es[..n]);
      TablesStayApart(w, es[..n]);
      ListingStays(Run(w, es[..n]), es[n]);
    }
  }

  // ---------- main results ----------

  /** An operation that goes out is reported as what it is, whenever its reply comes and
    * whatever else happens in its epoch. */
  lemma StartedIsReported(w: World, op: F.Op, es: seq<Event>, f: Deci3Codec.Frame, lost: set<u32>, marker: u32)
    requires Apart(w) && w.session.ready && w.session.seqNo != 0 && w.session.seqNo + 1 < 0x1_0000_0000
    requires WithinEpoch(Step(w, OfFiles(F.StartOp(op, true, true))), es) && AllLeaveOpen(es, w.session.seqNo)
    requires IsFileReply(f, w.session.seqNo) && |BodyOf(f)| >= 8 && U32At(f.payload, 20) == marker && EndsOperation(marker)
    ensures var before := Run(Step(w, OfFiles(F.StartOp(op, true, true))), es).files;
            var after := Step(Run(Step(w, OfFiles(F.StartOp(op, true, true))), es), Arrived(f, lost)).files;
            after.signals == before.signals + [F.OpFinished(Some(op), marker, U32At(f.payload, 12))]
            && w.session.seqNo !in after.ops
  {
    hide Run, Apart, WithinEpoch, IsFileReply, BodyOf;
    var e := OfFiles(F.StartOp(op, true, true));
    var v := Step(w, e);
    StartIsKept(w, op);
    OperationLasts(v, es, w.session.seqNo);
    OperationReported(Run(v, es), f, lost, w.session.seqNo, marker);
  }

  lemma StartIsKept(w: World, op: F.Op)
    requires Apart(w) && w.session.ready && w.session.seqNo != 0 && w.session.seqNo + 1 < 0x1_0000_0000
    ensures var v := Step(w, OfFiles(F.StartOp(op, true, true)));
            Apart(v) && w.session.seqNo in v.files.ops && v.files.ops[w.session.seqNo] == op
  {
    ApartStep(w, OfFiles(F.StartOp(op, true, true)));
    hide Apart;
  }

  /** A listing is reported for the directory that was asked for, with the body of its reply,
    * unless another one is asked for in between. */
  lemma ListedIsReported(w: World, path: string, have: bool, es: seq<Event>, f: Deci3Codec.Frame, lost: set<u32>, marker: u32)
    requires Apart(w) && w.session.ready && w.session.seqNo != 0 && w.session.seqNo + 5 < 0x1_0000_0000
    requires WithinEpoch(Step(w, OfFiles(F.ListDirectory(path, true, have))), es) && NoListing(es)
    requires var q := Step(w, OfFiles(F.ListDirectory(path, true, have))).files.listSeq;
             AllLeaveOpen(es, q) && IsFileReply(f, q)
    requires marker == (if |BodyOf(f)| >= 8 then U32At(f.payload, 20) else 0)
    requires !EndsOperation(marker) && !EndsTransfer(marker, |BodyOf(f)|)
    ensures var before := Run(Step(w, OfFiles(F.ListDirectory(path, true, have))), es).files;
            var after := Step(Run(Step(w, OfFiles(F.ListDirectory(path, true, have))), es), Arrived(f, lost)).files;
            after.signals == before.signals + [F.DirectoryListed(path, BodyOf(f))] && after.listSeq == 0
  {
    hide Run, Apart, WithinEpoch, IsFileReply, BodyOf;
    var e := OfFiles(F.ListDirectory(path, true, have));
    var v := Step(w, e);
    ListingIsKept(w, path, have);
    ListingLasts(v, es);
    ListingReported(Run(v, es), f, lost, v.files.listSeq, marker);
  }

  lemma ListingIsKept(w: World, path: string, have: bool)
    requires Apart(w) && w.session.ready && w.session.seqNo != 0 && w.session.seqNo + 5 < 0x1_0000_0000
    ensures var v := Step(w, OfFiles(F.ListDirectory(path, true, have)));
            Apart(v) && v.files.listSeq != 0 && v.files.path == path
  {
    ApartStep(w, OfFiles(F.ListDirectory(path, true, have)));
    hide Apart;
  }
}
