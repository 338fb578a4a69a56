/** Containment over runs: every path the server hands to the host was inside the authorised
  * paths or the serving root when it was handed over.
  */
module HostFileServerBounds {
  import opened BeIo
  import opened Wrappers
  import opened HostPaths
  import opened HostFileServer
  import Drfp = DrfpCodec

  /** A directory that holds the console inside: not one made of ".." alone. */
  predicate Servable(dir: string) {
    dir == "" || Holding(IsAbsolute(dir), Reduce([], Split(dir)))
  }

  /** Whatever directory is set during the run can be served. */
  predicate ServesWell(es: seq<Event>) {
    forall e :: e in es ==> (e.ServeDir? ==> Servable(e.dir))
  }

  /** A root that keeps the console inside. */
  ghost predicate Rooted(s: State) {
    s.root == "" || exists absolute, rs: seq<string> :: IsRoot(s.root, absolute, rs)
  }

  predicate IsRoot(root: string, absolute: bool, rs: seq<string>) {
    Proper(rs) && root == Render(absolute, rs) && Holding(absolute, rs)
  }

  /** The server may hand this path to the host now. */
  ghost predicate Within(s: State, p: string) {
    p in s.transfers
    || exists absolute, rs: seq<string> ::
         IsRoot(s.root, absolute, rs) && Contained(p, s.transfers, absolute, rs) && p != ""
  }

  /** Whatever the console asks for, the path that goes to the host is within bounds. */
  lemma LocalIsWithin(s: State, q: Drfp.Request, off: nat)
    requires Rooted(s)
    ensures Local(s, q, off) == "" || Within(s, Local(s, q, off))
  {
    var kitPath := PathAt(q.payload, off);
    if s.root == "" {
      Unserved(s.transfers, kitPath);
    } else {
      var absolute, rs: seq<string> :| IsRoot(s.root, absolute, rs);
      HoldsInside(s.transfers, absolute, rs, kitPath);
    }
  }

  lemma Unserved(authorised: set<string>, kitPath: string)
    ensures Resolve(authorised, "", kitPath) == "" || Resolve(authorised, "", kitPath) in authorised
  {
    hide StripAppHome, Normalise;
  }

  datatype Kind = AFile | ADirectory

  /** The descriptor is open on this path. */
  predicate Holds(s: State, kind: Kind, fd: u32, p: string) {
    match kind
    case AFile => fd in s.files && s.files[fd].path == p
    case ADirectory => fd in s.dirs && s.dirs[fd].local == p
  }

  /** Each handle of `t` was there in `s`, or the step from `s` handed it out within bounds. */
  ghost predicate OpenedWithin(s: State, t: State) {
    forall kind: Kind, fd: u32, p: string :: Holds(t, kind, fd, p) ==>
      Holds(s, kind, fd, p) || (fd == s.nextFd != t.nextFd && Within(s, p))
  }

  lemma HandleOpensWithin(s: State, q: Drfp.Request, h: Host)
    requires Rooted(s) && q.code <= Drfp.LAST_CODE
    ensures var t := Handle(s, q, h).0;
      OpenedWithin(s, t) && t.root == s.root && t.transfers == s.transfers
  {
    hide OpenedWithin, Rooted, OnOpen, OnDopen;
    if q.code == Drfp.OPEN {
      OpenIsWithin(s, q, h);
    } else if q.code == Drfp.DOPEN {
      DopenIsWithin(s, q, h);
    } else {
      OthersOpenNothing(s, q, h);
    }
  }

  lemma OpenIsWithin(s: State, q: Drfp.Request, h: Host)
    requires Rooted(s)
    ensures var t := OnOpen(s, q, h).0;
      OpenedWithin(s, t) && t.root == s.root && t.transfers == s.transfers
  {
    hide Within, Rooted, Local, IsParamSfo, PathAt, OpenReply, ModeOf, Flag;
    LocalIsWithin(s, q, 8);
  }

  lemma DopenIsWithin(s: State, q: Drfp.Request, h: Host)
    requires Rooted(s)
    ensures var t := OnDopen(s, q, h).0;
      OpenedWithin(s, t) && t.root == s.root && t.transfers == s.transfers
  {
    hide Within, Rooted, Local, PathAt;
    LocalIsWithin(s, q, 0);
  }

  lemma OthersOpenNothing(s: State, q: Drfp.Request, h: Host)
    requires q.code <= Drfp.LAST_CODE && q.code != Drfp.OPEN && q.code != Drfp.DOPEN
    ensures var t := Handle(s, q, h).0;
      OpenedWithin(s, t) && t.root == s.root && t.transfers == s.transfers
  {
    hide Within, OnOpen, OnDopen, Local, PathAt, Result, ReadReply, SeekReply, DreadReply, Target, Mid;
  }

  lemma StepOpensWithin(s: State, e: Event)
    requires Rooted(s) && (e.ServeDir? ==> Servable(e.dir))
    ensures Rooted(Step(s, e).0) && OpenedWithin(s, Step(s, e).0)
  {
    hide Handle, Within, Chain, Normalise, Authorised, CleanPath, IsRoot;
    match e
    case ServeDir(dir) => CleanIsRoot(dir);
    case Frame(category, payload, h) =>
      if category == CATEGORY && Drfp.Parse(payload).Some? {
        HandleOpensWithin(s, Drfp.Parse(payload).value, h);
      }
    case _ =>
  }

  lemma CleanIsRoot(dir: string)
    requires Servable(dir)
    ensures CleanPath(dir) == "" || IsRoot(CleanPath(dir), IsAbsolute(dir), Reduce([], Split(dir)))
  {
    hide Split, Reduce;
    CleanSegments(dir);
  }

  /** The state before event `j` of a run. */
  function Before(sfo: seq<byte>, es: seq<Event>, j: nat): State
    requires j <= |es|
  {
    Run(Start(sfo), es[..j])
  }

  /** Event `i` of the run opened the descriptor on this path: the counter handed it out, the
    * path was allowed by what was authorised and served just then, the descriptor did not
    * hold it before, and has held it ever since. */
  ghost predicate OpenedAt(sfo: seq<byte>, es: seq<Event>, kind: Kind, fd: u32, p: string, i: nat)
    requires i < |es|
  {
    && fd == Before(sfo, es, i).nextFd != Before(sfo, es, i + 1).nextFd
    && Within(Before(sfo, es, i), p)
    && !Holds(Before(sfo, es, i), kind, fd, p)
    && forall j :: i < j <= |es| ==> Holds(Before(sfo, es, j), kind, fd, p)
  }

  /** Over every run that serves no directory but servable ones, every open handle has an
    * event that opened it, and its path was within bounds at that event. */
  lemma {:induction false} HandlesStayInside(sfo: seq<byte>, es: seq<Event>)
    requires ServesWell(es)
    ensures Rooted(Run(Start(sfo), es))
    ensures forall kind: Kind, fd: u32, p: string :: Holds(Run(Start(sfo), es), kind, fd, p) ==>
              exists i: nat :: i < |es| && OpenedAt(sfo, es, kind, fd, p, i)
    decreases |es|
  {
    hide Step, Within, Rooted, OpenedAt;
    if es == [] {
      NothingServed(sfo);
    } else {
      hide Holds;
      var n := |es| - 1;
      assert es[n] in es;
      assert forall e :: e in es[..n] ==> e in es;
      HandlesStayInside(sfo, es[..n]);
      var s, t := Run(Start(sfo), es[..n]), Run(Start(sfo), es);
      StepOpensWithin(s, es[n]);
      forall kind: Kind, fd: u32, p: string | Holds(t, kind, fd, p)
        ensures exists i: nat :: i < |es| && OpenedAt(sfo, es, kind, fd, p, i) {
        if Holds(s, kind, fd, p) {
          var i: nat :| i < n && OpenedAt(sfo, es[..n], kind, fd, p, i);
          StillOpen(sfo, es, kind, fd, p, i);
        } else {
          JustOpened(sfo, es, kind, fd, p);
        }
      }
    }
  }

  lemma NothingServed(sfo: seq<byte>)
    ensures Rooted(Start(sfo))
  {
  }

  lemma SameBefore(sfo: seq<byte>, es: seq<Event>, j: nat)
    requires j < |es|
    ensures Before(sfo, es[..|es| - 1], j) == Before(sfo, es, j)
  {
    assert es[..|es| - 1][..j] == es[..j];
  }

  lemma BeforeNothing(sfo: seq<byte>, es: seq<Event>)
    ensures Before(sfo, es, |es|) == Run(Start(sfo), es)
  {
    assert es[..|es|] == es;
  }

  lemma StillOpen(sfo: seq<byte>, es: seq<Event>, kind: Kind, fd: u32, p: string, i: nat)
    requires i < |es| - 1 && OpenedAt(sfo, es[..|es| - 1], kind, fd, p, i)
    requires Holds(Run(Start(sfo), es), kind, fd, p)
    ensures OpenedAt(sfo, es, kind, fd, p, i)
  {
    hide Run, Within, Holds, Before;
    SameBefore(sfo, es, i);
    SameBefore(sfo, es, i + 1);
    BeforeNothing(sfo, es);
    forall j | i < j <= |es| ensures Holds(Before(sfo, es, j), kind, fd, p) {
      if j < |es| {
        SameBefore(sfo, es, j);
      }
    }
  }

  lemma JustOpened(sfo: seq<byte>, es: seq<Event>, kind: Kind, fd: u32, p: string)
    requires es != []
    requires var s, t := Run(Start(sfo), es[..|es| - 1]), Run(Start(sfo), es);
      fd == s.nextFd != t.nextFd && Within(s, p) && !Holds(s, kind, fd, p) && Holds(t, kind, fd, p)
    ensures OpenedAt(sfo, es, kind, fd, p, |es| - 1)
  {
    hide Run, Within, Holds;
    BeforeNothing(sfo, es);
  }

  // ---------- requests that keep no handle ----------

  /** The host paths a request works on; none when it is refused before the host is asked. */
  function PathsOf(s: State, q: Drfp.Request): seq<string> {
    if q.code == Drfp.STAT || q.code == Drfp.RMDIR || q.code == Drfp.DOPEN || q.code == Drfp.UNLINK then
      Served(Local(s, q, 0))
    else if (q.code == Drfp.OPEN || q.code == Drfp.MKDIR || q.code == Drfp.TRUNCATE) && |q.payload| >= 8 then
      Served(Local(s, q, 8))
    else if q.code == Drfp.RENAME then
      var to := Local(s, q, |PathAt(q.payload, 0)| + 1);
      if Local(s, q, 0) == "" || to == "" then [] else [Local(s, q, 0), to]
    else []
  }

  function Served(p: string): seq<string> {
    if p == "" then [] else [p]
  }

  /** The requests that name a path and keep no handle on it. */
  predicate KeepsNoHandle(code: u32) {
    code == Drfp.MKDIR || code == Drfp.RMDIR || code == Drfp.RENAME || code == Drfp.UNLINK || code == Drfp.TRUNCATE
  }

  /** After every such run, each path a request works on is within bounds at that moment; and
    * a creating, removing, renaming or truncating request that has none is answered without
    * the host: whatever is on the disk, the reply is the same. */
  lemma RequestsStayInside(sfo: seq<byte>, es: seq<Event>, q: Drfp.Request, h: Host, other: Host)
    requires ServesWell(es)
    ensures var t := Run(Start(sfo), es);
      && (forall p :: p in PathsOf(t, q) ==> p != "" && Within(t, p))
      && (KeepsNoHandle(q.code) && PathsOf(t, q) == [] ==> Handle(t, q, h) == Handle(t, q, other))
  {
    hide Run, Within, Rooted, Local, PathAt, OpenedAt, Holds;
    HandlesStayInside(sfo, es);
    var t := Run(Start(sfo), es);
    LocalIsWithin(t, q, 0);
    LocalIsWithin(t, q, 8);
    LocalIsWithin(t, q, |PathAt(q.payload, 0)| + 1);
    if KeepsNoHandle(q.code) && PathsOf(t, q) == [] {
      RefusedWithoutTheHost(t, q, h, other);
    }
  }

  lemma RefusedWithoutTheHost(s: State, q: Drfp.Request, h: Host, other: Host)
    requires KeepsNoHandle(q.code) && PathsOf(s, q) == []
    ensures Handle(s, q, h) == Handle(s, q, other)
  {
    hide Local, PathAt, Result;
  }

  // ---------- authorising and forgetting ----------

  function AfterBoth(s: State, p: string): State {
    Step(Step(s, Authorise(p)).0, Forget(p)).0
  }

  /** Forgetting undoes authorising if and only if the path itself was not authorised before
    * and all its ancestors were: forgetting takes back the path and leaves the ancestors. */
  lemma ForgetUndoesAuthoriseIff(s: State, p: string)
    ensures AfterBoth(s, p) == s <==>
      Normalise(p) !in s.transfers && forall x :: x in Chain(p) && x != Normalise(p) ==> x in s.transfers
  {
    hide Chain, Normalise;
    var after := AfterBoth(s, p).transfers;
    forall x: string ensures x in after <==> (x in s.transfers || x in Chain(p)) && x != Normalise(p) {
    }
  }

  /** A drive ancestor still resolves to itself after its path has been forgotten. */
  lemma AncestorsOutliveForget(s: State, p: string, a: string, asked: string)
    requires a in Chain(p) && a != Normalise(p) && HasDrive(a) && Slashes(asked) == a
    ensures var t := AfterBoth(s, p);
      Resolve(t.transfers, t.root, APP_HOME + "/" + asked) == a
  {
    hide Chain, Normalise, Resolve;
    var t := AfterBoth(s, p);
    assert a in t.transfers;
    OneAuthorisedIsEnough(p, t.transfers, t.root, a, asked);
  }
}
