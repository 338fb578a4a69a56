/** The events a client passes on are the events broadcast to it, in order and each once. */
module RpcEvents {
  import opened BeIo
  import opened Wrappers
  import opened RpcLines
  import opened RpcMessages
  import C = RpcClient
  import S = RpcServer
  import opened RpcSystem
  import opened RpcPairing

  /** What the client had passed on when its last link went. */
  function Kept(codec: Codec, serve: S.Serve, es: seq<Event>): seq<Message> {
    if es == [] then []
    else
      var n := |es| - 1;
      if Unlinks(es[n]) then Run(codec, serve, es[..n]).client.notices else Kept(codec, serve, es[..n])
  }

  /** The events broadcast while the present link was live, in order. */
  function Told(codec: Codec, serve: S.Serve, es: seq<Event>): seq<Message> {
    if es == [] then []
    else
      var n := |es| - 1;
      var e := es[n];
      if Unlinks(e) then []
      else
        Told(codec, serve, es[..n])
        + if e.Broadcasts? && Run(codec, serve, es[..n]).server.writable then [Notice(e.target, e.event, e.params)] else []
  }

  lemma SeenIn(codec: Codec, sys: System, f: Flow)
    requires Refines(codec, sys, f)
    ensures f.linked == sys.server.writable && f.client.notices == sys.client.notices
  {
  }

  lemma OnwardIsTold(codec: Codec, serve: S.Serve, es: seq<Event>)
    requires es != []
    ensures var before := es[..|es| - 1]; var sys := Run(codec, serve, before);
            Kept(codec, serve, es) + Told(codec, serve, es)
            == Onward(sys.server.writable, sys.client.notices, Kept(codec, serve, before) + Told(codec, serve, before), es[|es| - 1])
  {
    hide Run;
  }

  lemma {:induction false} PipelineIsTold(codec: Codec, serve: S.Serve, es: seq<Event>) returns (f: Flow)
    requires Lawful(codec)
    ensures Refines(codec, Run(codec, serve, es), f) && Sound(serve, f)
    ensures Pipeline(f) == Kept(codec, serve, es) + Told(codec, serve, es)
  {
    if es == [] {
      f := StartRefines(codec, serve);
      NothingToldYet(codec, serve, f);
    } else {
      hide Step, Sound, Lawful, Pipeline, Refines, Kept, Told, Onward;
      var n := |es| - 1;
      var g := PipelineIsTold(codec, serve, es[..n]);
      SeenIn(codec, Run(codec, serve, es[..n]), g);
      f := StepRefines(codec, serve, Run(codec, serve, es[..n]), g, es[n]);
      OnwardIsTold(codec, serve, es);
    }
  }

  lemma NothingToldYet(codec: Codec, serve: S.Serve, f: Flow)
    requires Refines(codec, Start(), f)
    requires f.down == []
    ensures Pipeline(f) == Kept(codec, serve, []) + Told(codec, serve, [])
  {
  }

  /** Over every run, cutting and interleaving: on the present link the client has passed on a
    * prefix of the events broadcast while it was live, in order and each once, behind what it
    * had passed on before; on an idle link it has passed on all of them. */
  lemma EventsArriveInOrder(codec: Codec, serve: S.Serve, es: seq<Event>)
    requires Lawful(codec)
    ensures var sys := Run(codec, serve, es);
            Kept(codec, serve, es) <= sys.client.notices <= Kept(codec, serve, es) + Told(codec, serve, es)
            && (Idle(sys) ==> sys.client.notices == Kept(codec, serve, es) + Told(codec, serve, es))
  {
    var f := PipelineIsTold(codec, serve, es);
    KeptStays(codec, serve, es);
    var sys := Run(codec, serve, es);
    assert sys.client.notices == f.client.notices;
    if Idle(sys) {
      WireIsNotEmpty(codec, f.down);
      assert f.client.notices + [] == f.client.notices;
    }
  }

  lemma {:induction false} KeptStays(codec: Codec, serve: S.Serve, es: seq<Event>)
    ensures Kept(codec, serve, es) <= Run(codec, serve, es).client.notices
  {
    if es != [] {
      hide Step;
      var n := |es| - 1;
      KeptStays(codec, serve, es[..n]);
      NoticesGrow(codec, serve, Run(codec, serve, es[..n]), es[n]);
    }
  }

  lemma NoticesGrow(codec: Codec, serve: S.Serve, sys: System, e: Event)
    ensures sys.client.notices <= Step(codec, serve, sys, e).client.notices
    ensures Unlinks(e) ==> sys.client.notices == Step(codec, serve, sys, e).client.notices
  {
    hide SplitLines, C.HandleLines, C.DropsOf, S.Receive;
    match e
    case ClientReads(n) =>
      var data := sys.server.out[..AtMost(n, |sys.server.out|)];
      var split := SplitLines(sys.client.buf + data);
      LinesAddNotices(codec, sys.client.(buf := split.rest), split.lines);
    case _ =>
  }

  lemma {:induction false} LinesAddNotices(codec: Codec, c: C.Client, lines: seq<Line>)
    ensures c.notices <= C.HandleLines(codec, c, lines).notices
    decreases |lines|
  {
    if lines != [] {
      LinesAddNotices(codec, C.HandleLine(codec, c, lines[0]), lines[1..]);
    }
  }

  /** All events broadcast while a link was live. */
  function Broadcast(codec: Codec, serve: S.Serve, es: seq<Event>): seq<Message> {
    if es == [] then []
    else
      var n := |es| - 1;
      var e := es[n];
      Broadcast(codec, serve, es[..n])
      + if e.Broadcasts? && Run(codec, serve, es[..n]).server.writable then [Notice(e.target, e.event, e.params)] else []
  }

  /** With one connection: the client passes on a prefix of all events broadcast to it, and all
    * of them once everything has been processed. */
  lemma EveryEventArrives(codec: Codec, serve: S.Serve, es: seq<Event>)
    requires Lawful(codec) && OneConnection(es)
    ensures var sys := Run(codec, serve, es);
            sys.client.notices <= Broadcast(codec, serve, es)
            && (Idle(sys) ==> sys.client.notices == Broadcast(codec, serve, es))
  {
    EventsArriveInOrder(codec, serve, es);
    OneLinkTells(codec, serve, es);
  }

  lemma {:induction false} OneLinkTells(codec: Codec, serve: S.Serve, es: seq<Event>)
    requires Lawful(codec) && OneConnection(es)
    ensures Kept(codec, serve, es) + Told(codec, serve, es) <= Broadcast(codec, serve, es)
    ensures Run(codec, serve, es).server.writable ==>
              Kept(codec, serve, es) + Told(codec, serve, es) == Broadcast(codec, serve, es)
  {
    if es != [] {
      hide Step;
      var n := |es| - 1;
      assert OneConnection(es[..n]);
      OneLinkTells(codec, serve, es[..n]);
      EventsArriveInOrder(codec, serve, es[..n]);
      LinkLasts(codec, serve, Run(codec, serve, es[..n]), es[n]);
      if n == 0 {
        assert es[..0] == [];
      }
    }
  }

  lemma LinkLasts(codec: Codec, serve: S.Serve, sys: System, e: Event)
    ensures var v := Step(codec, serve, sys, e);
            if Unlinks(e) then v.server.writable ==> e.Connects? else v.server.writable == sys.server.writable
  {
    hide SplitLines, C.HandleLines, C.DropsOf;
    match e
    case ServerReads(n) =>
      var data := sys.up[..AtMost(n, |sys.up|)];
      var split := SplitLines(sys.server.buf + data);
      LinesKeepLink(codec, serve, sys.server.(buf := split.rest), split.lines);
    case _ =>
  }

  lemma {:induction false} LinesKeepLink(codec: Codec, serve: S.Serve, s: S.Session, lines: seq<Line>)
    ensures S.ServeLines(codec, serve, s, lines).writable == s.writable
    decreases |lines|
  {
    if lines != [] {
      LinesKeepLink(codec, serve, S.ServeLine(codec, serve, s, lines[0]), lines[1..]);
    }
  }
}
