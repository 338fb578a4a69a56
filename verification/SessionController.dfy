/** The session: two tokens, readiness, the stream flag and the request counter that the
  * other controllers share.
  *
  * `marks` records, in order, the signals that open and close an epoch. What is sent to
  * the console on the way is not part of the state.
  */
module SessionController {
  import opened BeIo
  import opened Wrappers

  const FIRST_SEQ: u32 := 0x1000
  const SEQ_LIMIT: nat := 0x1_0000_0000

  datatype Mark = SessionReady(token: u16, subToken: u16) | Invalidated | LinkLost

  datatype State = State(
    token: u16,
    subToken: u16,
    ready: bool,
    streamOpen: bool,
    seqNo: u32,
    dex: bool,
    marks: seq<Mark>)

  datatype Event =
    | LinkDown
    | Token(token: u16)
    | SubToken(subToken: u16)
    | HandshakeAcked(msecs: nat)
    | Reaped(token: u16)
    | Rejected(kind: byte)
    | TargetCameUp
    | DebugAgentUp
    | DexReply(cmd: u16)

  function Start(dex: bool): State {
    State(0, 0, false, false, FIRST_SEQ, dex, [])
  }

  /** The rejections that say the console itself is gone. */
  predicate KitIsDown(kind: byte) {
    kind == 1 || kind == 2 || kind == 3 || kind == 4 || kind == 5
  }

  function NextSeq(seqNo: u32): u32 {
    (seqNo as int + 1) % SEQ_LIMIT
  }

  /** The session word that debug requests are sent under. */
  function DbgshlWord(dex: bool): u32 {
    if dex then 0x0010_0000 else 0x0210_0000
  }

  /** Where a handshake restarts the counter. */
  function RestartedSeq(msecs: nat): u32 {
    FIRST_SEQ + msecs % 0x4000
  }

  const DEX_LPAR_STATE: u16 := 0x3101

  /** A DEX console is brought up by a chain of requests, each sent on the reply before it. */
  function NextDexRequest(reply: u16): Option<u16> {
    match reply
    case 0x0103 => Some(0x3000)
    case 0x3001 => Some(0x3200)
    case 0x3201 => Some(0x4100)
    case 0x4101 => Some(0x4102)
    case 0x4103 => Some(0x3100)
    case _ => None
  }

  const DEX_SESSION_INIT: u16 := 0x0102

  /** What the console has replied with after answering `n` requests of the chain: the reply
    * to a request is the request's code plus one. */
  function DexReplyAfter(n: nat): Option<u16> {
    if n == 0 then Some(DEX_SESSION_INIT + 1)
    else
      match DexReplyAfter(n - 1)
      case None => None
      case Some(reply) =>
        match NextDexRequest(reply)
        case None => None
        case Some(request) => if request < 0xFFFF then Some(request + 1) else None
  }

  /** A console that answers everything reaches the reply that makes the session ready, after
    * five requests on top of the first, and not before. */
  lemma DexChainEndsReady(s: State, n: nat)
    requires s.dex && !s.ready && DexReplyAfter(n).Some?
    ensures n <= 5 && (Step(s, DexReply(DexReplyAfter(n).value)).ready <==> n == 5)
  {
    assert DexReplyAfter(0) == Some(0x0103) && DexReplyAfter(1) == Some(0x3001) && DexReplyAfter(2) == Some(0x3201);
    assert DexReplyAfter(3) == Some(0x4101) && DexReplyAfter(4) == Some(0x4103) && DexReplyAfter(5) == Some(0x3101);
    assert DexReplyAfter(6) == None;
    NothingAfterTheChain(n);
  }

  lemma {:induction false} NothingAfterTheChain(n: nat)
    requires DexReplyAfter(6) == None
    ensures n >= 6 ==> DexReplyAfter(n) == None
  {
    if n > 6 {
      NothingAfterTheChain(n - 1);
    }
  }

  function Step(s: State, e: Event): State {
    match e
    case LinkDown =>
      s.(token := 0, subToken := 0, ready := false, streamOpen := false, marks := s.marks + [LinkLost])
    case Token(token) => if s.token != 0 then s else s.(token := token)
    case SubToken(sub) => if s.subToken != 0 then s else s.(subToken := sub)
    case HandshakeAcked(msecs) =>
      if s.subToken == 0 || s.ready then s
      else s.(ready := true, streamOpen := false, seqNo := RestartedSeq(msecs),
              marks := s.marks + [SessionReady(s.token, s.subToken)])
    case Reaped(token) =>
      if s.token == 0 || token != s.token then s
      else s.(token := 0, subToken := 0, ready := false, streamOpen := false, marks := s.marks + [Invalidated])
    case Rejected(kind) =>
      var t := s.(streamOpen := false);
      if KitIsDown(kind) && s.ready then t.(ready := false, marks := s.marks + [Invalidated]) else t
    case TargetCameUp => if s.token == 0 then s else s.(streamOpen := false)
    case DebugAgentUp => s.(streamOpen := false)
    case DexReply(cmd) =>
      if !s.dex || s.ready || cmd != DEX_LPAR_STATE then s
      else s.(ready := true, marks := s.marks + [SessionReady(s.token, s.subToken)])
  }

  class Session {
    var sessionToken: u16
    var subToken: u16
    var sessionReady: bool
    var dbgshlStreamOpen: bool
    var dbgshlSeq: u32
    var cfwDex: bool
    var marks: seq<Mark>

    function Snapshot(): State
      reads this
    {
      State(sessionToken, subToken, sessionReady, dbgshlStreamOpen, dbgshlSeq, cfwDex, marks)
    }

    constructor (dex: bool)
      ensures Snapshot() == Start(dex)
      ensures dbgshlSeq == 0x1000 && sessionToken == 0 && subToken == 0 && !sessionReady && !dbgshlStreamOpen && marks == []
    {
      sessionToken, subToken, sessionReady, dbgshlStreamOpen, dbgshlSeq := 0, 0, false, false, FIRST_SEQ;
      cfwDex, marks := dex, [];
    }

    method NextDbgshlSeq() returns (seqNo: u32)
      modifies this`dbgshlSeq
      ensures seqNo == old(dbgshlSeq) && dbgshlSeq == NextSeq(seqNo)
      ensures dbgshlSeq == if seqNo == 0xffff_ffff then 0 else seqNo + 1
    {
      seqNo := dbgshlSeq;
      dbgshlSeq := NextSeq(dbgshlSeq);
    }

    method MarkDbgshlStreamOpen()
      modifies this`dbgshlStreamOpen
      ensures Snapshot() == old(Snapshot()).(streamOpen := true)
    {
      dbgshlStreamOpen := true;
    }

    method OnConnectionLost()
      modifies this
      ensures Snapshot() == Step(old(Snapshot()), LinkDown)
      ensures sessionToken == 0 && subToken == 0 && !sessionReady && !dbgshlStreamOpen && marks == old(marks) + [LinkLost]
    {
      sessionToken := 0;
      subToken := 0;
      sessionReady := false;
      dbgshlStreamOpen := false;
      marks := marks + [LinkLost];
    }

    method OnSessionToken(token: u16)
      modifies this`sessionToken
      ensures Snapshot() == Step(old(Snapshot()), Token(token))
      ensures sessionToken == if old(sessionToken) == 0 then token else old(sessionToken)
    {
      if sessionToken != 0 {
        return;
      }
      sessionToken := token;
    }

    method OnSubToken(sub: u16)
      modifies this`subToken
      ensures Snapshot() == Step(old(Snapshot()), SubToken(sub))
      ensures subToken == if old(subToken) == 0 then sub else old(subToken)
    {
      if subToken != 0 {
        return;
      }
      subToken := sub;
    }

    method OnHandshakeAcked(msecs: nat)
      modifies this
      ensures Snapshot() == Step(old(Snapshot()), HandshakeAcked(msecs))
      ensures sessionReady <==> old(sessionReady) || old(subToken) != 0
      ensures if sessionReady && !old(sessionReady)
              then 0x1000 <= dbgshlSeq < 0x5000 && (dbgshlSeq as int - 0x1000 - msecs) % 0x4000 == 0 && !dbgshlStreamOpen
                   && marks == old(marks) + [SessionReady(sessionToken, subToken)]
              else dbgshlSeq == old(dbgshlSeq) && dbgshlStreamOpen == old(dbgshlStreamOpen) && marks == old(marks)
    {
      if subToken == 0 || sessionReady {
        return;
      }
      sessionReady := true;
      dbgshlSeq := RestartedSeq(msecs);
      dbgshlStreamOpen := false;
      marks := marks + [SessionReady(sessionToken, subToken)];
    }

    method OnSessionReaped(reaped: u16)
      modifies this
      ensures Snapshot() == Step(old(Snapshot()), Reaped(reaped))
      ensures if old(sessionToken) == reaped != 0
              then sessionToken == 0 && subToken == 0 && !sessionReady && !dbgshlStreamOpen && marks == old(marks) + [Invalidated]
              else sessionToken == old(sessionToken) && sessionReady == old(sessionReady) && marks == old(marks)
    {
      if sessionToken == 0 || reaped != sessionToken {
        return;
      }
      sessionToken := 0;
      subToken := 0;
      sessionReady := false;
      dbgshlStreamOpen := false;
      marks := marks + [Invalidated];
    }

    method OnServerRejection(kind: byte)
      modifies this
      ensures Snapshot() == Step(old(Snapshot()), Rejected(kind))
      ensures !dbgshlStreamOpen && (sessionReady <==> old(sessionReady) && !(1 <= kind <= 5))
      ensures marks == old(marks) + if sessionReady != old(sessionReady) then [Invalidated] else []
    {
      dbgshlStreamOpen := false;
      if KitIsDown(kind) && sessionReady {
        sessionReady := false;
        marks := marks + [Invalidated];
      }
    }

    method OnTargetCameUp()
      modifies this`dbgshlStreamOpen
      ensures Snapshot() == Step(old(Snapshot()), TargetCameUp)
      ensures dbgshlStreamOpen <==> old(dbgshlStreamOpen) && sessionToken == 0
    {
      if sessionToken == 0 {
        return;
      }
      dbgshlStreamOpen := false;
    }

    method OnDebugAgentUp()
      modifies this`dbgshlStreamOpen
      ensures Snapshot() == Step(old(Snapshot()), DebugAgentUp)
      ensures !dbgshlStreamOpen
    {
      dbgshlStreamOpen := false;
    }

    /** The request to send next, if any. */
    method OnDexTsmpReply(cmd: u16) returns (next: Option<u16>)
      modifies this
      ensures Snapshot() == Step(old(Snapshot()), DexReply(cmd))
      ensures sessionReady <==> old(sessionReady) || (cfwDex && cmd == 0x3101)
      ensures marks == old(marks) + if sessionReady != old(sessionReady) then [SessionReady(sessionToken, subToken)] else []
      ensures next == if cfwDex && !old(sessionReady) then NextDexRequest(cmd) else None
    {
      next := None;
      if !cfwDex || sessionReady {
        return;
      }
      match cmd {
        case 0x0103 => next := Some(0x3000);
        case 0x3001 => next := Some(0x3200);
        case 0x3201 => next := Some(0x4100);
        case 0x4101 => next := Some(0x4102);
        case 0x4103 => next := Some(0x3100);
        case 0x3101 =>
          sessionReady := true;
          marks := marks + [SessionReady(sessionToken, subToken)];
        case _ =>
      }
    }
  }
}
