/** The session over whole runs: when it is ready, and which tokens it holds, told by the events
  * that made it so and have not been undone since.
  */
module SessionRuns {
  import opened BeIo
  import opened Wrappers
  import opened SessionController

  function Run(dex: bool, es: seq<Event>): State {
    if es == [] then Start(dex) else Step(Run(dex, es[..|es| - 1]), es[|es| - 1])
  }

  /** The state before event `i`. */
  function Before(dex: bool, es: seq<Event>, i: nat): State
    requires i <= |es|
  {
    Run(dex, es[..i])
  }

  /** The link goes, or the console takes back the token that is held. */
  predicate Forgets(s: State, e: Event) {
    e.LinkDown? || (e.Reaped? && e.token == s.token != 0)
  }

  /** Besides, five kinds of rejection say that the console is down. */
  predicate Ends(s: State, e: Event) {
    Forgets(s, e) || (e.Rejected? && 1 <= e.kind <= 5)
  }

  /** A handshake acknowledged under a sub-token, or the last reply of a DEX console. */
  predicate Opens(s: State, e: Event) {
    (e.HandshakeAcked? && s.subToken != 0) || (e.DexReply? && s.dex && e.cmd == 0x3101)
  }

  predicate OpenSince(dex: bool, es: seq<Event>, i: nat)
    requires i < |es|
  {
    Opens(Before(dex, es, i), es[i]) && forall j :: i < j < |es| ==> !Ends(Before(dex, es, j), es[j])
  }

  /** The session is ready if and only if some event opened it and none has ended it since. */
  lemma {:induction false} ReadyIffOpenSince(dex: bool, es: seq<Event>)
    ensures Run(dex, es).ready <==> exists i: nat :: i < |es| && OpenSince(dex, es, i)
  {
    if es != [] {
      hide Step, Opens, Ends;
      var n := |es| - 1;
      ReadyIffOpenSince(dex, es[..n]);
      ReadyStep(Run(dex, es[..n]), es[n]);
      hide Run, OpenSince;
      forall i: nat | i < n
        ensures OpenSince(dex, es, i) <==> OpenSince(dex, es[..n], i) && !Ends(Run(dex, es[..n]), es[n]) {
        OpenOneMore(dex, es, i);
      }
      LastOpens(dex, es);
    }
  }

  lemma OpenOneMore(dex: bool, es: seq<Event>, i: nat)
    requires i < |es| - 1
    ensures OpenSince(dex, es, i) <==>
              OpenSince(dex, es[..|es| - 1], i) && !Ends(Run(dex, es[..|es| - 1]), es[|es| - 1])
  {
    hide Run, Opens, Ends;
    var n := |es| - 1;
    assert forall j :: 0 <= j <= n ==> es[..n][..j] == es[..j];
  }

  lemma LastOpens(dex: bool, es: seq<Event>)
    requires es != []
    ensures OpenSince(dex, es, |es| - 1) <==> Opens(Run(dex, es[..|es| - 1]), es[|es| - 1])
  {
    hide Run, Opens, Ends;
  }

  lemma ReadyStep(s: State, e: Event)
    ensures Step(s, e).ready <==> Opens(s, e) || (s.ready && !Ends(s, e))
  {
  }

  /** A token arrives and none was held. */
  predicate Grants(s: State, e: Event, token: u16) {
    e.Token? && e.token == token && s.token == 0
  }

  predicate SubGrants(s: State, e: Event, sub: u16) {
    e.SubToken? && e.subToken == sub && s.subToken == 0
  }

  predicate GrantedSince(dex: bool, es: seq<Event>, token: u16, i: nat)
    requires i < |es|
  {
    Grants(Before(dex, es, i), es[i], token) && forall j :: i < j < |es| ==> !Forgets(Before(dex, es, j), es[j])
  }

  predicate SubGrantedSince(dex: bool, es: seq<Event>, sub: u16, i: nat)
    requires i < |es|
  {
    SubGrants(Before(dex, es, i), es[i], sub) && forall j :: i < j < |es| ==> !Forgets(Before(dex, es, j), es[j])
  }

  lemma TokenStep(s: State, e: Event, token: u16)
    requires token != 0
    ensures Step(s, e).token == token <==> Grants(s, e, token) || (s.token == token && !Forgets(s, e))
    ensures Step(s, e).subToken == token <==> SubGrants(s, e, token) || (s.subToken == token && !Forgets(s, e))
  {
  }

  /** A token is held if and only if it came when none was held and has not been forgotten since;
    * sub-tokens are held and forgotten alike. */
  lemma {:induction false} HeldIffGrantedSince(dex: bool, es: seq<Event>, token: u16)
    requires token != 0
    ensures Run(dex, es).token == token <==> exists i: nat :: i < |es| && GrantedSince(dex, es, token, i)
    ensures Run(dex, es).subToken == token <==> exists i: nat :: i < |es| && SubGrantedSince(dex, es, token, i)
  {
    if es != [] {
      hide Step, Grants, SubGrants, Forgets;
      var n := |es| - 1;
      var s := Run(dex, es[..n]);
      HeldIffGrantedSince(dex, es[..n], token);
      TokenStep(s, es[n], token);
      hide Run, GrantedSince, SubGrantedSince;
      forall i: nat | i < n
        ensures GrantedSince(dex, es, token, i) <==> GrantedSince(dex, es[..n], token, i) && !Forgets(s, es[n]) {
        GrantedOneMore(dex, es, token, i);
      }
      forall i: nat | i < n
        ensures SubGrantedSince(dex, es, token, i) <==> SubGrantedSince(dex, es[..n], token, i) && !Forgets(s, es[n]) {
        GrantedOneMore(dex, es, token, i);
      }
      LastGrants(dex, es, token);
    }
  }

  lemma GrantedOneMore(dex: bool, es: seq<Event>, token: u16, i: nat)
    requires i < |es| - 1
    ensures var n := |es| - 1; var s := Run(dex, es[..n]);
            (GrantedSince(dex, es, token, i) <==> GrantedSince(dex, es[..n], token, i) && !Forgets(s, es[n]))
            && (SubGrantedSince(dex, es, token, i) <==> SubGrantedSince(dex, es[..n], token, i) && !Forgets(s, es[n]))
  {
    hide Run, Grants, SubGrants, Forgets;
    var n := |es| - 1;
    assert forall j :: 0 <= j <= n ==> es[..n][..j] == es[..j];
  }

  lemma LastGrants(dex: bool, es: seq<Event>, token: u16)
    requires es != []
    ensures var n := |es| - 1; var s := Run(dex, es[..n]);
            (GrantedSince(dex, es, token, n) <==> Grants(s, es[n], token))
            && (SubGrantedSince(dex, es, token, n) <==> SubGrants(s, es[n], token))
  {
    hide Run, Grants, SubGrants, Forgets;
  }

  /** The counter moves only when a handshake makes the session ready, and then it restarts
    * between 0x1000 and 0x4FFF. */
  lemma CounterRestarts(s: State, e: Event)
    ensures var t := Step(s, e);
            if e.HandshakeAcked? && s.subToken != 0 && !s.ready
            then 0x1000 <= t.seqNo < 0x5000 && (t.seqNo as int - 0x1000 - e.msecs) % 0x4000 == 0
            else t.seqNo == s.seqNo
  {
    if e.HandshakeAcked? {
      assert e.msecs == e.msecs / 0x4000 * 0x4000 + e.msecs % 0x4000;
    }
  }
}
