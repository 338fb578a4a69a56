/** What travels on the RPC link. The JSON library is a pair of functions with the laws a
  * compact printer and its parser obey.
  */
module RpcMessages {
  import opened BeIo
  import opened Wrappers
  import opened RpcLines

  datatype Call = Call(name: string, params: string)
  datatype Outcome = Ok(result: string) | Failed(error: string)

  datatype Message =
    | Request(id: int, call: Call)
    | Reply(replyTo: Option<int>, outcome: Outcome)
    | Notice(target: string, event: string, params: string)

  datatype Codec = Codec(show: Message -> seq<byte>, parse: seq<byte> -> Option<Message>)

  /** A printed message is one line without blanks around it, and parses back. */
  ghost predicate Lawful(c: Codec) {
    forall m: Message :: PrintsWell(c, m)
  }

  predicate PrintsWell(c: Codec, m: Message) {
    NoNewline(c.show(m)) && Kept(c.show(m)) == [Line(c.show(m))] && c.parse(c.show(m)) == Some(m)
  }

  function OnWire(c: Codec, m: Message): seq<byte> {
    c.show(m) + [NEWLINE]
  }

  function Wire(c: Codec, ms: seq<Message>): seq<byte> {
    if ms == [] then [] else OnWire(c, ms[0]) + Wire(c, ms[1..])
  }

  function Printed(c: Codec, ms: seq<Message>): (ls: seq<Line>)
    ensures |ls| == |ms|
  {
    if ms == [] then [] else [Line(c.show(ms[0]))] + Printed(c, ms[1..])
  }

  lemma {:induction false} WireOfSum(c: Codec, xs: seq<Message>, ys: seq<Message>)
    ensures Wire(c, xs + ys) == Wire(c, xs) + Wire(c, ys)
  {
    if xs == [] {
      assert xs + ys == ys;
    } else {
      assert (xs + ys)[1..] == xs[1..] + ys;
      WireOfSum(c, xs[1..], ys);
    }
  }

  /** Any prefix of a wire splits into the first messages on it, and the leftover continues
    * the rest of the wire. */
  lemma {:induction false} PrefixOfWire(c: Codec, ms: seq<Message>, got: seq<byte>, coming: seq<byte>)
    requires Lawful(c) && got + coming == Wire(c, ms)
    ensures var s := SplitLines(got); var k := |s.lines|;
            k <= |ms| && s.lines == Printed(c, ms[..k]) && s.rest + coming == Wire(c, ms[k..])
            && NoNewline(s.rest)
    decreases |ms|
  {
    hide SplitLines, NewlineAt, Kept;
    var n := NewlineAt(got);
    if n == |got| {
      Unfinished(got);
      assert ms[0..] == ms;
    } else {
      assert |got + coming| > 0;
      SplitAt(got, n);
      assert PrintsWell(c, ms[0]);
      FirstLine(got, coming, c.show(ms[0]), Wire(c, ms[1..]), n);
      PrefixOfWire(c, ms[1..], got[n + 1..], coming);
      var k := |SplitLines(got[n + 1..]).lines|;
      assert ms[..k + 1][0] == ms[0] && ms[..k + 1][1..] == ms[1..][..k];
      assert ms[k + 1..] == ms[1..][k..];
    }
  }

  lemma FirstLine(got: seq<byte>, coming: seq<byte>, first: seq<byte>, after: seq<byte>, n: nat)
    requires got + coming == first + [NEWLINE] + after && NoNewline(first)
    requires n == NewlineAt(got) < |got|
    ensures got[..n] == first && got[n + 1..] + coming == after
  {
    var all := got + coming;
    NewlineAtIs(all, n);
    NewlineAtIs(all, |first|);
    assert |first| == n;
    Cut(got, coming, n + 1);
    Cut(first + [NEWLINE], after, n + 1);
    assert got[..n] == all[..n];
    assert first == all[..n];
  }

  lemma Cut(a: seq<byte>, b: seq<byte>, n: nat)
    requires n <= |a|
    ensures (a + b)[n..] == a[n..] + b
  {
  }
}
