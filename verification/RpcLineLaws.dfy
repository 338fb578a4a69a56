/** What a stream of RPC bytes says, however it is spaced: blanks around lines and blank lines
  * make no difference, and a line that is no message is counted and nothing more.
  */
module RpcLineLaws {
  import opened BeIo
  import opened Wrappers
  import opened RpcLines
  import opened RpcMessages
  import C = RpcClient

  /** A line as it may arrive, blanks included. */
  datatype Padded = Padded(left: seq<byte>, body: seq<byte>, right: seq<byte>)

  /** Tab, vertical tab, form feed, carriage return or space. */
  predicate IsBlank(c: byte) {
    c == 9 || c == 11 || c == 12 || c == 13 || c == 32
  }

  predicate Blanks(b: seq<byte>) {
    forall i :: 0 <= i < |b| ==> IsBlank(b[i])
  }

  predicate Solid(b: seq<byte>) {
    (forall i :: 0 <= i < |b| ==> b[i] != 10) && (b != [] ==> !IsBlank(b[0]) && !IsBlank(b[|b| - 1]))
  }

  predicate Spaced(p: Padded) {
    Blanks(p.left) && Solid(p.body) && Blanks(p.right)
  }

  /** The lines, a newline behind each, and then the start of another. */
  function Stream(ps: seq<Padded>, tail: seq<byte>): seq<byte> {
    if ps == [] then tail else (ps[0].left + ps[0].body + ps[0].right) + ([10] + Stream(ps[1..], tail))
  }

  function Bodies(ps: seq<Padded>): seq<Line> {
    if ps == [] then [] else (if ps[0].body == [] then [] else [Line(ps[0].body)]) + Bodies(ps[1..])
  }

  lemma {:induction false} TrimLeftOf(left: seq<byte>, b: seq<byte>)
    requires Blanks(left) && (b != [] ==> !IsSpace(b[0]))
    ensures TrimLeft(left + b) == b
  {
    if left == [] {
      assert left + b == b;
    } else {
      assert (left + b)[1..] == left[1..] + b;
      TrimLeftOf(left[1..], b);
    }
  }

  lemma {:induction false} TrimRightOf(b: seq<byte>, right: seq<byte>)
    requires Blanks(right) && (b != [] ==> !IsSpace(b[|b| - 1]))
    ensures TrimRight(b + right) == b
  {
    if right == [] {
      assert b + right == b;
    } else {
      assert (b + right)[..|b + right| - 1] == b + right[..|right| - 1];
      TrimRightOf(b, right[..|right| - 1]);
    }
  }

  lemma TrimOf(p: Padded)
    requires Spaced(p)
    ensures Trim(p.left + p.body + p.right) == p.body
  {
    hide TrimLeft;
    if p.body == [] {
      assert p.left + p.body + p.right == (p.left + p.right) + [];
      TrimLeftOf(p.left + p.right, []);
      assert TrimRight([]) == [];
    } else {
      assert p.left + p.body + p.right == p.left + (p.body + p.right);
      TrimLeftOf(p.left, p.body + p.right);
      TrimRightOf(p.body, p.right);
    }
  }

  /** Spaced lines come out as their bodies, blank ones not at all, and the rest is kept. */
  lemma {:induction false} SpacingIsIrrelevant(ps: seq<Padded>, tail: seq<byte>)
    requires (forall i :: 0 <= i < |ps| ==> Spaced(ps[i])) && forall i :: 0 <= i < |tail| ==> tail[i] != 10
    ensures SplitLines(Stream(ps, tail)) == Split(Bodies(ps), tail)
  {
    hide SplitLines, Trim, Spaced;
    if ps == [] {
      NewlineAtIs(tail, |tail|);
      Unfinished(tail);
    } else {
      var line := ps[0].left + ps[0].body + ps[0].right;
      var rest := Stream(ps[1..], tail);
      var b := line + ([10] + rest);
      TrimOf(ps[0]);
      LineHasNoNewline(ps[0]);
      NewlineAtIs(b, |line|);
      SplitAt(b, |line|);
      assert b[..|line|] == line && b[|line| + 1..] == rest;
      SpacingIsIrrelevant(ps[1..], tail);
    }
  }

  lemma LineHasNoNewline(p: Padded)
    requires Spaced(p)
    ensures var line := p.left + p.body + p.right; forall i :: 0 <= i < |line| ==> line[i] != 10
  {
  }

  /** Lines that are no messages are counted and change nothing else, wherever they stand. */
  lemma {:induction false} GarbageOnlyCounts(codec: Codec, c: C.Client, lines: seq<Line>)
    requires forall i :: 0 <= i < |lines| ==> codec.parse(lines[i].bytes) == None
    ensures C.HandleLines(codec, c, lines) == c.(errors := c.errors + |lines|)
    decreases |lines|
  {
    if lines != [] {
      GarbageOnlyCounts(codec, c.(errors := c.errors + 1), lines[1..]);
    }
  }
}
