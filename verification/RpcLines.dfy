/** The line reader of both ends of the RPC link: bytes arrive in pieces, lines end in a
  * newline, are trimmed, and empty ones are skipped.
  */
module RpcLines {
  import opened BeIo

  const NEWLINE: byte := 10

  datatype Line = Line(bytes: seq<byte>)
  datatype Split = Split(lines: seq<Line>, rest: seq<byte>)

  /** The position of the first newline, or the length. */
  function NewlineAt(b: seq<byte>): (n: nat)
    ensures n <= |b| && (forall i :: 0 <= i < n ==> b[i] != NEWLINE) && (n < |b| ==> b[n] == NEWLINE)
  {
    if b == [] || b[0] == NEWLINE then 0 else 1 + NewlineAt(b[1..])
  }

  predicate IsSpace(c: byte) {
    c == 32 || (9 <= c <= 13)
  }

  function TrimLeft(b: seq<byte>): seq<byte> {
    if b != [] && IsSpace(b[0]) then TrimLeft(b[1..]) else b
  }

  function TrimRight(b: seq<byte>): seq<byte> {
    if b != [] && IsSpace(b[|b| - 1]) then TrimRight(b[..|b| - 1]) else b
  }

  function Trim(b: seq<byte>): seq<byte> {
    TrimRight(TrimLeft(b))
  }

  function Kept(b: seq<byte>): seq<Line> {
    if Trim(b) == [] then [] else [Line(Trim(b))]
  }

  /** The complete lines of a buffer, and what is left of it. */
  function SplitLines(b: seq<byte>): Split
    decreases |b|
  {
    var n := NewlineAt(b);
    if n == |b| then Split([], b)
    else
      var tail := SplitLines(b[n + 1..]);
      Split(Kept(b[..n]) + tail.lines, tail.rest)
  }

  lemma NewlineAtIs(b: seq<byte>, n: nat)
    requires n <= |b| && (forall i :: 0 <= i < n ==> b[i] != NEWLINE) && (n < |b| ==> b[n] == NEWLINE)
    ensures NewlineAt(b) == n
  {
  }

  predicate NoNewline(b: seq<byte>) {
    forall i :: 0 <= i < |b| ==> b[i] != NEWLINE
  }

  lemma {:induction false} RestHasNoNewline(b: seq<byte>)
    ensures NoNewline(SplitLines(b).rest)
    decreases |b|
  {
    hide Kept;
    var n := NewlineAt(b);
    if n < |b| {
      RestHasNoNewline(b[n + 1..]);
    }
  }

  /** One step of the reader. */
  lemma SplitAt(b: seq<byte>, n: nat)
    requires n == NewlineAt(b) < |b|
    ensures var tail := SplitLines(b[n + 1..]);
            SplitLines(b) == Split(Kept(b[..n]) + tail.lines, tail.rest)
  {
  }

  lemma Unfinished(b: seq<byte>)
    requires NewlineAt(b) == |b|
    ensures SplitLines(b) == Split([], b)
  {
  }

  lemma SameNewline(a: seq<byte>, b: seq<byte>)
    requires NewlineAt(a) < |a|
    ensures var n := NewlineAt(a);
            NewlineAt(a + b) == n && (a + b)[..n] == a[..n] && (a + b)[n + 1..] == a[n + 1..] + b
  {
    NewlineAtIs(a + b, NewlineAt(a));
  }

  /** Reading a buffer and then more is reading all of it at once. */
  lemma {:induction false} SplitOfSum(a: seq<byte>, b: seq<byte>)
    ensures var first := SplitLines(a); var more := SplitLines(first.rest + b);
            SplitLines(a + b) == Split(first.lines + more.lines, more.rest)
    decreases |a|
  {
    hide SplitLines, Kept, NewlineAt;
    var n := NewlineAt(a);
    if n < |a| {
      SameNewline(a, b);
      SplitAt(a, n);
      SplitAt(a + b, n);
      SplitOfSum(a[n + 1..], b);
    } else {
      Unfinished(a);
    }
  }

  /** A reader that keeps its leftover between arrivals. */
  function ReadAll(buf: seq<byte>, chunks: seq<Line>): Split {
    if chunks == [] then SplitLines(buf)
    else
      var n := |chunks| - 1;
      var before := ReadAll(buf, chunks[..n]);
      var now := SplitLines(before.rest + chunks[n].bytes);
      Split(before.lines + now.lines, now.rest)
  }

  function Joined(chunks: seq<Line>): seq<byte> {
    if chunks == [] then [] else Joined(chunks[..|chunks| - 1]) + chunks[|chunks| - 1].bytes
  }

  /** However a stream is cut into pieces, the same lines come out and the same bytes are
    * left over. */
  lemma {:induction false} ChunkingIsIrrelevant(buf: seq<byte>, chunks: seq<Line>)
    ensures ReadAll(buf, chunks) == SplitLines(buf + Joined(chunks))
  {
    hide SplitLines;
    if chunks == [] {
      assert buf + [] == buf;
    } else {
      var n := |chunks| - 1;
      ChunkingIsIrrelevant(buf, chunks[..n]);
      SplitOfSum(buf + Joined(chunks[..n]), chunks[n].bytes);
      assert buf + Joined(chunks) == buf + Joined(chunks[..n]) + chunks[n].bytes;
    }
  }
}
