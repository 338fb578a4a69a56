/** The debug protocol: requests with a checksum trailer, responses, and the lists inside
  * them.
  *
  * The list loops index with a 32-bit counter; the methods keep that arithmetic and are
  * proved to return exactly the entries that are announced and fit.
  */
module DbgpCodec {
  import opened BeIo
  import opened Wrappers

  const REQUEST_HEADER: nat := 16
  const RESPONSE_HEADER: nat := 20
  const WORD: nat := 0x1_0000_0000
  const FRAME_PAYLOAD: nat := 65519

  // ---------- the checksum ----------

  function ByteSum(b: seq<byte>): nat {
    if b == [] then 0 else ByteSum(b[..|b| - 1]) + b[|b| - 1] as int
  }

  function Trailer(b: seq<byte>): byte {
    (ByteSum(b) - 0x10) % 0x100
  }

  /** The last byte is the checksum of the others. */
  predicate Checks(b: seq<byte>) {
    b != [] && b[|b| - 1] == Trailer(b[..|b| - 1])
  }

  datatype Request = Request(cmd: u32, reqId: u32, processId: u32, payload: seq<byte>)

  function RequestBytes(r: Request): (b: seq<byte>)
    ensures |b| == REQUEST_HEADER + |r.payload|
  {
    BigEndian(4, r.cmd) + BigEndian(4, r.reqId) + BigEndian(4, |r.payload| % WORD)
    + BigEndian(4, r.processId) + r.payload
  }

  function EncodedRequest(r: Request): (b: seq<byte>)
    ensures |b| == REQUEST_HEADER + |r.payload| + 1
  {
    RequestBytes(r) + [Trailer(RequestBytes(r))]
  }

  /** The sum runs in 32 bits and wraps; its low byte does not notice. */
  method EncodeRequest(r: Request) returns (out: ByteVector)
    ensures fresh(out) && out.bytes == EncodedRequest(r)
  {
    hide BigEndian, ByteSum;
    out := new ByteVector();
    out.AppendU32(r.cmd);
    out.AppendU32(r.reqId);
    out.AppendU32(|r.payload| % WORD);
    out.AppendU32(r.processId);
    out.Append(r.payload);
    assert out.bytes == RequestBytes(r);
    var s := SumBytes(out.bytes);
    SameLowByte(s, ByteSum(RequestBytes(r)));
    out.Append([(s as int - 0x10) % WORD % 0x100]);
  }

  lemma Residue(k: nat, t: int)
    ensures (k * 0x100 + t) % 0x100 == t % 0x100
  {
  }

  lemma SameLowByte(s: u32, total: nat)
    requires s as int == total % WORD
    ensures (s as int - 0x10) % WORD % 0x100 == (total - 0x10) % 0x100
  {
    var q := total / WORD;
    assert total - 0x10 == (q * 0x100_0000) * 0x100 + (s as int - 0x10);
    var t := s as int - 0x10;
    assert t % WORD == (if t < 0 then t + WORD else t);
    assert (t + WORD) % 0x100 == t % 0x100;
    Residue(q * 0x100_0000, t);
  }

  method SumBytes(b: seq<byte>) returns (s: u32)
    ensures s as int == ByteSum(b) % WORD
  {
    s := 0;
    for i := 0 to |b|
      invariant s as int == ByteSum(b[..i]) % WORD
    {
      assert b[..i + 1][..i] == b[..i];
      s := (s as int + b[i] as int) % WORD;
    }
    assert b[..|b|] == b;
  }

  lemma EncodedRequestChecks(r: Request)
    ensures Checks(EncodedRequest(r))
  {
    assert EncodedRequest(r)[..|EncodedRequest(r)| - 1] == RequestBytes(r);
  }

  lemma {:induction false} SumOfUpdate(b: seq<byte>, i: nat, v: byte)
    requires i < |b|
    ensures ByteSum(b[i := v]) == ByteSum(b) - b[i] + v
  {
    var n := |b| - 1;
    if i == n {
      assert b[i := v][..n] == b[..n];
    } else {
      assert b[i := v][..n] == b[..n][i := v];
      SumOfUpdate(b[..n], i, v);
    }
  }

  /** Changing any single byte of a message that checks, trailer included, breaks it. */
  lemma SingleByteChangeIsCaught(b: seq<byte>, i: nat, v: byte)
    requires Checks(b) && i < |b| && v != b[i]
    ensures !Checks(b[i := v])
  {
    var n := |b| - 1;
    if i == n {
      assert b[i := v][..n] == b[..n];
    } else {
      assert b[i := v][..n] == b[..n][i := v];
      SumOfUpdate(b[..n], i, v);
    }
  }

  // ---------- responses ----------

  datatype Response = Response(cmd: u32, reqId: u32, dataLen: u32, processId: u32, resultCode: u32, payload: seq<byte>)

  function DecodeResponse(b: seq<byte>): Option<Response> {
    if |b| < RESPONSE_HEADER + 1 then None
    else
      var avail := |b| - RESPONSE_HEADER;
      var take := if U32At(b, 8) < avail - 1 then U32At(b, 8) else avail - 1;
      Some(Response(U32At(b, 0), U32At(b, 4), U32At(b, 8), U32At(b, 12), U32At(b, 16),
                    b[RESPONSE_HEADER..RESPONSE_HEADER + take]))
  }

  /** A response as the console lays it out, trailer included. */
  function ResponseBytes(r: Response, trailer: byte): seq<byte> {
    BigEndian(4, r.cmd) + BigEndian(4, r.reqId) + BigEndian(4, r.dataLen)
    + BigEndian(4, r.processId) + BigEndian(4, r.resultCode) + r.payload + [trailer]
  }

  /** Decoding inverts the layout exactly when the length field covers the payload. */
  lemma DecodesIffLengthCovers(r: Response, trailer: byte)
    ensures DecodeResponse(ResponseBytes(r, trailer)) == Some(r) <==> r.dataLen as int >= |r.payload|
  {
    var b := ResponseBytes(r, trailer);
    assert b[0..4] == BigEndian(4, r.cmd) && b[4..8] == BigEndian(4, r.reqId);
    assert b[8..12] == BigEndian(4, r.dataLen) && b[12..16] == BigEndian(4, r.processId);
    assert b[16..20] == BigEndian(4, r.resultCode);
    assert b[20..20 + |r.payload|] == r.payload;
    ReadU32(b, 0, r.cmd);
    ReadU32(b, 4, r.reqId);
    ReadU32(b, 8, r.dataLen);
    ReadU32(b, 12, r.processId);
    ReadU32(b, 16, r.resultCode);
  }

  // ---------- counted lists ----------

  /** How many entries of `stride` bytes lie between `start` and the end. */
  function Fitting(size: nat, start: nat, stride: nat): nat
    requires stride > 0
  {
    if size < start then 0 else (size - start) / stride
  }

  function AtMost(count: nat, n: nat): nat {
    if count < n then count else n
  }

  /** The announced words that fit, from `start` on. */
  function Words(p: seq<byte>, start: nat, count: nat): (ws: seq<u32>)
    ensures |ws| == AtMost(count, Fitting(|p|, start, 4))
  {
    var n := AtMost(count, Fitting(|p|, start, 4));
    seq(n, i requires 0 <= i < n => U32At(p, start + 4 * i))
  }

  function LongWords(p: seq<byte>, start: nat, count: nat): (ws: seq<u64>)
    ensures |ws| == AtMost(count, Fitting(|p|, start, 8))
  {
    var n := AtMost(count, Fitting(|p|, start, 8));
    seq(n, i requires 0 <= i < n => U64At(p, start + 8 * i))
  }

  function HandleList(p: seq<byte>): seq<u32> {
    if |p| < 4 then [] else Words(p, 4, U32At(p, 0))
  }

  /** `start + i * stride` in 32 bits. */
  function Offset32(start: nat, i: nat, stride: nat): nat {
    (start + i * stride) % WORD
  }

  /** The loop of the handle, mutex-waiter and lwmutex-waiter lists: it stops at the first
    * entry that does not fit, long before the index could wrap. */
  method ParseWords(p: seq<byte>, start: nat, count: u32) returns (out: seq<u32>)
    requires |p| <= FRAME_PAYLOAD && start <= FRAME_PAYLOAD
    ensures out == Words(p, start, count)
  {
    out := [];
    var i: int := 0;
    while i < count
      invariant 0 <= i <= AtMost(count, Fitting(|p|, start, 4))
      invariant out == Words(p, start, count)[..i]
    {
      var off := Offset32(start, i, 4);
      assert off == start + 4 * i;
      if off + 4 > |p| {
        break;
      }
      out := out + [U32At(p, off)];
      i := i + 1;
    }
  }

  method ParseLongWords(p: seq<byte>, start: nat, count: u32) returns (out: seq<u64>)
    requires |p| <= FRAME_PAYLOAD && start <= FRAME_PAYLOAD
    ensures out == LongWords(p, start, count)
  {
    out := [];
    var i: int := 0;
    while i < count
      invariant 0 <= i <= AtMost(count, Fitting(|p|, start, 8))
      invariant out == LongWords(p, start, count)[..i]
    {
      var off := Offset32(start, i, 8);
      assert off == start + 8 * i;
      if off + 8 > |p| {
        break;
      }
      out := out + [U64At(p, off)];
      i := i + 1;
    }
  }

  method ParseHandleList(p: seq<byte>) returns (out: seq<u32>)
    requires |p| <= FRAME_PAYLOAD
    ensures out == HandleList(p)
  {
    if |p| < 4 {
      return [];
    }
    out := ParseWords(p, 4, U32At(p, 0));
  }

  datatype Container = Container(total: u32, available: u32, id: u32, parentId: u32)

  function ContainerAt(p: seq<byte>, off: nat): Container
    requires off + 16 <= |p|
  {
    Container(U32At(p, off), U32At(p, off + 4), U32At(p, off + 8), U32At(p, off + 12))
  }

  function Containers(p: seq<byte>): Option<seq<Container>> {
    if |p| < 4 then None
    else
      var n := AtMost(U32At(p, 0), Fitting(|p|, 4, 16));
      Some(seq(n, i requires 0 <= i < n => ContainerAt(p, 4 + 16 * i)))
  }

  /** This index is computed in the machine's word size and cannot wrap. */
  method ParseContainerInfo(p: seq<byte>) returns (out: Option<seq<Container>>)
    ensures out == Containers(p)
  {
    if |p| < 4 {
      return None;
    }
    var count := U32At(p, 0);
    var list := [];
    var i: int := 0;
    while i < count
      invariant 0 <= i <= AtMost(count, Fitting(|p|, 4, 16))
      invariant list == Containers(p).value[..i]
    {
      var off := 4 + i * 16;
      if off + 16 > |p| {
        break;
      }
      list := list + [ContainerAt(p, off)];
      i := i + 1;
    }
    assert list == Containers(p).value;
    return Some(list);
  }

  datatype Segment = Segment(base: u64, fileSize: u64, memSize: u64, number: u64, kind: u64, flags: u64, align: u64)

  function SegmentAt(p: seq<byte>, off: nat): Segment
    requires off + 56 <= |p|
  {
    Segment(U64At(p, off), U64At(p, off + 8), U64At(p, off + 16), U64At(p, off + 24), U64At(p, off + 32),
            U64At(p, off + 40), U64At(p, off + 48))
  }

  /** The announced segments of a module that fit, behind its fixed prefix. */
  function Segments(p: seq<byte>): (ss: seq<Segment>)
    requires |p| >= 0x238
    ensures |ss| == AtMost(U32At(p, 0x234), Fitting(|p|, 0x238, 56))
  {
    var n := AtMost(U32At(p, 0x234), Fitting(|p|, 0x238, 56));
    seq(n, i requires 0 <= i < n => SegmentAt(p, 0x238 + 56 * i))
  }

  function MemSizes(ss: seq<Segment>): nat {
    if ss == [] then 0 else MemSizes(ss[..|ss| - 1]) + ss[|ss| - 1].memSize
  }

  lemma NoMemory()
    ensures MemSizes([]) == 0
  {
  }

  lemma MoreMemory(ss: seq<Segment>, s: Segment)
    ensures MemSizes(ss + [s]) == MemSizes(ss) + s.memSize
  {
    assert (ss + [s])[..|ss|] == ss;
  }

  /** The module's size is the sum over its segments, in 64 bits. */
  method ParseSegments(p: seq<byte>) returns (out: seq<Segment>, memSize: u64)
    requires |p| >= 0x238
    ensures out == Segments(p) && memSize == MemSizes(out) % 0x1_0000_0000_0000_0000
  {
    hide SegmentAt, U32At, MemSizes;
    NoMemory();
    var count := U32At(p, 0x234);
    out, memSize := [], 0;
    var i: int := 0;
    while i < count
      invariant 0 <= i <= AtMost(count, Fitting(|p|, 0x238, 56))
      invariant out == Segments(p)[..i] && memSize == MemSizes(out) % 0x1_0000_0000_0000_0000
    {
      var off := 0x238 + i * 56;
      if off + 56 > |p| {
        break;
      }
      var s := SegmentAt(p, off);
      memSize := (memSize + s.memSize) % 0x1_0000_0000_0000_0000;
      MoreMemory(out, s);
      out := out + [s];
      i := i + 1;
    }
  }

  // ---------- thread lists ----------

  datatype ThreadList = ThreadList(ppu: seq<u64>, spu: seq<u32>)

  function Threads(p: seq<byte>): Option<ThreadList> {
    if |p| < 8 then None
    else
      var n, m := U32At(p, 0), U32At(p, 4);
      if |p| < 8 + 8 * n + 4 * m then None
      else Some(ThreadList(LongWords(p, 8, n), Words(p, 8 + 8 * n, m)))
  }

  /** The two loops fail as soon as an announced entry is missing. */
  method ParseThreadList(p: seq<byte>) returns (out: Option<ThreadList>)
    ensures out == Threads(p)
  {
    if |p| < 8 {
      return None;
    }
    var n, m := U32At(p, 0), U32At(p, 4);
    var off: int := 8;
    var ppu := [];
    var i: int := 0;
    while i < n
      invariant 0 <= i <= n && off == 8 + 8 * i <= |p|
      invariant |ppu| == i && forall k :: 0 <= k < i ==> ppu[k] == U64At(p, 8 + 8 * k)
    {
      if off + 8 > |p| {
        return None;
      }
      ppu := ppu + [U64At(p, off)];
      off := off + 8;
      i := i + 1;
    }
    var spu := [];
    var j: int := 0;
    while j < m
      invariant 0 <= j <= m && off == 8 + 8 * n + 4 * j <= |p|
      invariant |spu| == j && forall k :: 0 <= k < j ==> spu[k] == U32At(p, 8 + 8 * n + 4 * k)
    {
      if off + 4 > |p| {
        return None;
      }
      spu := spu + [U32At(p, off)];
      off := off + 4;
      j := j + 1;
    }
    assert ppu == LongWords(p, 8, n);
    assert spu == Words(p, 8 + 8 * n, m);
    return Some(ThreadList(ppu, spu));
  }

  function PutLongWords(ws: seq<u64>): (b: seq<byte>)
    ensures |b| == 8 * |ws|
  {
    if ws == [] then [] else PutLongWords(ws[..|ws| - 1]) + BigEndian(8, ws[|ws| - 1])
  }

  function PutWords(ws: seq<u32>): (b: seq<byte>)
    ensures |b| == 4 * |ws|
  {
    if ws == [] then [] else PutWords(ws[..|ws| - 1]) + BigEndian(4, ws[|ws| - 1])
  }

  lemma {:induction false} LongWordsOfPut(front: seq<byte>, ws: seq<u64>, rest: seq<byte>, k: nat)
    requires k < |ws|
    ensures U64At(front + PutLongWords(ws) + rest, |front| + 8 * k) == ws[k]
    decreases |ws|
  {
    var init := ws[..|ws| - 1];
    var last := BigEndian(8, ws[|ws| - 1]);
    var b := front + PutLongWords(ws) + rest;
    assert b == front + PutLongWords(init) + (last + rest);
    if k == |ws| - 1 {
      assert b[|front| + 8 * k..|front| + 8 * k + 8] == last;
      ReadU64(b, |front| + 8 * k, ws[k]);
    } else {
      LongWordsOfPut(front, init, last + rest, k);
    }
  }

  lemma {:induction false} WordsOfPut(front: seq<byte>, ws: seq<u32>, rest: seq<byte>, k: nat)
    requires k < |ws|
    ensures U32At(front + PutWords(ws) + rest, |front| + 4 * k) == ws[k]
    decreases |ws|
  {
    var init := ws[..|ws| - 1];
    var last := BigEndian(4, ws[|ws| - 1]);
    var b := front + PutWords(ws) + rest;
    assert b == front + PutWords(init) + (last + rest);
    if k == |ws| - 1 {
      assert b[|front| + 4 * k..|front| + 4 * k + 4] == last;
      ReadU32(b, |front| + 4 * k, ws[k]);
    } else {
      WordsOfPut(front, init, last + rest, k);
    }
  }

  function ThreadListBytes(t: ThreadList): seq<byte>
    requires |t.ppu| < WORD && |t.spu| < WORD
  {
    BigEndian(4, |t.ppu|) + BigEndian(4, |t.spu|) + PutLongWords(t.ppu) + PutWords(t.spu)
  }

  /** The parser inverts the layout, whatever follows it. */
  lemma ThreadListReadsBack(t: ThreadList, rest: seq<byte>)
    requires |t.ppu| < WORD && |t.spu| < WORD
    ensures Threads(ThreadListBytes(t) + rest) == Some(t)
  {
    hide BigEndian, PutLongWords, PutWords;
    var n, m := |t.ppu|, |t.spu|;
    var head := BigEndian(4, n) + BigEndian(4, m);
    var p := ThreadListBytes(t) + rest;
    assert p[0..4] == BigEndian(4, n) && p[4..8] == BigEndian(4, m);
    ReadU32(p, 0, n);
    ReadU32(p, 4, m);
    forall k | 0 <= k < n ensures U64At(p, 8 + 8 * k) == t.ppu[k] {
      assert p == head + PutLongWords(t.ppu) + (PutWords(t.spu) + rest);
      LongWordsOfPut(head, t.ppu, PutWords(t.spu) + rest, k);
    }
    assert LongWords(p, 8, n) == t.ppu;
    assert p == (head + PutLongWords(t.ppu)) + PutWords(t.spu) + rest;
    WordsReadBack(head + PutLongWords(t.ppu), t.spu, rest);
  }

  lemma WordsReadBack(front: seq<byte>, ws: seq<u32>, rest: seq<byte>)
    ensures Words(front + PutWords(ws) + rest, |front|, |ws|) == ws
  {
    var p := front + PutWords(ws) + rest;
    var got := Words(p, |front|, |ws|);
    assert |got| == |ws| by {
      AllFit(|p|, |front|, |ws|);
    }
    forall k | 0 <= k < |ws| ensures got[k] == ws[k] {
      hide *;
      WordsOfPut(front, ws, rest, k);
      WordIs(p, |front|, |ws|, k);
    }
  }

  lemma AllFit(size: nat, start: nat, count: nat)
    requires size >= start + 4 * count
    ensures AtMost(count, Fitting(size, start, 4)) == count
  {
  }

  lemma WordIs(p: seq<byte>, start: nat, count: nat, k: nat)
    requires k < count && |p| >= start + 4 * count
    ensures |Words(p, start, count)| == count && Words(p, start, count)[k] == U32At(p, start + 4 * k)
  {
    AllFit(|p|, start, count);
  }

  /** A handle list as the console lays it out parses to its handles. */
  lemma HandleListReadsBack(hs: seq<u32>, rest: seq<byte>)
    requires |hs| < 0x1_0000_0000
    ensures HandleList(BigEndian(4, |hs|) + PutWords(hs) + rest) == hs
  {
    HandlesAfter(BigEndian(4, |hs|), hs, rest);
  }

  lemma HandlesAfter(front: seq<byte>, hs: seq<u32>, rest: seq<byte>)
    requires |hs| < 0x1_0000_0000 && front == BigEndian(4, |hs|)
    ensures HandleList(front + PutWords(hs) + rest) == hs
  {
    hide *;
    var p := front + PutWords(hs) + rest;
    assert p == front + (PutWords(hs) + rest);
    FirstWord(front, PutWords(hs) + rest, |hs|);
    WordsReadBack(front, hs, rest);
    assert |front| == 4;
    HandlesAre(p, hs);
  }

  lemma FirstWord(front: seq<byte>, rest: seq<byte>, v: u32)
    requires front == BigEndian(4, v)
    ensures U32At(front + rest, 0) == v
  {
    assert (front + rest)[0..4] == front;
    ReadU32(front + rest, 0, v);
  }

  lemma HandlesAre(p: seq<byte>, hs: seq<u32>)
    requires |p| >= 4 && U32At(p, 0) == |hs| && Words(p, 4, |hs|) == hs
    ensures HandleList(p) == hs
  {
  }

  /** A process list is every whole word of the payload. */
  function ProcessList(p: seq<byte>): seq<u32> {
    Words(p, 0, |p|)
  }

  method ParseProcessList(p: seq<byte>) returns (out: seq<u32>)
    ensures out == ProcessList(p)
  {
    out := [];
    var off := 0;
    while off + 4 <= |p|
      invariant off == 4 * |out| <= |p|
      invariant forall k :: 0 <= k < |out| ==> out[k] == U32At(p, 4 * k)
    {
      out := out + [U32At(p, off)];
      off := off + 4;
    }
  }
}
