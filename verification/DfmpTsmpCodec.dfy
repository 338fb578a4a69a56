/** The two protocols nested in frames: DFMP with a 32-bit body length, TSMP with a 16-bit
  * total length, and the fixed path slots of DFMP request bodies.
  */
module DfmpCodec {
  import opened BeIo
  import opened Wrappers

  const HEADER: nat := 16
  const PATH_SLOT: nat := 1056
  const WORD: nat := 0x1_0000_0000

  datatype Frame = Frame(cmd: u32, seqNo: u32, status: u32, body: seq<byte>)
  datatype Decoded = Decoded(frame: Frame, consumed: nat) | ShortBuffer | BodyTruncated

  function Encode(f: Frame): (b: seq<byte>)
    ensures |b| == HEADER + |f.body|
  {
    BigEndian(4, f.cmd) + BigEndian(4, f.seqNo) + BigEndian(4, |f.body| % WORD) + BigEndian(4, f.status) + f.body
  }

  function Decode(b: seq<byte>): Decoded {
    if |b| < HEADER then ShortBuffer
    else
      var length := U32At(b, 8);
      if HEADER + length > |b| then BodyTruncated
      else Decoded(Frame(U32At(b, 0), U32At(b, 4), U32At(b, 12), b[HEADER..HEADER + length]), HEADER + length)
  }

  method EncodeDfmp(f: Frame, out: ByteVector) returns (total: nat)
    modifies out
    ensures out.bytes == old(out.bytes) + Encode(f) && total == HEADER + |f.body|
  {
    hide Splice, Zeros, BigEndian;
    total := HEADER + |f.body|;
    var start := |out.bytes|;
    ghost var done := out.bytes;
    out.Grow(total);
    SpliceNext(done, total, BigEndian(4, f.cmd));
    out.WriteU32(start, f.cmd);
    done := done + BigEndian(4, f.cmd);
    SpliceNext(done, total - 4, BigEndian(4, f.seqNo));
    out.WriteU32(start + 4, f.seqNo);
    done := done + BigEndian(4, f.seqNo);
    SpliceNext(done, total - 8, BigEndian(4, |f.body| % WORD));
    out.WriteU32(start + 8, |f.body| % WORD);
    done := done + BigEndian(4, |f.body| % WORD);
    SpliceNext(done, total - 12, BigEndian(4, f.status));
    out.WriteU32(start + 12, f.status);
    done := done + BigEndian(4, f.status);
    SpliceNext(done, |f.body|, f.body);
    if |f.body| > 0 {
      out.Copy(start + HEADER, f.body);
    }
  }

  /** A printed message reads back with the rest left over exactly when its body length
    * fits the length field. */
  lemma RoundTripIffFits(f: Frame, rest: seq<byte>)
    ensures Decode(Encode(f) + rest) == Decoded(f, HEADER + |f.body|) <==> |f.body| < WORD
  {
    hide BigEndian;
    var b := Encode(f) + rest;
    assert b[0..4] == BigEndian(4, f.cmd) && b[4..8] == BigEndian(4, f.seqNo);
    assert b[8..12] == BigEndian(4, |f.body| % WORD) && b[12..16] == BigEndian(4, f.status);
    assert b[16..16 + |f.body|] == f.body;
    ReadU32(b, 0, f.cmd);
    ReadU32(b, 4, f.seqNo);
    ReadU32(b, 8, |f.body| % WORD);
    ReadU32(b, 12, f.status);
  }

  lemma ReprintsConsumed(b: seq<byte>)
    requires Decode(b).Decoded?
    ensures Encode(Decode(b).frame) == b[..Decode(b).consumed]
  {
    hide BigEndian, U32At;
    Reprint(b, 0);
    Reprint(b, 4);
    Reprint(b, 8);
    Reprint(b, 12);
    ConsumedBytes(b, Decode(b).consumed, Decode(b).frame);
  }

  lemma ConsumedBytes(b: seq<byte>, n: nat, f: Frame)
    requires HEADER <= n <= |b| && f.body == b[16..n] && |f.body| < WORD
    requires BigEndian(4, f.cmd) == b[0..4] && BigEndian(4, f.seqNo) == b[4..8]
    requires BigEndian(4, |f.body|) == b[8..12] && BigEndian(4, f.status) == b[12..16]
    ensures Encode(f) == b[..n]
  {
    hide BigEndian;
    Adjacent(b, 0, 4, 8);
    Adjacent(b, 0, 8, 12);
    Adjacent(b, 0, 12, 16);
    Adjacent(b, 0, 16, n);
  }

  // ---------- path slots ----------

  /** A path as it lies in its slot: cut so that a NUL always follows, zero-padded. */
  function Slot(path: seq<byte>): (s: seq<byte>)
    ensures |s| == PATH_SLOT
  {
    Kept(path) + Zeros(PATH_SLOT - |Kept(path)|)
  }

  function Kept(path: seq<byte>): (k: seq<byte>)
    ensures |k| < PATH_SLOT && k <= path
  {
    if |path| < PATH_SLOT then path else path[..PATH_SLOT - 1]
  }

  /** The reader of a slot gets the path back, cut to what the slot can hold. */
  lemma SlotReadsBack(path: seq<byte>, rest: seq<byte>)
    requires 0 !in path
    ensures CString(Slot(path) + rest) == Kept(path)
  {
    var pad := Zeros(PATH_SLOT - |Kept(path)|);
    assert pad == [0] + pad[1..];
    assert Slot(path) + rest == Kept(path) + [0] + (pad[1..] + rest);
    CStringOf(Kept(path), pad[1..] + rest);
  }

  /** Copies a path into the slot that starts where `done` ends. */
  method PutPath(out: ByteVector, at: nat, path: seq<byte>, ghost done: seq<byte>, ghost left: nat)
    requires at == |done| && out.bytes == done + Zeros(PATH_SLOT + left)
    modifies out
    ensures out.bytes == done + Slot(path) + Zeros(left)
  {
    var n := if |path| < PATH_SLOT - 1 then |path| else PATH_SLOT - 1;
    assert path[..n] == Kept(path);
    SpliceNext(done, PATH_SLOT + left, path[..n]);
    out.Copy(at, path[..n]);
    assert Zeros(PATH_SLOT + left - n) == Zeros(PATH_SLOT - n) + Zeros(left);
  }

  /** The kind of operation, a zero word and one path slot. */
  method BuildPathOpBody(kind: u32, path: seq<byte>) returns (out: ByteVector)
    ensures fresh(out) && out.bytes == BigEndian(4, kind) + BigEndian(4, 0) + Slot(path)
  {
    hide BigEndian, Slot, Splice, Zeros;
    out := new ByteVector();
    PutHead(out, kind, PATH_SLOT);
    PutPath(out, 8, path, BigEndian(4, kind) + BigEndian(4, 0), 0);
    assert out.bytes == BigEndian(4, kind) + BigEndian(4, 0) + Slot(path);
  }

  /** A zeroed body with the kind and the reserved word in front. */
  method PutHead(out: ByteVector, kind: u32, slots: nat)
    requires out.bytes == []
    modifies out
    ensures out.bytes == BigEndian(4, kind) + BigEndian(4, 0) + Zeros(slots)
  {
    hide BigEndian, Splice, Zeros;
    out.Grow(8 + slots);
    SpliceNext([], 8 + slots, BigEndian(4, kind));
    assert [] + Zeros(8 + slots) == Zeros(8 + slots);
    out.WriteU32(0, kind);
    assert [] + BigEndian(4, kind) + Zeros(4 + slots) == BigEndian(4, kind) + Zeros(4 + slots);
    SpliceNext(BigEndian(4, kind), 4 + slots, BigEndian(4, 0));
    out.WriteU32(4, 0);
  }

  const RENAME_KIND: u32 := 0x0C

  method BuildRenameBody(from: seq<byte>, to: seq<byte>) returns (out: ByteVector)
    ensures fresh(out) && out.bytes == BigEndian(4, RENAME_KIND) + BigEndian(4, 0) + Slot(from) + Slot(to)
  {
    hide BigEndian, Slot, Splice, Zeros;
    out := new ByteVector();
    PutHead(out, RENAME_KIND, PATH_SLOT * 2);
    ghost var head := BigEndian(4, RENAME_KIND) + BigEndian(4, 0);
    PutPath(out, 8, from, head, PATH_SLOT);
    PutPath(out, 8 + PATH_SLOT, to, head + Slot(from), 0);
    assert out.bytes == head + Slot(from) + Slot(to);
  }
}

module TsmpCodec {
  import opened BeIo
  import opened Wrappers

  const HEADER: nat := 6
  const MAX_BODY: nat := 65529

  datatype Frame = Frame(kind: u16, cmd: u16, body: seq<byte>)
  datatype Decoded = Decoded(frame: Frame, consumed: nat) | ShortBuffer | BadLength

  function Encode(f: Frame): (b: seq<byte>)
    ensures |b| == HEADER + |f.body|
  {
    BigEndian(2, f.kind) + BigEndian(2, (HEADER + |f.body|) % 0x1_0000) + BigEndian(2, f.cmd) + f.body
  }

  function Decode(b: seq<byte>): Decoded {
    if |b| < HEADER then ShortBuffer
    else
      var length := U16At(b, 2);
      if length < HEADER || length > |b| then BadLength
      else Decoded(Frame(U16At(b, 0), U16At(b, 4), b[HEADER..length]), length)
  }

  method EncodeTsmp(f: Frame, out: ByteVector) returns (total: nat)
    modifies out
    ensures out.bytes == old(out.bytes) + Encode(f) && total == HEADER + |f.body|
  {
    hide Splice, Zeros, BigEndian;
    total := HEADER + |f.body|;
    var start := |out.bytes|;
    ghost var done := out.bytes;
    out.Grow(total);
    SpliceNext(done, total, BigEndian(2, f.kind));
    out.WriteU16(start, f.kind);
    done := done + BigEndian(2, f.kind);
    SpliceNext(done, total - 2, BigEndian(2, total % 0x1_0000));
    out.WriteU16(start + 2, total % 0x1_0000);
    done := done + BigEndian(2, total % 0x1_0000);
    SpliceNext(done, total - 4, BigEndian(2, f.cmd));
    out.WriteU16(start + 4, f.cmd);
    done := done + BigEndian(2, f.cmd);
    SpliceNext(done, |f.body|, f.body);
    if |f.body| > 0 {
      out.Copy(start + HEADER, f.body);
    }
  }

  /** A printed message reads back exactly when its total length fits 16 bits. */
  lemma RoundTripIffFits(f: Frame, rest: seq<byte>)
    ensures Decode(Encode(f) + rest) == Decoded(f, HEADER + |f.body|) <==> |f.body| <= MAX_BODY
  {
    hide BigEndian;
    var b := Encode(f) + rest;
    var total := (HEADER + |f.body|) % 0x1_0000;
    assert b[0..2] == BigEndian(2, f.kind) && b[2..4] == BigEndian(2, total) && b[4..6] == BigEndian(2, f.cmd);
    assert b[6..6 + |f.body|] == f.body;
    ReadU16(b, 0, f.kind);
    ReadU16(b, 2, total);
    ReadU16(b, 4, f.cmd);
  }

  lemma ReprintsConsumed(b: seq<byte>)
    requires Decode(b).Decoded?
    ensures Encode(Decode(b).frame) == b[..Decode(b).consumed]
  {
    hide BigEndian;
    Reprint(b, 0);
    Reprint(b, 2);
    Reprint(b, 4);
    var n := Decode(b).consumed;
    hide U16At;
    Adjacent(b, 0, 2, 4);
    Adjacent(b, 0, 4, 6);
    Adjacent(b, 0, 6, n);
  }

  // ---------- partition status ----------

  const SKIP: nat := 6
  const ENTRY: nat := 32
  const NAME_SLOT: nat := 16

  datatype Lpar = Lpar(name: seq<byte>, status: u64, detail: u64)

  function LparAt(b: seq<byte>, off: nat): Lpar
    requires off + ENTRY <= |b|
  {
    Lpar(CString(b[off..off + NAME_SLOT]), U64At(b, off + 16), U64At(b, off + 24))
  }

  /** The whole entries of a status reply; none when the last one is cut short. */
  function Lpars(b: seq<byte>): seq<Lpar> {
    if |b| < SKIP || (|b| - SKIP) % ENTRY != 0 then []
    else seq((|b| - SKIP) / ENTRY, i requires 0 <= i < (|b| - SKIP) / ENTRY => LparAt(b, SKIP + ENTRY * i))
  }

  method ParseLparStatusReply(b: seq<byte>) returns (out: seq<Lpar>)
    ensures out == Lpars(b)
  {
    hide LparAt;
    out := [];
    if |b| < SKIP || (|b| - SKIP) % ENTRY != 0 {
      return;
    }
    var off: int := SKIP;
    while off + ENTRY <= |b|
      invariant off == SKIP + ENTRY * |out| <= |b|
      invariant forall k :: 0 <= k < |out| ==> out[k] == LparAt(b, SKIP + ENTRY * k)
    {
      out := out + [LparAt(b, off)];
      off := off + ENTRY;
    }
  }

  /** A name with fewer than sixteen bytes is padded; one of sixteen has no NUL. */
  function PutLpar(e: Lpar): (b: seq<byte>)
    requires |e.name| <= NAME_SLOT
    ensures |b| == ENTRY
  {
    e.name + Zeros(NAME_SLOT - |e.name|) + BigEndian(8, e.status) + BigEndian(8, e.detail)
  }

  function PutLpars(es: seq<Lpar>): (b: seq<byte>)
    requires forall e :: e in es ==> |e.name| <= NAME_SLOT
    ensures |b| == ENTRY * |es|
  {
    if es == [] then [] else PutLpars(es[..|es| - 1]) + PutLpar(es[|es| - 1])
  }

  lemma LparReadsBack(front: seq<byte>, e: Lpar, rest: seq<byte>)
    requires |e.name| <= NAME_SLOT && 0 !in e.name
    ensures LparAt(front + PutLpar(e) + rest, |front|) == e
  {
    var b := front + PutLpar(e) + rest;
    var n := |front|;
    var name := e.name + Zeros(NAME_SLOT - |e.name|);
    assert b[n..n + 16] == name;
    assert b[n + 16..n + 24] == BigEndian(8, e.status);
    assert b[n + 24..n + 32] == BigEndian(8, e.detail);
    ReadU64(b, n + 16, e.status);
    ReadU64(b, n + 24, e.detail);
    NameReadsBack(e.name);
  }

  lemma NameReadsBack(name: seq<byte>)
    requires |name| <= NAME_SLOT && 0 !in name
    ensures CString(name + Zeros(NAME_SLOT - |name|)) == name
  {
    if |name| == NAME_SLOT {
      assert name + Zeros(0) == name;
      WholeCString(name);
    } else {
      var pad := Zeros(NAME_SLOT - |name|);
      assert pad == [0] + pad[1..];
      assert name + pad == name + [0] + pad[1..];
      CStringOf(name, pad[1..]);
    }
  }

  lemma {:induction false} WholeCString(s: seq<byte>)
    requires 0 !in s
    ensures CString(s) == s
  {
    if s != [] {
      WholeCString(s[1..]);
      assert [s[0]] + s[1..] == s;
    }
  }

  lemma {:induction false} LparOfPut(front: seq<byte>, es: seq<Lpar>, rest: seq<byte>, k: nat)
    requires k < |es| && forall e :: e in es ==> |e.name| <= NAME_SLOT && 0 !in e.name
    ensures LparAt(front + PutLpars(es) + rest, |front| + ENTRY * k) == es[k]
    decreases |es|
  {
    hide LparAt, PutLpar;
    var init := es[..|es| - 1];
    var last := PutLpar(es[|es| - 1]);
    var b := front + PutLpars(es) + rest;
    assert b == front + PutLpars(init) + (last + rest);
    if k == |es| - 1 {
      assert b == (front + PutLpars(init)) + last + rest;
      LparReadsBack(front + PutLpars(init), es[k], rest);
    } else {
      LparOfPut(front, init, last + rest, k);
    }
  }

  /** A status reply parses to exactly the partitions it was laid out from. */
  lemma LparsReadBack(front: seq<byte>, es: seq<Lpar>)
    requires |front| == SKIP && forall e :: e in es ==> |e.name| <= NAME_SLOT && 0 !in e.name
    ensures Lpars(front + PutLpars(es)) == es
  {
    hide LparAt, PutLpars;
    var b := front + PutLpars(es);
    assert b + [] == b;
    forall k | 0 <= k < |es| ensures LparAt(b, SKIP + ENTRY * k) == es[k] {
      LparOfPut(front, es, [], k);
    }
  }
}
