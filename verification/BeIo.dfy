/** Big-endian words over byte sequences, and the byte vector the encoders write into.
  *
  * Every codec stands on the two inverse lemmas below. The code writes each width with
  * its own shifts; the methods follow it and are proved to write `BigEndian(width, v)`.
  */
module BeIo {

  type byte = b: int | 0 <= b < 0x100
  type u16 = v: int | 0 <= v < 0x1_0000
  type u32 = v: int | 0 <= v < 0x1_0000_0000
  type u64 = v: int | 0 <= v < 0x1_0000_0000_0000_0000

  function Pow256(n: nat): (p: nat)
    ensures p >= 1
  {
    if n == 0 then 1 else 256 * Pow256(n - 1)
  }

  /** The `n` low bytes of `v`, most significant first. */
  function BigEndian(n: nat, v: nat): (bs: seq<byte>)
    ensures |bs| == n
  {
    if n == 0 then [] else BigEndian(n - 1, v / 256) + [v % 256]
  }

  /** The number a big-endian byte string stands for. */
  function Value(bs: seq<byte>): (v: nat)
    ensures v < Pow256(|bs|)
  {
    if bs == [] then 0 else Value(bs[..|bs| - 1]) * 256 + bs[|bs| - 1] as int
  }

  lemma {:induction false} ValueOfBigEndian(n: nat, v: nat)
    requires v < Pow256(n)
    ensures Value(BigEndian(n, v)) == v
  {
    if n > 0 {
      ValueOfBigEndian(n - 1, v / 256);
      assert BigEndian(n, v)[..n - 1] == BigEndian(n - 1, v / 256);
    }
  }

  lemma {:induction false} BigEndianOfValue(bs: seq<byte>)
    ensures BigEndian(|bs|, Value(bs)) == bs
  {
    if bs != [] {
      BigEndianOfValue(bs[..|bs| - 1]);
      assert Value(bs) / 256 == Value(bs[..|bs| - 1]);
    }
  }

  function U16At(b: seq<byte>, off: nat): (v: u16)
    requires off + 2 <= |b|
  {
    (b[off] as int) * 0x100 + b[off + 1]
  }

  function U32At(b: seq<byte>, off: nat): (v: u32)
    requires off + 4 <= |b|
  {
    U16At(b, off) * 0x1_0000 + U16At(b, off + 2)
  }

  function U64At(b: seq<byte>, off: nat): (v: u64)
    requires off + 8 <= |b|
  {
    U32At(b, off) * 0x1_0000_0000 + U32At(b, off + 4)
  }

  /** The fixed-width readers agree with the positional value of the bytes they read. */
  lemma ReadersAreValue(b: seq<byte>, off: nat)
    ensures off + 2 <= |b| ==> U16At(b, off) == Value(b[off..off + 2])
    ensures off + 4 <= |b| ==> U32At(b, off) == Value(b[off..off + 4])
    ensures off + 8 <= |b| ==> U64At(b, off) == Value(b[off..off + 8])
  {
    if off + 2 <= |b| {
      ValueOf2(b[off..off + 2]);
    }
    if off + 4 <= |b| {
      ValueOf4(b[off..off + 4]);
    }
    if off + 8 <= |b| {
      ValueOf8(b[off..off + 8]);
    }
  }

  lemma ValueOf8(w: seq<byte>)
    requires |w| == 8
    ensures Value(w) == U64At(w, 0)
  {
    ValueOf4(w[..4]);
    ValueOf4(w[4..]);
    ValueSplits(w[..4], w[4..]);
    assert w == w[..4] + w[4..];
    Widths();
  }

  lemma ValueOf2(w: seq<byte>)
    requires |w| == 2
    ensures Value(w) == U16At(w, 0)
  {
    assert w[..1][..0] == [];
    assert Value(w[..1]) == w[0];
  }

  lemma ValueOf4(w: seq<byte>)
    requires |w| == 4
    ensures Value(w) == U32At(w, 0)
  {
    ValueOf2(w[..2]);
    ValueOf2(w[2..]);
    ValueSplits(w[..2], w[2..]);
    assert w == w[..2] + w[2..];
    Widths();
  }

  lemma {:induction false} ValueSplits(hi: seq<byte>, lo: seq<byte>)
    ensures Value(hi + lo) == Value(hi) * Pow256(|lo|) + Value(lo)
  {
    if lo == [] {
      assert hi + lo == hi;
    } else {
      var k := |lo| - 1;
      ValueSplits(hi, lo[..k]);
      calc {
        Value(hi + lo);
        { assert (hi + lo)[..|hi| + k] == hi + lo[..k]; }
        Value(hi + lo[..k]) * 256 + lo[k] as int;
        (Value(hi) * Pow256(k)) * 256 + Value(lo[..k]) * 256 + lo[k] as int;
        { Regroup(Value(hi), Pow256(k)); }
        Value(hi) * Pow256(k + 1) + Value(lo);
      }
    }
  }

  lemma Regroup(a: nat, p: nat)
    ensures (a * p) * 256 == a * (256 * p)
  {
  }

  /** A word printed at `off` reads back, whatever surrounds it. */
  lemma ReadU16(b: seq<byte>, off: nat, v: u16)
    requires off + 2 <= |b| && b[off..off + 2] == BigEndian(2, v)
    ensures U16At(b, off) == v
  {
    Widths();
    ValueOfBigEndian(2, v);
    ReadersAreValue(b, off);
  }

  lemma ReadU32(b: seq<byte>, off: nat, v: u32)
    requires off + 4 <= |b| && b[off..off + 4] == BigEndian(4, v)
    ensures U32At(b, off) == v
  {
    Widths();
    ValueOfBigEndian(4, v);
    ReadersAreValue(b, off);
  }

  lemma ReadU64(b: seq<byte>, off: nat, v: u64)
    requires off + 8 <= |b| && b[off..off + 8] == BigEndian(8, v)
    ensures U64At(b, off) == v
  {
    Widths();
    ValueOfBigEndian(8, v);
    ReadersAreValue(b, off);
  }

  /** Printing a word that was read gives back the bytes it was read from. */
  lemma Reprint(b: seq<byte>, off: nat)
    ensures off + 2 <= |b| ==> BigEndian(2, U16At(b, off)) == b[off..off + 2]
    ensures off + 4 <= |b| ==> BigEndian(4, U32At(b, off)) == b[off..off + 4]
    ensures off + 8 <= |b| ==> BigEndian(8, U64At(b, off)) == b[off..off + 8]
  {
    ReadersAreValue(b, off);
    if off + 2 <= |b| {
      BigEndianOfValue(b[off..off + 2]);
    }
    if off + 4 <= |b| {
      BigEndianOfValue(b[off..off + 4]);
    }
    if off + 8 <= |b| {
      BigEndianOfValue(b[off..off + 8]);
    }
  }

  lemma Widths()
    ensures Pow256(1) == 0x100 && Pow256(2) == 0x1_0000
    ensures Pow256(4) == 0x1_0000_0000 && Pow256(8) == 0x1_0000_0000_0000_0000
  {
  }

  /** The eight-step accumulation the 64-bit reader runs. */
  method ReadBeU64(p: seq<byte>) returns (v: u64)
    requires |p| >= 8
    ensures v == U64At(p, 0)
  {
    var acc: nat := 0;
    for i := 0 to 8
      invariant acc == Value(p[..i])
    {
      assert p[..i + 1][..i] == p[..i];
      acc := acc * 256 + p[i] as int;
    }
    ReadersAreValue(p, 0);
    assert p[0..8] == p[..8];
    v := acc;
  }

  /** The bounds-checked readers: a read that runs off the end is 0. */
  function U32OrZero(b: seq<byte>, off: nat): (v: u32)
    ensures v == if off + 4 <= |b| then Value(b[off..off + 4]) else 0
  {
    ReadersAreValue(b, off);
    if off + 4 <= |b| then U32At(b, off) else 0
  }

  function U64OrZero(b: seq<byte>, off: nat): (v: u64)
    ensures v == if off + 8 <= |b| then Value(b[off..off + 8]) else 0
  {
    ReadersAreValue(b, off);
    if off + 8 <= |b| then U64At(b, off) else 0
  }

  /** The bytes up to the first NUL. */
  function CString(b: seq<byte>): (s: seq<byte>)
    ensures s <= b && 0 !in s
    ensures |s| < |b| ==> b[|s|] == 0
  {
    if b == [] || b[0] == 0 then [] else [b[0]] + CString(b[1..])
  }

  /** A NUL-free string followed by a NUL reads back as itself. */
  lemma {:induction false} CStringOf(s: seq<byte>, rest: seq<byte>)
    requires 0 !in s
    ensures CString(s + [0] + rest) == s
  {
    var b := s + [0] + rest;
    if s != [] {
      assert b[1..] == s[1..] + [0] + rest;
      CStringOf(s[1..], rest);
    }
  }

  /** At most `max` bytes from `off` on, up to the first NUL; nothing past the end. */
  function CStringAt(b: seq<byte>, off: nat, max: nat): seq<byte> {
    if off >= |b| then []
    else CString(b[off..if max < |b| - off then off + max else |b|])
  }

  /** The copying loop of the bounded string reader. */
  method ReadCStr(b: seq<byte>, off: nat, max: nat) returns (s: seq<byte>)
    ensures s == CStringAt(b, off, max)
  {
    hide CString;
    s := [];
    if off >= |b| {
      return;
    }
    var end := if max < |b| - off then off + max else |b|;
    ghost var w := b[off..end];
    for i := off to end
      invariant s == w[..i - off] && forall k :: 0 <= k < i - off ==> w[k] != 0
    {
      assert b[i] == w[i - off];
      if b[i] == 0 {
        CStringEndsAt(w, i - off);
        return;
      }
      s := s + [b[i]];
    }
    CStringEndsAt(w, |w|);
  }

  lemma {:induction false} CStringEndsAt(w: seq<byte>, n: nat)
    requires n <= |w| && (forall k :: 0 <= k < n ==> w[k] != 0) && (n < |w| ==> w[n] == 0)
    ensures CString(w) == w[..n]
  {
    if n > 0 {
      CStringEndsAt(w[1..], n - 1);
    }
  }

  function Zeros(n: nat): (z: seq<byte>)
    ensures |z| == n
  {
    seq(n, _ => 0)
  }

  /** `data` laid over `b` from `at` on. */
  function Splice(b: seq<byte>, at: nat, data: seq<byte>): (r: seq<byte>)
    requires at + |data| <= |b|
    ensures |r| == |b|
  {
    b[..at] + data + b[at + |data|..]
  }

  lemma Adjacent(b: seq<byte>, i: nat, j: nat, k: nat)
    requires i <= j <= k <= |b|
    ensures b[i..j] + b[j..k] == b[i..k]
  {
  }

  /** Filling the next bytes of a zeroed tail. */
  lemma SpliceNext(done: seq<byte>, left: nat, data: seq<byte>)
    requires |data| <= left
    ensures Splice(done + Zeros(left), |done|, data) == done + data + Zeros(left - |data|)
  {
  }

  /** The std::vector<std::byte> that encoders resize and then fill at offsets. */
  class ByteVector {
    var bytes: seq<byte>

    constructor ()
      ensures bytes == []
    {
      bytes := [];
    }

    method Grow(n: nat)
      modifies this
      ensures bytes == old(bytes) + Zeros(n)
    {
      bytes := bytes + Zeros(n);
    }

    method WriteU16(at: nat, v: u16)
      requires at + 2 <= |bytes|
      modifies this
      ensures bytes == Splice(old(bytes), at, BigEndian(2, v))
    {
      bytes := bytes[at := v / 256];
      bytes := bytes[at + 1 := v % 256];
    }

    method WriteU32(at: nat, v: u32)
      requires at + 4 <= |bytes|
      modifies this
      ensures bytes == Splice(old(bytes), at, BigEndian(4, v))
    {
      WriteU16(at, v / 0x1_0000);
      WriteU16(at + 2, v % 0x1_0000);
      HalfWords(v);
      assert BigEndian(4, v) == BigEndian(2, v / 0x1_0000) + BigEndian(2, v % 0x1_0000);
    }

    method Copy(at: nat, data: seq<byte>)
      requires at + |data| <= |bytes|
      modifies this
      ensures bytes == Splice(old(bytes), at, data)
    {
      bytes := bytes[..at] + data + bytes[at + |data|..];
    }

    /** The eight pushes of the 64-bit appender, most significant byte first. */
    method AppendU64(v: u64)
      modifies this
      ensures bytes == old(bytes) + BigEndian(8, v)
    {
      var i := 8;
      assert BigEndian(8, v)[..0] == [];
      while i > 0
        invariant 0 <= i <= 8
        invariant bytes == old(bytes) + BigEndian(8, v)[..8 - i]
      {
        i := i - 1;
        ByteOfWord(8, v, i);
        bytes := bytes + [v / Pow256(i) % 256];
      }
    }

    method AppendU32(v: u32)
      modifies this
      ensures bytes == old(bytes) + BigEndian(4, v)
    {
      ghost var before := bytes;
      bytes := bytes + [v / 0x100_0000 % 256];
      bytes := bytes + [v / 0x1_0000 % 256];
      bytes := bytes + [v / 0x100 % 256];
      bytes := bytes + [v % 256];
      HalfWords(v);
      assert bytes == before + BigEndian(4, v);
    }

    method Append(data: seq<byte>)
      modifies this
      ensures bytes == old(bytes) + data
    {
      bytes := bytes + data;
    }
  }

  lemma HalfWords(v: u32)
    ensures BigEndian(2, v / 0x1_0000) == [v / 0x100_0000 % 256, v / 0x1_0000 % 256]
    ensures BigEndian(4, v) == [v / 0x100_0000 % 256, v / 0x1_0000 % 256, v / 0x100 % 256, v % 256]
    ensures BigEndian(2, v % 0x1_0000) == [v / 0x100 % 256, v % 256]
  {
    Shifts(v);
    TwoBytes(v / 0x1_0000);
    TwoBytes(v % 0x1_0000);
    FourBytes(v);
  }

  lemma Shifts(v: nat)
    ensures v / 0x1_0000 / 256 == v / 0x100_0000 && v / 256 / 256 == v / 0x1_0000
    ensures v % 0x1_0000 / 256 % 256 == v / 256 % 256 && v % 0x1_0000 % 256 == v % 256
  {
  }

  lemma TwoBytes(v: nat)
    ensures BigEndian(2, v) == [v / 256 % 256, v % 256]
  {
    assert BigEndian(1, v / 256) == [v / 256 % 256];
  }

  lemma FourBytes(v: nat)
    ensures BigEndian(4, v) == BigEndian(2, v / 256 / 256) + [v / 256 % 256, v % 256]
  {
    assert BigEndian(3, v / 256) == BigEndian(2, v / 256 / 256) + [v / 256 % 256];
  }

  /** Byte `i` of a big-endian word, counted from the least significant end, is the
    * word shifted right by `8 * i` bits and masked. */
  lemma {:induction false} ByteOfWord(n: nat, v: nat, i: nat)
    requires i < n
    ensures BigEndian(n, v)[n - 1 - i] == v / Pow256(i) % 256
  {
    if i > 0 {
      ByteOfWord(n - 1, v / 256, i - 1);
      DivDiv(v, Pow256(i - 1));
    }
  }

  lemma DivDiv(v: nat, p: nat)
    requires p >= 1
    ensures v / 256 / p == v / (256 * p)
  {
    var q := v / 256 / p;
    var r := v / 256 - q * p;
    var s := v % 256;
    assert 0 <= r < p;
    var w := 256 * r + s;
    assert v == q * (256 * p) + w by {
      assert 256 * (q * p) == q * (256 * p);
    }
    assert 0 <= w < 256 * p;
    QuotientIs(v, 256 * p, q, w);
  }

  lemma QuotientIs(v: int, d: int, q: int, w: int)
    requires 0 < d && 0 <= w < d && v == q * d + w
    ensures v / d == q
  {
    DivisionIsUnique(d, v / d, v % d, q, w);
  }

  lemma DivisionIsUnique(d: int, k: int, m: int, q: int, w: int)
    requires 0 <= m < d && 0 <= w < d && k * d + m == q * d + w
    ensures k == q
  {
    assert (k - q) * d == w - m;
    AtLeastOneMultiple(k - q, d);
  }

  lemma AtLeastOneMultiple(e: int, d: int)
    requires 0 < d
    ensures e > 0 ==> e * d >= d
    ensures e < 0 ==> e * d <= -d
  {
  }
}
