/** The file-serving protocol: an eight-byte header of code and sequence number, and the
  * replies the host builds. Odd codes answer the even ones below them.
  */
module DrfpCodec {
  import opened BeIo
  import opened Wrappers

  const LAST_CODE: u32 := 33

  const INIT: u32 := 0
  const OPEN: u32 := 2
  const CLOSE: u32 := 4
  const READ: u32 := 6
  const WRITE: u32 := 8
  const SEEK: u32 := 10
  const FSTAT: u32 := 12
  const STAT: u32 := 14
  const MKDIR: u32 := 16
  const RMDIR: u32 := 18
  const DOPEN: u32 := 20
  const DCLOSE: u32 := 22
  const DREAD: u32 := 24
  const FTRUNCATE: u32 := 26
  const TRUNCATE: u32 := 28
  const RENAME: u32 := 30
  const UNLINK: u32 := 32

  datatype Request = Request(code: u32, seqNo: u32, payload: seq<byte>)

  function Parse(b: seq<byte>): Option<Request> {
    if |b| < 8 then None
    else if U32At(b, 0) > LAST_CODE then None
    else Some(Request(U32At(b, 0), U32At(b, 4), b[8..]))
  }

  function Build(code: u32, seqNo: u32, payload: seq<byte>): (b: seq<byte>)
    ensures |b| == 8 + |payload|
  {
    BigEndian(4, code) + BigEndian(4, seqNo) + payload
  }

  /** A built message parses back to its parts exactly when its code is a known one. */
  lemma ParseOfBuildIff(code: u32, seqNo: u32, payload: seq<byte>)
    ensures Parse(Build(code, seqNo, payload)) == Some(Request(code, seqNo, payload)) <==> code <= LAST_CODE
  {
    var b := Build(code, seqNo, payload);
    assert b[0..4] == BigEndian(4, code) && b[4..8] == BigEndian(4, seqNo) && b[8..] == payload;
    ReadU32(b, 0, code);
    ReadU32(b, 4, seqNo);
  }

  /** What parses was built from the parts it parsed to. */
  lemma BuildOfParse(b: seq<byte>)
    requires Parse(b).Some?
    ensures Build(Parse(b).value.code, Parse(b).value.seqNo, Parse(b).value.payload) == b
  {
    Reprint(b, 0);
    Reprint(b, 4);
    assert b == b[0..4] + b[4..8] + b[8..];
  }

  // ---------- reply bodies ----------

  function Word(v: u32): seq<byte> {
    BigEndian(4, v)
  }

  datatype Stat = Stat(mode: u32, mtime: u64, atime: u64, ctime: u64, size: u32)

  const UNKNOWN: u32 := 0xffff_ffff

  function StatBody(result: u32, st: Stat): (b: seq<byte>)
    ensures |b| == 48
  {
    Word(result) + Word(st.mode) + Word(UNKNOWN) + Word(UNKNOWN)
    + BigEndian(8, st.mtime) + BigEndian(8, st.atime) + BigEndian(8, st.ctime)
    + Word(0) + Word(st.size)
  }

  function ReadBody(result: u32, data: seq<byte>): (b: seq<byte>)
    requires |data| < 0x1_0000_0000
    ensures |b| == 8 + |data| && b[8..] == data
  {
    Word(result) + Word(|data|) + data
  }

  function WriteBody(result: u32, nbytes: u32): seq<byte> {
    Word(result) + Word(if result == 0 then nbytes else 0)
  }

  function DopenBody(result: u32, fd: u32): seq<byte> {
    Word(result) + Word(if result == 0 then fd else UNKNOWN)
  }

  function DreadBody(result: u32, entry: seq<byte>): (b: seq<byte>)
    requires |entry| < 0x1_0000_0000
    ensures |b| == 8 + (if result == 0 then |entry| else 0)
    ensures result == 0 ==> b[8..] == entry
  {
    if result != 0 then Word(result) + Word(0) else Word(result) + Word(|entry|) + entry
  }

  const DIRENT_SIZE: nat := 258
  const NAME_SLOT: nat := 256

  function Left(name: seq<byte>, n: nat): (t: seq<byte>)
    ensures |t| == if |name| < n then |name| else n
  {
    if |name| < n then name else name[..n]
  }

  /** A fixed-size directory entry: kind, name length, name, zero padding. */
  function Dirent(kind: byte, name: seq<byte>): (d: seq<byte>)
    ensures |d| == DIRENT_SIZE
  {
    var kept := Left(name, NAME_SLOT - 1);
    [kind, |kept|] + kept + Zeros(NAME_SLOT - |kept|)
  }

  /** The reader of an entry gets the name back, cut to 255 bytes and always terminated. */
  lemma DirentNameReadsBack(kind: byte, name: seq<byte>)
    requires 0 !in name
    ensures var d := Dirent(kind, name);
      d[0] == kind && d[1] == |Left(name, NAME_SLOT - 1)| && CString(d[2..]) == Left(name, NAME_SLOT - 1)
  {
    var kept := Left(name, NAME_SLOT - 1);
    var pad := Zeros(NAME_SLOT - |kept|);
    assert pad == [0] + pad[1..];
    assert Dirent(kind, name)[2..] == kept + [0] + pad[1..];
    CStringOf(kept, pad[1..]);
  }

  // ---------- the builders as written: appends to a fresh buffer ----------

  method BuildDrfp(code: u32, seqNo: u32, payload: seq<byte>) returns (out: ByteVector)
    ensures fresh(out) && out.bytes == Build(code, seqNo, payload)
  {
    hide BigEndian;
    out := new ByteVector();
    out.AppendU32(code);
    out.AppendU32(seqNo);
    out.Append(payload);
  }

  method BuildStatReply(code: u32, seqNo: u32, result: u32, st: Stat) returns (out: ByteVector)
    ensures fresh(out) && out.bytes == Build(code, seqNo, StatBody(result, st))
  {
    hide BigEndian, Build;
    var body := new ByteVector();
    body.AppendU32(result);
    body.AppendU32(st.mode);
    body.AppendU32(UNKNOWN);
    body.AppendU32(UNKNOWN);
    body.AppendU64(st.mtime);
    body.AppendU64(st.atime);
    body.AppendU64(st.ctime);
    body.AppendU32(0);
    body.AppendU32(st.size);
    assert body.bytes == StatBody(result, st);
    out := BuildDrfp(code, seqNo, body.bytes);
  }

  method BuildReadReply(seqNo: u32, result: u32, data: seq<byte>) returns (out: ByteVector)
    requires |data| < 0x1_0000_0000
    ensures fresh(out) && out.bytes == Build(READ + 1, seqNo, ReadBody(result, data))
  {
    hide BigEndian, Build;
    var body := new ByteVector();
    body.AppendU32(result);
    body.AppendU32(|data|);
    body.Append(data);
    assert body.bytes == ReadBody(result, data);
    out := BuildDrfp(READ + 1, seqNo, body.bytes);
  }

  method BuildDreadReply(seqNo: u32, result: u32, entry: seq<byte>) returns (out: ByteVector)
    requires |entry| < 0x1_0000_0000
    ensures fresh(out) && out.bytes == Build(DREAD + 1, seqNo, DreadBody(result, entry))
  {
    hide BigEndian, Build;
    var body := new ByteVector();
    body.AppendU32(result);
    if result != 0 {
      body.AppendU32(0);
    } else {
      body.AppendU32(|entry|);
      body.Append(entry);
    }
    assert body.bytes == DreadBody(result, entry);
    out := BuildDrfp(DREAD + 1, seqNo, body.bytes);
  }
}
