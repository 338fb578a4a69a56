/** Where each field of each message lies, byte by byte: the offsets and widths that the
  * console at the other end expects.
  */
module WireLayouts {
  import opened BeIo
  import opened Wrappers
  import Deci3Codec
  import DfmpCodec
  import TsmpCodec
  import DrfpCodec
  import DbgpCodec

  /** A frame: magic 30 10, session, length, direction, session, category, then the payload. */
  lemma Deci3Layout(f: Deci3Codec.Frame)
    ensures var b := Deci3Codec.Encode(f);
            |b| == 16 + |f.payload| && b[0] == 0x30 && b[1] == 0x10 && U32At(b, 2) == f.sessionA
            && U16At(b, 6) == |b| % 0x1_0000 && U16At(b, 8) == f.direction && U32At(b, 10) == f.sessionB
            && U16At(b, 14) == f.category && b[16..] == f.payload
  {
    var b := Deci3Codec.Encode(f);
    assert b[0..2] == BigEndian(2, 0x3010) && b[2..6] == BigEndian(4, f.sessionA);
    assert b[6..8] == BigEndian(2, |b| % 0x1_0000) && b[8..10] == BigEndian(2, f.direction);
    assert b[10..14] == BigEndian(4, f.sessionB) && b[14..16] == BigEndian(2, f.category);
    assert BigEndian(2, 0x3010) == [0x30, 0x10] && b[0] == b[0..2][0] && b[1] == b[0..2][1];
    hide BigEndian, Deci3Codec.Encode;
    ReadU32(b, 2, f.sessionA);
    ReadU16(b, 6, |b| % 0x1_0000);
    ReadU16(b, 8, f.direction);
    ReadU32(b, 10, f.sessionB);
    ReadU16(b, 14, f.category);
  }

  /** A file message: command, number, body length, status, then the body. */
  lemma DfmpLayout(f: DfmpCodec.Frame)
    ensures var b := DfmpCodec.Encode(f);
            |b| == 16 + |f.body| && U32At(b, 0) == f.cmd && U32At(b, 4) == f.seqNo
            && U32At(b, 8) == |f.body| % 0x1_0000_0000 && U32At(b, 12) == f.status && b[16..] == f.body
  {
    hide BigEndian;
    var b := DfmpCodec.Encode(f);
    assert b[0..4] == BigEndian(4, f.cmd) && b[4..8] == BigEndian(4, f.seqNo);
    assert b[8..12] == BigEndian(4, |f.body| % 0x1_0000_0000) && b[12..16] == BigEndian(4, f.status);
    ReadU32(b, 0, f.cmd);
    ReadU32(b, 4, f.seqNo);
    ReadU32(b, 8, |f.body| % 0x1_0000_0000);
    ReadU32(b, 12, f.status);
  }

  /** A slot is 1056 bytes; at most 1055 of them are the path's, and zeros fill it. */
  lemma SlotLayout(path: seq<byte>, k: nat)
    requires k < 1056
    ensures var s := DfmpCodec.Slot(path);
            |s| == 1056 && s[k] == if k < |path| && k < 1055 then path[k] else 0
  {
  }

  /** A system message: kind, total length, command, then the body. */
  lemma TsmpLayout(f: TsmpCodec.Frame)
    ensures var b := TsmpCodec.Encode(f);
            |b| == 6 + |f.body| && U16At(b, 0) == f.kind && U16At(b, 2) == |b| % 0x1_0000 && U16At(b, 4) == f.cmd
            && b[6..] == f.body
  {
    hide BigEndian;
    var b := TsmpCodec.Encode(f);
    assert b[0..2] == BigEndian(2, f.kind) && b[2..4] == BigEndian(2, |b| % 0x1_0000) && b[4..6] == BigEndian(2, f.cmd);
    ReadU16(b, 0, f.kind);
    ReadU16(b, 2, |b| % 0x1_0000);
    ReadU16(b, 4, f.cmd);
  }

  /** A file-serving message: code, number, then the body. */
  lemma DrfpLayout(code: u32, seqNo: u32, body: seq<byte>)
    ensures var b := DrfpCodec.Build(code, seqNo, body);
            |b| == 8 + |body| && U32At(b, 0) == code && U32At(b, 4) == seqNo && b[8..] == body
  {
    hide BigEndian;
    var b := DrfpCodec.Build(code, seqNo, body);
    assert b[0..4] == BigEndian(4, code) && b[4..8] == BigEndian(4, seqNo);
    ReadU32(b, 0, code);
    ReadU32(b, 4, seqNo);
  }

  /** What a stat reply says: result, mode, two unknown owners, three times, and a size in the
    * low word of eight bytes. */
  lemma StatLayout(result: u32, st: DrfpCodec.Stat)
    ensures var b := DrfpCodec.StatBody(result, st);
            |b| == 48 && U32At(b, 0) == result && U32At(b, 4) == st.mode && U32At(b, 8) == 0xffff_ffff
            && U32At(b, 12) == 0xffff_ffff
    ensures var b := DrfpCodec.StatBody(result, st);
            U64At(b, 16) == st.mtime && U64At(b, 24) == st.atime && U64At(b, 32) == st.ctime && U32At(b, 40) == 0
            && U32At(b, 44) == st.size
  {
    hide BigEndian, U32At, U64At;
    var b := DrfpCodec.StatBody(result, st);
    WordsStat(result, st);
    ReadU32(b, 0, result);
    ReadU32(b, 4, st.mode);
    ReadU32(b, 8, 0xffff_ffff);
    ReadU32(b, 12, 0xffff_ffff);
    TimesStat(result, st);
    ReadU64(b, 16, st.mtime);
    ReadU64(b, 24, st.atime);
    ReadU64(b, 32, st.ctime);
    SizeStat(result, st);
    ReadU32(b, 40, 0);
    ReadU32(b, 44, st.size);
  }

  lemma WordsStat(result: u32, st: DrfpCodec.Stat)
    ensures var b := DrfpCodec.StatBody(result, st);
            b[0..4] == BigEndian(4, result) && b[4..8] == BigEndian(4, st.mode)
            && b[8..12] == BigEndian(4, 0xffff_ffff) && b[12..16] == BigEndian(4, 0xffff_ffff)
  {
    hide BigEndian;
  }

  lemma TimesStat(result: u32, st: DrfpCodec.Stat)
    ensures var b := DrfpCodec.StatBody(result, st);
            b[16..24] == BigEndian(8, st.mtime) && b[24..32] == BigEndian(8, st.atime) && b[32..40] == BigEndian(8, st.ctime)
  {
    hide BigEndian;
  }

  lemma SizeStat(result: u32, st: DrfpCodec.Stat)
    ensures var b := DrfpCodec.StatBody(result, st);
            b[40..44] == BigEndian(4, 0) && b[44..48] == BigEndian(4, st.size)
  {
    hide BigEndian;
  }

  /** A directory entry is 258 bytes: kind, length, at most 255 bytes of name, and zeros. */
  lemma DirentLayout(kind: byte, name: seq<byte>, k: nat)
    requires k < 256
    ensures var d := DrfpCodec.Dirent(kind, name); var n := if |name| < 255 then |name| else 255;
            |d| == 258 && d[0] == kind && d[1] as int == n && d[2 + k] == if k < n then name[k] else 0
  {
    var kept := DrfpCodec.Left(name, 255);
    var d := DrfpCodec.Dirent(kind, name);
    assert d[2..] == kept + Zeros(256 - |kept|);
    assert d[2..][k] == d[2 + k];
  }

  /** A debug request: command, number, payload length, process, payload, and a last byte that
    * makes the bytes add up. */
  lemma DbgpRequestLayout(r: DbgpCodec.Request)
    ensures var b := DbgpCodec.EncodedRequest(r); var n := |r.payload|;
            |b| == 17 + n && U32At(b, 0) == r.cmd && U32At(b, 4) == r.reqId && U32At(b, 8) == n % 0x1_0000_0000
            && U32At(b, 12) == r.processId && b[16..16 + n] == r.payload
            && b[16 + n] == (DbgpCodec.ByteSum(b[..16 + n]) - 0x10) % 0x100
  {
    hide BigEndian, DbgpCodec.ByteSum;
    var b, n := DbgpCodec.EncodedRequest(r), |r.payload|;
    assert b[..16 + n] == DbgpCodec.RequestBytes(r);
    assert b[0..4] == BigEndian(4, r.cmd) && b[4..8] == BigEndian(4, r.reqId);
    assert b[8..12] == BigEndian(4, n % 0x1_0000_0000) && b[12..16] == BigEndian(4, r.processId);
    ReadU32(b, 0, r.cmd);
    ReadU32(b, 4, r.reqId);
    ReadU32(b, 8, n % 0x1_0000_0000);
    ReadU32(b, 12, r.processId);
  }

  /** The sum of a message is that of its parts, each byte counted once. */
  lemma {:induction false} SumOfParts(a: seq<byte>, b: seq<byte>)
    ensures DbgpCodec.ByteSum(a + b) == DbgpCodec.ByteSum(a) + DbgpCodec.ByteSum(b)
    decreases |b|
  {
    if b == [] {
      assert a + b == a;
    } else {
      assert (a + b)[..|a + b| - 1] == a + b[..|b| - 1];
      SumOfParts(a, b[..|b| - 1]);
    }
  }

  lemma SumOfOne(x: byte)
    ensures DbgpCodec.ByteSum([x]) == x as int && DbgpCodec.ByteSum([]) == 0
  {
    assert [x][..0] == [];
  }

  /** A response gives up as much payload as its length word says, and no more than there is; a
    * buffer without room for a header and a trailer is none. */
  lemma ResponseIsCut(r: DbgpCodec.Response, trailer: byte, b: seq<byte>)
    ensures DbgpCodec.DecodeResponse(DbgpCodec.ResponseBytes(r, trailer)) ==
            Some(r.(payload := if r.dataLen as int < |r.payload| then r.payload[..r.dataLen] else r.payload))
    ensures |b| < 21 ==> DbgpCodec.DecodeResponse(b) == None
  {
    hide BigEndian;
    var p := DbgpCodec.ResponseBytes(r, trailer);
    assert p[0..4] == BigEndian(4, r.cmd) && p[4..8] == BigEndian(4, r.reqId);
    assert p[8..12] == BigEndian(4, r.dataLen) && p[12..16] == BigEndian(4, r.processId);
    assert p[16..20] == BigEndian(4, r.resultCode) && p[20..20 + |r.payload|] == r.payload;
    ReadU32(p, 0, r.cmd);
    ReadU32(p, 4, r.reqId);
    ReadU32(p, 8, r.dataLen);
    ReadU32(p, 12, r.processId);
    ReadU32(p, 16, r.resultCode);
    if r.dataLen as int < |r.payload| {
      assert p[20..20 + r.dataLen] == r.payload[..r.dataLen];
    }
  }

  /** A status reply is taken whole or not at all: its entries are 32 bytes each behind six. */
  lemma StatusIsWholeOrNothing(b: seq<byte>, k: nat)
    ensures |b| < 6 || (|b| - 6) % 32 != 0 ==> TsmpCodec.Lpars(b) == []
    ensures |b| == 6 + 32 * k ==> |TsmpCodec.Lpars(b)| == k
  {
  }
}
