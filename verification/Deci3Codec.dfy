/** The DECI3 envelope: a 16-byte big-endian header in front of an opaque payload.
  *
  * `Encode` prints a frame, `DecodeFrame` reads one from the front of a buffer and
  * `DecodeAll` is the batch reader. Main results: the two codecs are inverse in both
  * directions, and a decision about a buffer is never revised when more bytes follow.
  */
module Deci3Codec {
  import opened BeIo
  import opened Wrappers

  const MAGIC: u16 := 0x3010
  const HEADER_SIZE: nat := 16
  const MAX_PAYLOAD: nat := 65519

  datatype Frame = Frame(sessionA: u32, direction: u16, sessionB: u32, category: u16, payload: seq<byte>)
  {
    function WireSize(): nat {
      HEADER_SIZE + |payload|
    }

    /** The payload leaves room for the total in the 16-bit length field. */
    predicate Fits() {
      |payload| <= MAX_PAYLOAD
    }
  }

  datatype DecodeError = ShortBuffer | BadMagic | BadLength
  datatype DecodeResult = Decoded(frame: Frame, consumed: nat) | Failed(error: DecodeError)

  /** The header the encoder writes; the length cast to 16 bits wraps. */
  function Header(f: Frame): (h: seq<byte>)
    ensures |h| == HEADER_SIZE
  {
    BigEndian(2, MAGIC) + BigEndian(4, f.sessionA) + BigEndian(2, f.WireSize() % 0x1_0000)
    + BigEndian(2, f.direction) + BigEndian(4, f.sessionB) + BigEndian(2, f.category)
  }

  function Encode(f: Frame): (b: seq<byte>)
    ensures |b| == f.WireSize()
  {
    Header(f) + f.payload
  }

  function EncodeAll(fs: seq<Frame>): seq<byte> {
    if fs == [] then [] else Encode(fs[0]) + EncodeAll(fs[1..])
  }

  function DecodeFrame(b: seq<byte>): (r: DecodeResult)
    ensures r.Decoded? ==> HEADER_SIZE <= r.consumed <= |b| && r.consumed == r.frame.WireSize() < 0x1_0000
    ensures r == Failed(BadMagic) ==> |b| >= HEADER_SIZE
  {
    if |b| < HEADER_SIZE then Failed(ShortBuffer)
    else if U16At(b, 0) != MAGIC then Failed(BadMagic)
    else
      var length := U16At(b, 6);
      if length < HEADER_SIZE || length > |b| then Failed(BadLength)
      else Decoded(
          Frame(U32At(b, 2), U16At(b, 8), U32At(b, 10), U16At(b, 14), b[HEADER_SIZE..length]),
          length)
  }

  /** What the batch reader reports: the frames, where it stopped, and why if it failed. */
  datatype Batch = Batch(frames: seq<Frame>, offset: nat, error: Option<DecodeError>)

  function DecodeAll(b: seq<byte>): (r: Batch)
    ensures r.offset <= |b|
    ensures r.error.None? <==> r.offset == |b|
  {
    if b == [] then Batch([], 0, None)
    else match DecodeFrame(b)
      case Failed(e) => Batch([], 0, Some(e))
      case Decoded(f, n) =>
        var tail := DecodeAll(b[n..]);
        Batch([f] + tail.frames, n + tail.offset, tail.error)
  }

  // ---------- the imperative forms ----------

  method EncodeFrame(frame: Frame, out: ByteVector) returns (total: nat)
    modifies out
    ensures out.bytes == old(out.bytes) + Encode(frame)
    ensures total == frame.WireSize()
  {
    hide Splice, Zeros, BigEndian;
    total := frame.WireSize();
    var start := |out.bytes|;
    ghost var done := out.bytes;
    out.Grow(total);
    SpliceNext(done, total, BigEndian(2, MAGIC));
    out.WriteU16(start, MAGIC);
    done := done + BigEndian(2, MAGIC);
    SpliceNext(done, total - 2, BigEndian(4, frame.sessionA));
    out.WriteU32(start + 2, frame.sessionA);
    done := done + BigEndian(4, frame.sessionA);
    SpliceNext(done, total - 6, BigEndian(2, total % 0x1_0000));
    out.WriteU16(start + 6, total % 0x1_0000);
    done := done + BigEndian(2, total % 0x1_0000);
    SpliceNext(done, total - 8, BigEndian(2, frame.direction));
    out.WriteU16(start + 8, frame.direction);
    done := done + BigEndian(2, frame.direction);
    SpliceNext(done, total - 10, BigEndian(4, frame.sessionB));
    out.WriteU32(start + 10, frame.sessionB);
    done := done + BigEndian(4, frame.sessionB);
    SpliceNext(done, total - 14, BigEndian(2, frame.category));
    out.WriteU16(start + 14, frame.category);
    done := done + BigEndian(2, frame.category);
    assert done == old(out.bytes) + Header(frame);
    SpliceNext(done, |frame.payload|, frame.payload);
    if |frame.payload| > 0 {
      out.Copy(start + HEADER_SIZE, frame.payload);
    }
  }

  method DecodeAllFrames(buffer: seq<byte>) returns (frames: seq<Frame>, offset: nat, error: Option<DecodeError>)
    ensures Batch(frames, offset, error) == DecodeAll(buffer)
  {
    hide DecodeFrame;
    frames, offset := [], 0;
    while offset < |buffer|
      invariant offset <= |buffer|
      invariant DecodeAll(buffer) == After(frames, offset, DecodeAll(buffer[offset..]))
    {
      var r := DecodeFrame(buffer[offset..]);
      if r.Failed? {
        return frames, offset, Some(r.error);
      }
      Unroll(frames, offset, buffer[offset..]);
      assert buffer[offset..][r.consumed..] == buffer[offset + r.consumed..];
      frames := frames + [r.frame];
      offset := offset + r.consumed;
    }
    error := None;
  }

  function After(frames: seq<Frame>, offset: nat, tail: Batch): Batch {
    Batch(frames + tail.frames, offset + tail.offset, tail.error)
  }

  /** The batch reader, one frame further. */
  lemma Unroll(frames: seq<Frame>, offset: nat, b: seq<byte>)
    requires DecodeFrame(b).Decoded?
    ensures var r := DecodeFrame(b);
      After(frames, offset, DecodeAll(b)) == After(frames + [r.frame], offset + r.consumed, DecodeAll(b[r.consumed..]))
  {
    hide DecodeFrame;
    var r := DecodeFrame(b);
    var tail := DecodeAll(b[r.consumed..]);
    assert frames + ([r.frame] + tail.frames) == frames + [r.frame] + tail.frames;
  }

  // ---------- printing then reading ----------

  /** Where each header field lies in a buffer that starts with an encoded frame. */
  lemma HeaderLayout(f: Frame, rest: seq<byte>)
    ensures var b := Encode(f) + rest;
      && b[0..2] == BigEndian(2, MAGIC)
      && b[2..6] == BigEndian(4, f.sessionA)
      && b[6..8] == BigEndian(2, f.WireSize() % 0x1_0000)
      && b[8..10] == BigEndian(2, f.direction)
      && b[10..14] == BigEndian(4, f.sessionB)
      && b[14..16] == BigEndian(2, f.category)
      && b[16..f.WireSize()] == f.payload
  {
  }

  lemma HeaderReads(f: Frame, rest: seq<byte>)
    ensures var b := Encode(f) + rest;
      && U16At(b, 0) == MAGIC && U32At(b, 2) == f.sessionA
      && U16At(b, 6) == f.WireSize() % 0x1_0000 && U16At(b, 8) == f.direction
      && U32At(b, 10) == f.sessionB && U16At(b, 14) == f.category
  {
    var b := Encode(f) + rest;
    HeaderLayout(f, rest);
    ReadU16(b, 0, MAGIC);
    ReadU32(b, 2, f.sessionA);
    ReadU16(b, 6, f.WireSize() % 0x1_0000);
    ReadU16(b, 8, f.direction);
    ReadU32(b, 10, f.sessionB);
    ReadU16(b, 14, f.category);
  }

  /** A printed frame reads back exactly, with whatever follows left alone, if and only
    * if its payload is at most 65519 bytes: above that the length field has wrapped. */
  lemma RoundTripIffFits(f: Frame, rest: seq<byte>)
    ensures DecodeFrame(Encode(f) + rest) == Decoded(f, f.WireSize()) <==> f.Fits()
  {
    HeaderReads(f, rest);
    HeaderLayout(f, rest);
  }

  /** Reading a frame and printing it gives back the bytes that were consumed. */
  lemma ReprintsConsumed(b: seq<byte>)
    requires DecodeFrame(b).Decoded?
    ensures DecodeFrame(b).frame.Fits()
    ensures Encode(DecodeFrame(b).frame) == b[..DecodeFrame(b).consumed]
  {
    var n := DecodeFrame(b).consumed;
    Reprint(b, 0);
    Reprint(b, 2);
    Reprint(b, 6);
    Reprint(b, 8);
    Reprint(b, 10);
    Reprint(b, 14);
    HeaderIs(DecodeFrame(b).frame, b);
    assert b[..n] == b[..HEADER_SIZE] + b[HEADER_SIZE..n];
  }

  lemma HeaderIs(f: Frame, b: seq<byte>)
    requires |b| >= HEADER_SIZE && f.WireSize() < 0x1_0000
    requires BigEndian(2, MAGIC) == b[0..2] && BigEndian(4, f.sessionA) == b[2..6]
    requires BigEndian(2, f.WireSize()) == b[6..8] && BigEndian(2, f.direction) == b[8..10]
    requires BigEndian(4, f.sessionB) == b[10..14] && BigEndian(2, f.category) == b[14..16]
    ensures Header(f) == b[..HEADER_SIZE]
  {
    hide BigEndian;
    Adjacent(b, 0, 2, 6);
    Adjacent(b, 0, 6, 8);
    Adjacent(b, 0, 8, 10);
    Adjacent(b, 0, 10, 14);
    Adjacent(b, 0, 14, 16);
  }

  /** Back-to-back frames decode to the list that was printed, with nothing left over. */
  lemma {:induction false} DecodeAllOfEncodeAll(fs: seq<Frame>)
    requires forall f :: f in fs ==> f.Fits()
    ensures DecodeAll(EncodeAll(fs)) == Batch(fs, |EncodeAll(fs)|, None)
  {
    if fs != [] {
      RoundTripIffFits(fs[0], EncodeAll(fs[1..]));
      assert EncodeAll(fs)[fs[0].WireSize()..] == EncodeAll(fs[1..]);
      DecodeAllOfEncodeAll(fs[1..]);
    }
  }

  /** Printing what the batch reader returned gives exactly the bytes it accepted; when
    * it reports no error that is the whole input. */
  lemma {:induction false} EncodeAllOfDecodeAll(b: seq<byte>)
    ensures EncodeAll(DecodeAll(b).frames) == b[..DecodeAll(b).offset]
    ensures DecodeAll(b).error.None? ==> EncodeAll(DecodeAll(b).frames) == b
  {
    hide DecodeFrame;
    var r := DecodeAll(b);
    if r.frames != [] {
      var n := DecodeFrame(b).consumed;
      var tail := DecodeAll(b[n..]);
      ReprintsConsumed(b);
      EncodeAllOfDecodeAll(b[n..]);
      calc {
        EncodeAll(r.frames);
        { assert r.frames == [r.frames[0]] + tail.frames; }
        Encode(r.frames[0]) + EncodeAll(tail.frames);
        b[..n] + b[n..][..tail.offset];
        b[..r.offset];
      }
    }
  }

  // ---------- more bytes do not change a decision ----------

  /** A frame or a bad magic found in a buffer is found in every extension of it. */
  lemma DecisionIsStable(b: seq<byte>, more: seq<byte>)
    requires DecodeFrame(b).Decoded? || DecodeFrame(b) == Failed(BadMagic)
    ensures DecodeFrame(b + more) == DecodeFrame(b)
  {
    if DecodeFrame(b).Decoded? {
      var n := DecodeFrame(b).consumed;
      assert (b + more)[HEADER_SIZE..n] == b[HEADER_SIZE..n];
    }
  }

  /** A length field below the header size can never be completed by more bytes. */
  lemma ShortLengthNeverCompletes(b: seq<byte>, more: seq<byte>)
    requires |b| >= HEADER_SIZE && U16At(b, 0) == MAGIC && U16At(b, 6) < HEADER_SIZE
    ensures DecodeFrame(b + more) == Failed(BadLength)
  {
  }
}
