// The proxy-to-proxy frame transport: a 32-byte header and a JPEG payload.
module StreamProto {
  import opened Wrappers
  import opened GoInts
  import opened Bytes
  import opened Framing
  import opened Conn

  type uint32 = x: int | 0 <= x < 0x1_0000_0000
  type uint64 = x: int | 0 <= x < TWO_64
  type int64 = x: int | -TWO_63 <= x < TWO_63

  const MAGIC: seq<byte> := [0x4D, 0x4A, 0x50, 0x47]
  const VERSION: byte := 1
  const HEADER_SIZE: nat := 32
  const MAX_FRAME_SIZE: nat := 10 * 1024 * 1024

  // The timestamp is the instant in Unix nanoseconds.
  datatype Frame = Frame(timestamp: int64, sequence: uint64, cameraId: uint32, payload: seq<byte>)

  datatype Error = ReadFailed(e: ReadError) | WriteFailed | InvalidMagic | InvalidVersion | FrameTooLarge | EmptyPayload

  // ---- The format.

  predicate Writable(f: Frame) {
    0 < |f.payload| <= MAX_FRAME_SIZE
  }

  function Header(f: Frame): (h: seq<byte>)
    ensures |h| == HEADER_SIZE
  {
    MAGIC + [VERSION, 0] + ToBigEndian(HEADER_SIZE, 2)
    + ToBigEndian(ToUnsigned64(f.timestamp), 8) + ToBigEndian(f.cameraId, 4)
    + ToBigEndian(f.sequence, 8) + ToBigEndian(|f.payload|, 4)
  }

  function Encode(f: Frame): seq<byte> {
    Header(f) + f.payload
  }

  // The checks ReadFrame makes on a header, and the payload length it announces.
  function HeaderError(h: seq<byte>): Option<Error>
    requires |h| == HEADER_SIZE
  {
    var length := FromBigEndian(h[28..32]);
    if h[..4] != MAGIC then Some(InvalidMagic)
    else if h[4] != VERSION then Some(InvalidVersion)
    else if length == 0 then Some(EmptyPayload)
    else if length > MAX_FRAME_SIZE then Some(FrameTooLarge)
    else None
  }

  function HeaderFrame(h: seq<byte>, payload: seq<byte>): Frame
    requires |h| == HEADER_SIZE
  {
    FieldsAreBounded(h);
    Frame(ToSigned64(FromBigEndian(h[8..16])), FromBigEndian(h[20..28]), FromBigEndian(h[16..20]), payload)
  }

  lemma FieldsAreBounded(h: seq<byte>)
    requires |h| == HEADER_SIZE
    ensures FromBigEndian(h[8..16]) < TWO_64 && FromBigEndian(h[20..28]) < TWO_64
    ensures FromBigEndian(h[16..20]) < 0x1_0000_0000
  {
    FieldWidths();
    FromBigEndianIsBounded(h[8..16]);
    FromBigEndianIsBounded(h[20..28]);
    FromBigEndianIsBounded(h[16..20]);
  }

  // What reading one frame from a stream that holds s returns.
  function Decode(s: seq<byte>): Read<Frame, Error> {
    match ReadFullResult(s, HEADER_SIZE)
    case Err(e) => Failed(ReadFailed(e))
    case Ok(h) =>
      match HeaderError(h)
      case Some(e) => Failed(e)
      case None =>
        var length := FromBigEndian(h[28..32]);
        match ReadFullResult(s[HEADER_SIZE..], length)
        case Err(e) => Failed(ReadFailed(e))
        case Ok(payload) => Got(HeaderFrame(h, payload), HEADER_SIZE + length)
  }

  // ---- Writing and reading are inverse.

  lemma HeaderFields(f: Frame)
    ensures var h := Header(f);
            && h[..4] == MAGIC && h[4] == VERSION
            && h[8..16] == ToBigEndian(ToUnsigned64(f.timestamp), 8)
            && h[16..20] == ToBigEndian(f.cameraId, 4)
            && h[20..28] == ToBigEndian(f.sequence, 8)
            && h[28..32] == ToBigEndian(|f.payload|, 4)
  {
    var a := MAGIC + [VERSION, 0] + ToBigEndian(HEADER_SIZE, 2);
    var b := a + ToBigEndian(ToUnsigned64(f.timestamp), 8);
    var c := b + ToBigEndian(f.cameraId, 4);
    var d := c + ToBigEndian(f.sequence, 8);
    assert |a| == 8 && |b| == 16 && |c| == 20 && |d| == 28;
    assert Header(f) == d + ToBigEndian(|f.payload|, 4);
    assert a[..4] == MAGIC && a[4] == VERSION;
  }

  lemma HeaderValues(f: Frame)
    requires |f.payload| < 0x1_0000_0000
    ensures FromBigEndian(Header(f)[28..32]) == |f.payload|
    ensures HeaderFrame(Header(f), f.payload) == f
  {
    HeaderFields(f);
    FieldWidths();
    FieldHolds(ToUnsigned64(f.timestamp), 8);
    FieldHolds(f.cameraId, 4);
    FieldHolds(f.sequence, 8);
    FieldHolds(|f.payload|, 4);
  }

  lemma DecodeOfParts(h: seq<byte>, payload: seq<byte>, rest: seq<byte>)
    requires |h| == HEADER_SIZE && HeaderError(h) == None && FromBigEndian(h[28..32]) == |payload|
    ensures Decode(h + payload + rest) == Got(HeaderFrame(h, payload), HEADER_SIZE + |payload|)
  {
    var s := h + payload + rest;
    assert s[..HEADER_SIZE] == h;
    assert s[HEADER_SIZE..] == payload + rest;
    assert (payload + rest)[..|payload|] == payload;
  }

  // The reader accepts exactly what the writer writes: same limits, and every field,
  // timestamps before 1970 included, comes back.
  lemma DecodeOfEncode(f: Frame, rest: seq<byte>)
    requires Writable(f)
    ensures Decode(Encode(f) + rest) == Got(f, |Encode(f)|)
  {
    HeaderFields(f);
    HeaderValues(f);
    DecodeOfParts(Header(f), f.payload, rest);
  }

  lemma DecodeOfCut(f: Frame, n: nat)
    requires Writable(f) && n < |Encode(f)|
    ensures Decode(Encode(f)[..n]) == Failed(ReadFailed(if n == 0 || n == HEADER_SIZE then Eof else UnexpectedEof))
  {
    var s := Encode(f)[..n];
    if n >= HEADER_SIZE {
      HeaderFields(f);
      HeaderValues(f);
      assert s[..HEADER_SIZE] == Header(f);
      assert |s[HEADER_SIZE..]| < |f.payload|;
    }
  }

  // Without the limits of the writer a frame does not come back.
  lemma UnwritableIsRejected(f: Frame, rest: seq<byte>)
    requires !Writable(f) && |f.payload| < 0x1_0000_0000
    ensures Decode(Encode(f) + rest) == Failed(if f.payload == [] then EmptyPayload else FrameTooLarge)
  {
    HeaderFields(f);
    HeaderValues(f);
    assert (Encode(f) + rest)[..HEADER_SIZE] == Header(f);
  }

  lemma FormatReadsBack()
    ensures WellSized<Frame, Error>(Decode) && ReadsBack<Frame, Error>(Decode, Encode, Writable) && Decode([]) == Failed(ReadFailed(Eof))
  {
    forall f, rest | Writable(f) ensures Decode(Encode(f) + rest) == Got(f, |Encode(f)|) {
      DecodeOfEncode(f, rest);
    }
    forall f, n | Writable(f) && 0 <= n < |Encode(f)| ensures Decode(Encode(f)[..n]).Failed? {
      DecodeOfCut(f, n);
    }
  }

  // A frame on the wire: "MJPG", version 1, no flags, the header size, then the timestamp
  // as an unsigned number, the camera id, the sequence number and the size of the payload,
  // each with its most significant byte first.
  lemma FrameByByte(f: Frame)
    requires |f.payload| < 0x1_0000_0000
    ensures var e := Encode(f);
            && |e| == 32 + |f.payload|
            && e[0] == 0x4D && e[1] == 0x4A && e[2] == 0x50 && e[3] == 0x47 && e[4] == 1 && e[5] == 0
            && U16(e, 6) == 32
            && U64(e, 8) == (if f.timestamp >= 0 then f.timestamp else f.timestamp + 0x1_0000_0000_0000_0000)
            && U32(e, 16) == f.cameraId
            && U64(e, 20) == f.sequence
            && U32(e, 28) == |f.payload|
            && e[32..] == f.payload
  {
    hide FromBigEndian, ToBigEndian, U16, U32, U64;
    FieldWidths();
    HeaderFields(f);
    var e, h := Encode(f), Header(f);
    assert forall i :: 0 <= i < 32 ==> e[i] == h[i];
    assert h[..6] == MAGIC + [VERSION, 0] && forall i :: 0 <= i < 6 ==> h[..6][i] == e[i];
    assert e[6..8] == h[6..8] == ToBigEndian(32, 2);
    assert e[8..16] == h[8..16] && e[16..20] == h[16..20] && e[20..28] == h[20..28] && e[28..32] == h[28..32];
    TwoBytes(e, 6);
    EightBytes(e, 8);
    FourBytes(e, 16);
    EightBytes(e, 20);
    FourBytes(e, 28);
    FieldHolds(32, 2);
    FieldHolds(ToUnsigned64(f.timestamp), 8);
    FieldHolds(f.cameraId, 4);
    FieldHolds(f.sequence, 8);
    FieldHolds(|f.payload|, 4);
  }

  // Reading a concatenation of written frames returns exactly those frames and then a
  // clean end of file.
  lemma StreamRoundTrip(frames: seq<Frame>)
    requires forall i :: 0 <= i < |frames| ==> Writable(frames[i])
    ensures WellSized<Frame, Error>(Decode)
    ensures ReadAll<Frame, Error>(Decode, WriteAll(Encode, frames)) == Stream(frames, ReadFailed(Eof))
  {
    hide *;
    FormatReadsBack();
    ReadAllStep<Frame, Error>(Decode, []);
    ReadAllOfWritten<Frame, Error>(Decode, Encode, Writable, frames, []);
    assert WriteAll(Encode, frames) + [] == WriteAll(Encode, frames);
    assert frames + [] == frames;
  }

  // Cut at any byte, the stream yields the frames that lie before the cut.
  lemma CutStream(frames: seq<Frame>, n: nat)
    requires forall i :: 0 <= i < |frames| ==> Writable(frames[i])
    requires n <= |WriteAll(Encode, frames)|
    ensures WellSized<Frame, Error>(Decode)
    ensures ReadAll<Frame, Error>(Decode, WriteAll(Encode, frames)[..n]).frames == frames[..WholeFrames(Encode, frames, n)]
  {
    FormatReadsBack();
    CutStreamKeepsWholeFrames<Frame, Error>(Decode, Encode, Writable, frames, n);
  }

  // ---- The writer and the reader as objects.

  // binary.BigEndian.PutUintN into part of a buffer.
  method PutBigEndian(buf: array<byte>, at: nat, n: nat, width: nat)
    requires at + width <= buf.Length
    modifies buf
    ensures buf[..] == old(buf[..at]) + ToBigEndian(n, width) + old(buf[at + width..])
  {
    var bytes := ToBigEndian(n, width);
    for i := 0 to width
      invariant buf[..at] == old(buf[..at])
      invariant buf[at..at + i] == bytes[..i]
      invariant buf[at + i..] == old(buf[at + i..])
    {
      buf[at + i] := bytes[i];
      assert buf[at..at + i + 1] == buf[at..at + i] + [bytes[i]];
    }
    assert buf[..] == buf[..at] + buf[at..at + width] + buf[at + width..];
  }

  // What one Write of a connection does: it takes n bytes, and all of them unless it fails.
  datatype Written = Written(n: nat, ok: bool)
  {
    predicate Of(size: nat) {
      n <= size && (ok ==> n == size)
    }
  }

  class Writer {
    var out: seq<byte>

    constructor ()
      ensures out == []
    {
      out := [];
    }

    // A write that fails leaves the beginning of the frame behind.
    method WriteFrame(f: Frame, header: Written, payload: Written) returns (r: Result<(), Error>)
      requires header.Of(HEADER_SIZE) && payload.Of(|f.payload|)
      modifies this
      ensures Writable(f) ==>
                && r == (if header.ok && payload.ok then Ok(()) else Err(WriteFailed))
                && out == old(out) + Encode(f)[..if header.ok then HEADER_SIZE + payload.n else header.n]
      ensures r.Ok? ==> out == old(out) + Encode(f)
      ensures !Writable(f) ==> r == Err(if f.payload == [] then EmptyPayload else FrameTooLarge) && out == old(out)
    {
      if |f.payload| == 0 {
        return Err(EmptyPayload);
      }
      if |f.payload| > MAX_FRAME_SIZE {
        return Err(FrameTooLarge);
      }
      var hdr := BuildHeader(f);
      out := out + hdr[..][..header.n];
      if !header.ok {
        return Err(WriteFailed);
      }
      out := out + f.payload[..payload.n];
      assert out == old(out) + (Header(f) + f.payload)[..HEADER_SIZE + payload.n];
      if !payload.ok {
        return Err(WriteFailed);
      }
      return Ok(());
    }
  }

  // The header of WriteFrame, filled field by field.
  method BuildHeader(f: Frame) returns (hdr: array<byte>)
    ensures fresh(hdr) && hdr[..] == Header(f)
  {
    hdr := new byte[HEADER_SIZE](_ => 0);
    hdr[0], hdr[1], hdr[2], hdr[3], hdr[4] := MAGIC[0], MAGIC[1], MAGIC[2], MAGIC[3], VERSION;
    ghost var a := MAGIC + [VERSION, 0];
    assert hdr[..6] == a;
    PutBigEndian(hdr, 6, HEADER_SIZE, 2);
    ghost var b := a + ToBigEndian(HEADER_SIZE, 2);
    assert hdr[..8] == b;
    PutBigEndian(hdr, 8, ToUnsigned64(f.timestamp), 8);
    ghost var c := b + ToBigEndian(ToUnsigned64(f.timestamp), 8);
    assert hdr[..16] == c;
    PutBigEndian(hdr, 16, f.cameraId, 4);
    ghost var d := c + ToBigEndian(f.cameraId, 4);
    assert hdr[..20] == d;
    PutBigEndian(hdr, 20, f.sequence, 8);
    ghost var e := d + ToBigEndian(f.sequence, 8);
    assert hdr[..28] == e;
    PutBigEndian(hdr, 28, |f.payload|, 4);
    assert hdr[..] == e + ToBigEndian(|f.payload|, 4);
  }

  method ReadFrame(c: Connection) returns (r: Result<Frame, Error>)
    modifies c
    ensures match Decode(old(c.Remaining()))
            case Got(f, n) => r == Ok(f) && n <= old(|c.Remaining()|) && c.Remaining() == old(c.Remaining())[n..]
            case Failed(e) => r == Err(e)
  {
    ghost var s := c.Remaining();
    var hdr := c.ReadFull(HEADER_SIZE);
    if hdr.Err? {
      return Err(ReadFailed(hdr.error));
    }
    var h := hdr.value;
    if h[0] != MAGIC[0] || h[1] != MAGIC[1] || h[2] != MAGIC[2] || h[3] != MAGIC[3] {
      assert h[..4] != MAGIC;
      return Err(InvalidMagic);
    }
    assert h[..4] == MAGIC;
    if h[4] != VERSION {
      return Err(InvalidVersion);
    }
    var length := FromBigEndian(h[28..32]);
    if length == 0 {
      return Err(EmptyPayload);
    }
    if length > MAX_FRAME_SIZE {
      return Err(FrameTooLarge);
    }
    var payload := c.ReadFull(length);
    if payload.Err? {
      return Err(ReadFailed(payload.error));
    }
    assert s[HEADER_SIZE..][length..] == s[HEADER_SIZE + length..];
    return Ok(HeaderFrame(h, payload.value));
  }

  // The read loop of an upstream connection: the frames it hands on, and what ends it.
  method ReadFrames(c: Connection) returns (frames: seq<Frame>, error: Error)
    modifies c
    ensures WellSized<Frame, Error>(Decode)
    ensures Stream(frames, error) == ReadAll<Frame, Error>(Decode, old(c.Remaining()))
  {
    hide *;
    FormatReadsBack();
    frames := [];
    while true
      invariant var later := ReadAll<Frame, Error>(Decode, c.Remaining());
                ReadAll<Frame, Error>(Decode, old(c.Remaining())) == Stream(frames + later.frames, later.error)
      decreases |c.Remaining()|
    {
      ReadAllStep<Frame, Error>(Decode, c.Remaining());
      var r := ReadFrame(c);
      if r.Err? {
        assert frames + [] == frames;
        return frames, r.error;
      }
      ghost var later := ReadAll<Frame, Error>(Decode, c.Remaining()).frames;
      assert frames + ([r.value] + later) == frames + [r.value] + later;
      frames := frames + [r.value];
    }
  }
}
