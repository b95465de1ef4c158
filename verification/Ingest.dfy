// The ingest server: the two wire formats cameras send, and one connection's loop over
// an arbitrary byte stream.
module Ingest {
  import opened Wrappers
  import opened Sets
  import opened Bytes
  import opened Framing
  import opened Conn
  import opened StreamProto

  const MAGIC_LEGACY: seq<byte> := [0x4A, 0x50, 0x47, 0x53]
  const MAGIC_DEVICE: seq<byte> := [0x4A, 0x50, 0x47, 0x44]
  const FIXED_SIZE: nat := 16
  const CAMERA_ID_SIZE: nat := 4

  datatype FrameHeader = FrameHeader(cameraId: uint32, sequence: uint32, payloadSize: uint32, timestampMs: uint32)

  // A frame on the wire; a legacy one has no camera id of its own.
  datatype WireFrame = WireFrame(device: bool, header: FrameHeader, payload: seq<byte>)

  datatype IngestError = HeaderRead(e: ReadError) | CameraIdRead(e: ReadError) | BadMagic | BadSize | PayloadRead(e: ReadError)

  // ---- Headers.

  function Field(h: seq<byte>, at: nat): uint32
    requires at + 4 <= |h|
  {
    FieldWidths();
    FromBigEndianIsBounded(h[at..at + 4]);
    FromBigEndian(h[at..at + 4])
  }

  function HeaderOf(h: seq<byte>, cameraId: uint32): FrameHeader
    requires |h| == FIXED_SIZE
  {
    FrameHeader(cameraId, Field(h, 4), Field(h, 8), Field(h, 12))
  }

  // ParseLegacyHeader and ParseDeviceHeader. None stands for their error returns.
  function ParseLegacyHeader(h: seq<byte>): Option<FrameHeader> {
    if |h| != FIXED_SIZE || h[..4] != MAGIC_LEGACY then None else Some(HeaderOf(h, 0))
  }

  function ParseDeviceHeader(h: seq<byte>, id: seq<byte>): Option<FrameHeader> {
    if |h| != FIXED_SIZE || |id| != CAMERA_ID_SIZE || h[..4] != MAGIC_DEVICE then None
    else Some(HeaderOf(h, Field(id, 0)))
  }

  // A header read from the front of s, whether it was a device header, and its size.
  datatype HeaderRead = HeaderRead(device: bool, header: FrameHeader, size: nat)

  function DecodeHeader(s: seq<byte>): Result<HeaderRead, IngestError> {
    match ReadFullResult(s, FIXED_SIZE)
    case Err(e) => Err(IngestError.HeaderRead(e))
    case Ok(h) =>
      if h[..4] == MAGIC_LEGACY then Ok(HeaderRead.HeaderRead(false, HeaderOf(h, 0), FIXED_SIZE))
      else if h[..4] == MAGIC_DEVICE then
        match ReadFullResult(s[FIXED_SIZE..], CAMERA_ID_SIZE)
        case Err(e) => Err(CameraIdRead(e))
        case Ok(id) => Ok(HeaderRead.HeaderRead(true, HeaderOf(h, Field(id, 0)), FIXED_SIZE + CAMERA_ID_SIZE))
      else Err(BadMagic)
  }

  // readFrame on a stream that holds s, with the configured frame limit.
  function DecodeFrame(max: uint32, s: seq<byte>): Read<WireFrame, IngestError> {
    match DecodeHeader(s)
    case Err(e) => Failed(e)
    case Ok(r) =>
      var n := r.header.payloadSize;
      if n == 0 || n > max then Failed(BadSize)
      else
        match ReadFullResult(s[r.size..], n)
        case Err(e) => Failed(PayloadRead(e))
        case Ok(payload) => Got(WireFrame(r.device, r.header, payload), r.size + n)
  }

  // ---- The sender's side of the format.

  function EncodeHeader(device: bool, h: FrameHeader): seq<byte> {
    (if device then MAGIC_DEVICE else MAGIC_LEGACY)
    + ToBigEndian(h.sequence, 4) + ToBigEndian(h.payloadSize, 4) + ToBigEndian(h.timestampMs, 4)
    + if device then ToBigEndian(h.cameraId, 4) else []
  }

  function EncodeFrame(f: WireFrame): seq<byte> {
    EncodeHeader(f.device, f.header) + f.payload
  }

  predicate Acceptable(max: uint32, f: WireFrame) {
    && f.header.payloadSize == |f.payload|
    && 0 < |f.payload| <= max
    && (!f.device ==> f.header.cameraId == 0)
  }

  // A header is exactly its bytes: nothing in it is ignored.
  lemma HeaderBytes(h: seq<byte>)
    requires |h| == FIXED_SIZE
    ensures h == h[..4] + ToBigEndian(Field(h, 4), 4) + ToBigEndian(Field(h, 8), 4) + ToBigEndian(Field(h, 12), 4)
  {
    ToOfFromBigEndian(h[4..8]);
    ToOfFromBigEndian(h[8..12]);
    ToOfFromBigEndian(h[12..16]);
    assert h == h[..4] + h[4..8] + h[8..12] + h[12..16];
  }

  lemma PrefixInTwo(s: seq<byte>, a: nat, n: nat)
    requires a + n <= |s|
    ensures s[..a + n] == s[..a] + s[a..][..n]
  {
  }

  // Every frame the server reads would be sent as exactly the bytes it was read from.
  lemma EncodeOfDecode(max: uint32, s: seq<byte>)
    requires DecodeFrame(max, s).Got?
    ensures var r := DecodeFrame(max, s);
            && 0 < r.size <= |s|
            && Acceptable(max, r.frame) && EncodeFrame(r.frame) == s[..r.size]
  {
    var r := DecodeFrame(max, s);
    var h := s[..FIXED_SIZE];
    HeaderBytes(h);
    var payload := r.frame.payload;
    if h[..4] == MAGIC_LEGACY {
      PrefixInTwo(s, FIXED_SIZE, |payload|);
      assert EncodeHeader(false, r.frame.header) == h;
    } else {
      var id := s[FIXED_SIZE..][..CAMERA_ID_SIZE];
      ToOfFromBigEndian(id);
      assert id[0..4] == id;
      PrefixInTwo(s, FIXED_SIZE + CAMERA_ID_SIZE, |payload|);
      PrefixInTwo(s, FIXED_SIZE, CAMERA_ID_SIZE);
      assert EncodeHeader(true, r.frame.header) == h + id;
    }
  }

  // The bytes of a frame that is read: "JPGD" or "JPGS", the sequence number, the size of
  // the payload and the timestamp, each with its most significant byte first, then the
  // camera id of a device, and then the payload.
  lemma FrameByByte(max: uint32, s: seq<byte>)
    requires DecodeFrame(max, s).Got?
    ensures var f := DecodeFrame(max, s).frame;
            var at := if f.device then 20 else 16;
            && DecodeFrame(max, s).size == at + f.header.payloadSize <= |s|
            && s[0] == 0x4A && s[1] == 0x50 && s[2] == 0x47 && s[3] == (if f.device then 0x44 else 0x53)
            && f.header.sequence == U32(s, 4)
            && f.header.payloadSize == U32(s, 8)
            && f.header.timestampMs == U32(s, 12)
            && f.header.cameraId == (if f.device then U32(s, 16) else 0)
            && f.payload == s[at..at + f.header.payloadSize]
  {
    hide FromBigEndian, U32;
    var h := s[..FIXED_SIZE];
    assert h[4..8] == s[4..8] && h[8..12] == s[8..12] && h[12..16] == s[12..16];
    FourBytes(s, 4);
    FourBytes(s, 8);
    FourBytes(s, 12);
    assert h[0] == s[0] && h[1] == s[1] && h[2] == s[2] && h[3] == s[3];
    var magic := h[..4];
    assert magic[0] == s[0] && magic[1] == s[1] && magic[2] == s[2] && magic[3] == s[3];
    if magic == MAGIC_DEVICE {
      FourBytes(s, 16);
      assert s[FIXED_SIZE..][..CAMERA_ID_SIZE][0..4] == s[16..20];
    }
  }

  lemma EncodedHeaderFields(device: bool, hdr: FrameHeader)
    ensures var e := EncodeHeader(device, hdr);
            && |e| == (if device then FIXED_SIZE + CAMERA_ID_SIZE else FIXED_SIZE)
            && e[..4] == (if device then MAGIC_DEVICE else MAGIC_LEGACY)
            && HeaderOf(e[..FIXED_SIZE], hdr.cameraId) == hdr
            && (device ==> Field(e[FIXED_SIZE..], 0) == hdr.cameraId)
  {
    var magic := if device then MAGIC_DEVICE else MAGIC_LEGACY;
    var a := magic + ToBigEndian(hdr.sequence, 4);
    var b := a + ToBigEndian(hdr.payloadSize, 4);
    var h := b + ToBigEndian(hdr.timestampMs, 4);
    var e := EncodeHeader(device, hdr);
    assert e[..FIXED_SIZE] == h && e[..4] == magic;
    assert h[4..8] == ToBigEndian(hdr.sequence, 4);
    assert h[8..12] == ToBigEndian(hdr.payloadSize, 4);
    assert h[12..16] == ToBigEndian(hdr.timestampMs, 4);
    FieldWidths();
    FieldHolds(hdr.sequence, 4);
    FieldHolds(hdr.payloadSize, 4);
    FieldHolds(hdr.timestampMs, 4);
    if device {
      assert e[FIXED_SIZE..] == ToBigEndian(hdr.cameraId, 4);
      assert e[FIXED_SIZE..][0..4] == ToBigEndian(hdr.cameraId, 4);
      FieldHolds(hdr.cameraId, 4);
    }
  }

  // A header followed by anything is read as that header.
  lemma DecodeOfHeader(device: bool, hdr: FrameHeader, rest: seq<byte>)
    requires !device ==> hdr.cameraId == 0
    ensures var e := EncodeHeader(device, hdr);
            DecodeHeader(e + rest) == Ok(HeaderRead.HeaderRead(device, hdr, |e|))
  {
    var e := EncodeHeader(device, hdr);
    EncodedHeaderFields(device, hdr);
    var s := e + rest;
    assert s[..FIXED_SIZE] == e[..FIXED_SIZE];
    assert e[..FIXED_SIZE][..4] == e[..4];
    if device {
      assert s[FIXED_SIZE..][..CAMERA_ID_SIZE] == e[FIXED_SIZE..];
    }
  }

  lemma DecodeOfEncode(max: uint32, f: WireFrame, rest: seq<byte>)
    requires Acceptable(max, f)
    ensures DecodeFrame(max, EncodeFrame(f) + rest) == Got(f, |EncodeFrame(f)|)
  {
    var e := EncodeHeader(f.device, f.header);
    DecodeOfHeader(f.device, f.header, f.payload + rest);
    var s := e + (f.payload + rest);
    assert EncodeFrame(f) + rest == s;
    assert s[|e|..] == f.payload + rest;
    assert (f.payload + rest)[..|f.payload|] == f.payload;
  }

  // ---- One connection.

  datatype Event = Published(cameraId: uint32, jpeg: seq<byte>) | Offline(cameraId: uint32)

  function PublishedOf(frames: seq<WireFrame>): seq<Event> {
    if frames == [] then []
    else
      var f := frames[|frames| - 1];
      PublishedOf(frames[..|frames| - 1]) +
      if LooksLikeJpeg(f.payload) then [Published(f.header.cameraId, f.payload)] else []
  }

  // A payload that begins with FF D8 and ends with FF D9.
  predicate HasMarkers(payload: seq<byte>) {
    && |payload| >= 4
    && payload[..2] == [0xFF, 0xD8] && payload[|payload| - 2..] == [0xFF, 0xD9]
  }

  // Event i publishes frame from[i], under its camera id, in the order of the frames; all
  // frames with the markers are published and no other.
  ghost predicate Publishes(events: seq<Event>, frames: seq<WireFrame>, from: seq<nat>) {
    && |from| == |events|
    && (forall i, j :: 0 <= i < j < |from| ==> from[i] < from[j])
    && (forall i :: 0 <= i < |from| ==>
          && from[i] < |frames|
          && HasMarkers(frames[from[i]].payload)
          && events[i] == Published(frames[from[i]].header.cameraId, frames[from[i]].payload))
    && (forall k :: 0 <= k < |frames| && HasMarkers(frames[k].payload) ==> k in from)
  }

  lemma MarkersAreTheCheck(payload: seq<byte>)
    ensures LooksLikeJpeg(payload) <==> HasMarkers(payload)
  {
    if |payload| >= 4 {
      var first, last := payload[..2], payload[|payload| - 2..];
      assert first[0] == payload[0] && first[1] == payload[1];
      assert last[0] == payload[|payload| - 2] && last[1] == payload[|payload| - 1];
    }
  }

  lemma PublishesOneMore(events: seq<Event>, frames: seq<WireFrame>, from: seq<nat>, f: WireFrame)
    requires Publishes(events, frames, from)
    ensures !HasMarkers(f.payload) ==> Publishes(events, frames + [f], from)
    ensures HasMarkers(f.payload) ==>
              Publishes(events + [Published(f.header.cameraId, f.payload)], frames + [f], from + [|frames|])
  {
    hide HasMarkers;
    forall k | 0 <= k <= |frames| && HasMarkers((frames + [f])[k].payload) ensures k in from + [|frames|] {
      if k < |frames| {
        assert k in from;
      } else {
        assert (from + [|frames|])[|from|] == k;
      }
    }
  }

  lemma {:induction false} PublishedOfPublishes(frames: seq<WireFrame>) returns (from: seq<nat>)
    ensures Publishes(PublishedOf(frames), frames, from)
  {
    if frames == [] {
      from := [];
    } else {
      hide HasMarkers, LooksLikeJpeg, Publishes;
      var before, f := frames[..|frames| - 1], frames[|frames| - 1];
      from := PublishedOfPublishes(before);
      MarkersAreTheCheck(f.payload);
      PublishesOneMore(PublishedOf(before), before, from, f);
      assert frames == before + [f];
      assert PublishedOf(before) + [] == PublishedOf(before);
      if HasMarkers(f.payload) {
        from := from + [|before|];
      }
    }
  }

  function IdsOf(events: seq<Event>): set<uint32> {
    set i | 0 <= i < |events| :: events[i].cameraId
  }

  // The offline notices at the end: one for each of the ids, in any order.
  ghost predicate OfflineOnce(events: seq<Event>, ids: set<uint32>) {
    && (forall i :: 0 <= i < |events| ==> events[i].Offline?)
    && (forall i, j :: 0 <= i < j < |events| ==> events[i].cameraId != events[j].cameraId)
    && IdsOf(events) == ids
  }

  lemma IdsOfOneMore(events: seq<Event>, e: Event)
    ensures IdsOf(events + [e]) == IdsOf(events) + {e.cameraId}
  {
    forall id ensures id in IdsOf(events + [e]) <==> id in IdsOf(events) + {e.cameraId} {
      if id in IdsOf(events) {
        var i :| 0 <= i < |events| && events[i].cameraId == id;
        assert (events + [e])[i].cameraId == id;
      }
      assert (events + [e])[|events|].cameraId == e.cameraId;
    }
  }

  lemma FormatIsCanonical(max: uint32)
    ensures WellSized<WireFrame, IngestError>(s => DecodeFrame(max, s))
    ensures forall s :: DecodeFrame(max, s).Got? ==>
              Acceptable(max, DecodeFrame(max, s).frame)
              && EncodeFrame(DecodeFrame(max, s).frame) == s[..DecodeFrame(max, s).size]
  {
    forall s | DecodeFrame(max, s).Got?
      ensures 0 < DecodeFrame(max, s).size <= |s|
      ensures Acceptable(max, DecodeFrame(max, s).frame)
      ensures EncodeFrame(DecodeFrame(max, s).frame) == s[..DecodeFrame(max, s).size]
    {
      EncodeOfDecode(max, s);
    }
  }

  function Frames(max: uint32, s: seq<byte>): Stream<WireFrame, IngestError> {
    FormatIsCanonical(max);
    ReadAll<WireFrame, IngestError>(s => DecodeFrame(max, s), s)
  }

  lemma FramesStep(max: uint32, s: seq<byte>)
    ensures match DecodeFrame(max, s)
            case Failed(e) => Frames(max, s) == Stream([], e)
            case Got(f, n) =>
              && 0 < n <= |s|
              && Frames(max, s) == Stream([f] + Frames(max, s[n..]).frames, Frames(max, s[n..]).error)
  {
    FormatIsCanonical(max);
  }

  // The frames read so far and those still to come.
  lemma OneMoreFrame(all: Stream<WireFrame, IngestError>, frames: seq<WireFrame>, f: WireFrame,
                     later: Stream<WireFrame, IngestError>)
    requires all == Stream(frames + ([f] + later.frames), later.error)
    ensures all == Stream((frames + [f]) + later.frames, later.error)
  {
  }

  lemma PublishedOfOneMore(frames: seq<WireFrame>, f: WireFrame)
    ensures PublishedOf(frames + [f]) ==
            PublishedOf(frames) + if LooksLikeJpeg(f.payload) then [Published(f.header.cameraId, f.payload)] else []
  {
    assert (frames + [f])[..|frames|] == frames;
  }

  method ReadHeader(c: Connection) returns (r: Result<HeaderRead, IngestError>)
    modifies c
    ensures r == DecodeHeader(old(c.Remaining()))
    ensures r.Ok? ==> r.value.size <= old(|c.Remaining()|) && c.Remaining() == old(c.Remaining())[r.value.size..]
  {
    ghost var s := c.Remaining();
    var fixed := c.ReadFull(FIXED_SIZE);
    if fixed.Err? {
      return Err(IngestError.HeaderRead(fixed.error));
    }
    var h := fixed.value;
    if h[..4] == MAGIC_LEGACY {
      var parsed := ParseLegacyHeader(h);
      return Ok(HeaderRead.HeaderRead(false, parsed.value, FIXED_SIZE));
    }
    if h[..4] == MAGIC_DEVICE {
      var id := c.ReadFull(CAMERA_ID_SIZE);
      if id.Err? {
        return Err(CameraIdRead(id.error));
      }
      assert s[FIXED_SIZE..][CAMERA_ID_SIZE..] == s[FIXED_SIZE + CAMERA_ID_SIZE..];
      var parsed := ParseDeviceHeader(h, id.value);
      return Ok(HeaderRead.HeaderRead(true, parsed.value, FIXED_SIZE + CAMERA_ID_SIZE));
    }
    return Err(BadMagic);
  }

  method ReadFrame(c: Connection, max: uint32) returns (r: Result<WireFrame, IngestError>)
    modifies c
    ensures match DecodeFrame(max, old(c.Remaining()))
            case Got(f, n) => r == Ok(f) && n <= old(|c.Remaining()|) && c.Remaining() == old(c.Remaining())[n..]
            case Failed(e) => r == Err(e)
  {
    ghost var s := c.Remaining();
    var header := ReadHeader(c);
    if header.Err? {
      return Err(header.error);
    }
    var n := header.value.header.payloadSize;
    if n == 0 || n > max {
      return Err(BadSize);
    }
    var payload := c.ReadFull(n);
    if payload.Err? {
      return Err(PayloadRead(payload.error));
    }
    assert s[header.value.size..][n..] == s[header.value.size + n..];
    return Ok(WireFrame(header.value.device, header.value.header, payload.value));
  }

  // The deferred function: every camera seen goes offline, in the map's own order.
  method ReportOffline(seen: set<uint32>) returns (events: seq<Event>)
    ensures OfflineOnce(events, seen)
  {
    events := [];
    var todo := seen;
    while todo != {}
      invariant todo <= seen && OfflineOnce(events, seen - todo)
      decreases |todo|
    {
      ghost var _ := SomeElement(todo);
      var id :| id in todo;
      IdsOfOneMore(events, Offline(id));
      forall i | 0 <= i < |events| ensures events[i].cameraId in IdsOf(events) {
      }
      todo := todo - {id};
      events := events + [Offline(id)];
      assert IdsOf(events) == seen - todo;
    }
    assert seen - {} == seen;
  }

  // However the bytes arrive, the connection ends, having published in order exactly the
  // JPEG payloads of the frames before the first one that cannot be read, and then
  // reports each camera it published for offline once, and no other.
  method HandleConnection(c: Connection, max: uint32) returns (published: seq<Event>, offline: seq<Event>, error: IngestError)
    modifies c
    ensures var stream := Frames(max, old(c.Remaining()));
            && published == PublishedOf(stream.frames)
            && (exists from :: Publishes(published, stream.frames, from))
            && error == stream.error
            && OfflineOnce(offline, IdsOf(published))
  {
    var seen: set<uint32> := {};
    published := [];
    ghost var all := Frames(max, c.Remaining());
    ghost var frames := [];
    assert [] + all.frames == all.frames;
    while true
      invariant all == Stream(frames + Frames(max, c.Remaining()).frames, Frames(max, c.Remaining()).error)
      invariant published == PublishedOf(frames) && seen == IdsOf(published)
      decreases |c.Remaining()|
    {
      FramesStep(max, c.Remaining());
      var r := ReadFrame(c, max);
      if r.Err? {
        error := r.error;
        assert frames + [] == frames;
        break;
      }
      var f := r.value;
      OneMoreFrame(all, frames, f, Frames(max, c.Remaining()));
      PublishedOfOneMore(frames, f);
      frames := frames + [f];
      if LooksLikeJpeg(f.payload) {
        IdsOfOneMore(published, Published(f.header.cameraId, f.payload));
        seen := seen + {f.header.cameraId};
        published := published + [Published(f.header.cameraId, f.payload)];
      }
    }
    ghost var from := PublishedOfPublishes(frames);
    offline := ReportOffline(seen);
  }

  // The frames the server reads are what a stream consists of: every byte string is the
  // encoding of these frames followed by something that is no acceptable frame.
  lemma EveryStreamSplits(max: uint32, s: seq<byte>)
    ensures exists tail ::
              && s == WriteAll(EncodeFrame, Frames(max, s).frames) + tail
              && DecodeFrame(max, tail).Failed?
    ensures forall i :: 0 <= i < |Frames(max, s).frames| ==> Acceptable(max, Frames(max, s).frames[i])
  {
    FormatIsCanonical(max);
    var read: Reader<WireFrame, IngestError> := s => DecodeFrame(max, s);
    StreamIsFramesAndLeftover<WireFrame, IngestError>(read, EncodeFrame, f => Acceptable(max, f), s);
    var tail := Leftover<WireFrame, IngestError>(read, s);
    assert s == WriteAll(EncodeFrame, Frames(max, s).frames) + tail && DecodeFrame(max, tail).Failed?;
  }

  lemma FramesOneMore(max: uint32, f: WireFrame, rest: seq<byte>)
    requires Acceptable(max, f)
    ensures Frames(max, EncodeFrame(f) + rest) == Stream([f] + Frames(max, rest).frames, Frames(max, rest).error)
  {
    DecodeOfEncode(max, f, rest);
    FramesStep(max, EncodeFrame(f) + rest);
    assert (EncodeFrame(f) + rest)[|EncodeFrame(f)|..] == rest;
  }

  // And that split is the only one: acceptable frames, whether their payloads are JPEGs or
  // not, followed by a tail that cannot be read are read as exactly those frames.
  lemma {:induction false} FramesOfStream(max: uint32, frames: seq<WireFrame>, tail: seq<byte>)
    requires forall i :: 0 <= i < |frames| ==> Acceptable(max, frames[i])
    requires DecodeFrame(max, tail).Failed?
    ensures Frames(max, WriteAll(EncodeFrame, frames) + tail) == Stream(frames, DecodeFrame(max, tail).error)
    decreases |frames|
  {
    hide DecodeFrame, EncodeFrame, Frames, Acceptable;
    if frames == [] {
      FramesStep(max, tail);
      assert WriteAll(EncodeFrame, frames) + tail == tail;
    } else {
      var others := WriteAll(EncodeFrame, frames[1..]);
      FramesOfStream(max, frames[1..], tail);
      FramesOneMore(max, frames[0], others + tail);
      assert WriteAll(EncodeFrame, frames) + tail == EncodeFrame(frames[0]) + (others + tail);
    }
  }
}
