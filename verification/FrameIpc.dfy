// The messages between the TCP backend and its local consumers: an 11-byte header and
// an optional payload, and the loop that hands them to callbacks.
module FrameIpc {
  import opened Wrappers
  import opened Bytes
  import opened Framing
  import opened Conn
  import opened StreamProto

  const MAGIC_1: byte := 0xAA
  const MAGIC_2: byte := 0xBB
  const HEADER: nat := 11
  const KIND_FRAME: byte := 1
  const KIND_OFFLINE: byte := 2

  // A nil payload is the empty one.
  datatype Message = Message(kind: byte, cameraId: uint32, payload: seq<byte>)

  datatype IpcError = ReadError(e: Conn.ReadError) | BadMagic | PayloadError(e: Conn.ReadError)

  // The length field is a uint32 conversion: it keeps the low four bytes.
  function HeaderOf(m: Message): (h: seq<byte>)
    ensures |h| == HEADER
  {
    [MAGIC_1, MAGIC_2, m.kind] + ToBigEndian(m.cameraId, 4) + ToBigEndian(|m.payload|, 4)
  }

  function EncodeMessage(m: Message): seq<byte> {
    HeaderOf(m) + m.payload
  }

  predicate Fits(m: Message) {
    |m.payload| < 0x1_0000_0000
  }

  function DecodeMessage(s: seq<byte>): Read<Message, IpcError> {
    match ReadFullResult(s, HEADER)
    case Err(e) => Failed(ReadError(e))
    case Ok(h) =>
      if h[0] != MAGIC_1 || h[1] != MAGIC_2 then Failed(BadMagic)
      else
        var length := FromBigEndian(h[7..11]);
        if length == 0 then Got(MessageOf(h, []), HEADER)
        else
          match ReadFullResult(s[HEADER..], length)
          case Err(e) => Failed(PayloadError(e))
          case Ok(payload) => Got(MessageOf(h, payload), HEADER + length)
  }

  function MessageOf(h: seq<byte>, payload: seq<byte>): Message
    requires |h| == HEADER
  {
    FieldWidths();
    FromBigEndianIsBounded(h[3..7]);
    Message(h[2], FromBigEndian(h[3..7]), payload)
  }

  lemma HeaderOfFields(m: Message)
    ensures var h := HeaderOf(m);
            && h[..3] == [MAGIC_1, MAGIC_2, m.kind]
            && FromBigEndian(h[3..7]) == m.cameraId
            && FromBigEndian(h[7..11]) == |m.payload| % 0x1_0000_0000
  {
    var a := [MAGIC_1, MAGIC_2, m.kind];
    var b := a + ToBigEndian(m.cameraId, 4);
    assert b[..3] == a && b[3..7] == ToBigEndian(m.cameraId, 4);
    assert HeaderOf(m) == b + ToBigEndian(|m.payload|, 4);
    assert HeaderOf(m)[..3] == a && HeaderOf(m)[3..7] == b[3..7];
    assert HeaderOf(m)[7..11] == ToBigEndian(|m.payload|, 4);
    FieldWidths();
    FieldHolds(m.cameraId, 4);
    FromOfToBigEndian(|m.payload|, 4);
  }

  // A message on the wire: AA BB, the kind, the camera id and the size of the payload, each
  // with its most significant byte first.
  lemma MessageByByte(m: Message)
    ensures var e := EncodeMessage(m);
            && |e| == 11 + |m.payload|
            && e[0] == 0xAA && e[1] == 0xBB && e[2] == m.kind
            && U32(e, 3) == m.cameraId
            && U32(e, 7) == |m.payload| % 0x1_0000_0000
            && e[11..] == m.payload
  {
    hide FromBigEndian, U32;
    HeaderOfFields(m);
    var e, h := EncodeMessage(m), HeaderOf(m);
    assert forall i :: 0 <= i < 11 ==> e[i] == h[i];
    assert forall i :: 0 <= i < 3 ==> h[..3][i] == e[i];
    assert e[3..7] == h[3..7] && e[7..11] == h[7..11];
    FourBytes(e, 3);
    FourBytes(e, 7);
  }

  // What comes back of a message whose announced length is n.
  lemma DecodeOfMessage(m: Message, rest: seq<byte>, n: nat)
    requires n == |m.payload| % 0x1_0000_0000
    ensures DecodeMessage(EncodeMessage(m) + rest) == Got(m.(payload := m.payload[..n]), HEADER + n)
  {
    var s := EncodeMessage(m) + rest;
    HeaderOfFields(m);
    assert s[..HEADER] == HeaderOf(m);
    assert s[HEADER..] == m.payload + rest;
    assert (m.payload + rest)[..n] == m.payload[..n];
    assert HeaderOf(m)[..3][0] == MAGIC_1 && HeaderOf(m)[..3][1] == MAGIC_2 && HeaderOf(m)[..3][2] == m.kind;
    assert m.payload[..0] == [];
  }

  // Write puts no limit on the payload. The message comes back exactly when the length
  // fits its four-byte field.
  lemma RoundTripIff(m: Message, rest: seq<byte>)
    ensures DecodeMessage(EncodeMessage(m) + rest) == Got(m, |EncodeMessage(m)|) <==> Fits(m)
  {
    DecodeOfMessage(m, rest, |m.payload| % 0x1_0000_0000);
    if Fits(m) {
      assert m.payload[..|m.payload|] == m.payload;
    }
  }

  lemma CutMessageFails(m: Message, n: nat)
    requires Fits(m) && n < |EncodeMessage(m)|
    ensures DecodeMessage(EncodeMessage(m)[..n]).Failed?
  {
    var s := EncodeMessage(m)[..n];
    if n >= HEADER {
      HeaderOfFields(m);
      assert s[..HEADER] == HeaderOf(m);
      assert |s[HEADER..]| < |m.payload|;
    }
  }

  lemma FormatReadsBack()
    ensures WellSized<Message, IpcError>(DecodeMessage)
    ensures ReadsBack<Message, IpcError>(DecodeMessage, EncodeMessage, Fits)
    ensures DecodeMessage([]) == Failed(ReadError(Eof))
  {
    forall m, rest | Fits(m) ensures DecodeMessage(EncodeMessage(m) + rest) == Got(m, |EncodeMessage(m)|) {
      RoundTripIff(m, rest);
    }
    forall m, n | Fits(m) && 0 <= n < |EncodeMessage(m)| ensures DecodeMessage(EncodeMessage(m)[..n]).Failed? {
      CutMessageFails(m, n);
    }
  }

  // ---- The dispatch loop of a client connection.

  datatype Callback = OnFrame(cameraId: uint32, jpeg: seq<byte>) | OnOffline(cameraId: uint32)

  // Which callbacks the handler has.
  datatype Handler = Handler(onFrame: bool, onOffline: bool)

  function CallbackOf(handler: Handler, m: Message): seq<Callback> {
    if m.kind == KIND_FRAME then (if handler.onFrame then [OnFrame(m.cameraId, m.payload)] else [])
    else if m.kind == KIND_OFFLINE then (if handler.onOffline then [OnOffline(m.cameraId)] else [])
    else []
  }

  function Dispatched(handler: Handler, messages: seq<Message>): seq<Callback> {
    if messages == [] then []
    else Dispatched(handler, messages[..|messages| - 1]) + CallbackOf(handler, messages[|messages| - 1])
  }

  lemma DispatchedOneMore(handler: Handler, messages: seq<Message>, m: Message)
    ensures Dispatched(handler, messages + [m]) == Dispatched(handler, messages) + CallbackOf(handler, m)
  {
    assert (messages + [m])[..|messages|] == messages;
  }

  // The callback a message asks for, by its kind byte: 1 is a frame, 2 a camera that went
  // offline.
  ghost predicate IsAnswer(call: Callback, m: Message) {
    || (m.kind == 1 && call == OnFrame(m.cameraId, m.payload))
    || (m.kind == 2 && call == OnOffline(m.cameraId))
  }

  // The handler has a callback for the message.
  predicate IsFor(handler: Handler, m: Message) {
    (m.kind == 1 && handler.onFrame) || (m.kind == 2 && handler.onOffline)
  }

  // Call i answers message from[i], in the order of the messages; every message the
  // handler has a callback for is answered, and no other.
  ghost predicate Answers(handler: Handler, calls: seq<Callback>, messages: seq<Message>, from: seq<nat>) {
    && |from| == |calls|
    && (forall i, j :: 0 <= i < j < |from| ==> from[i] < from[j])
    && (forall i :: 0 <= i < |from| ==>
          from[i] < |messages| && IsFor(handler, messages[from[i]]) && IsAnswer(calls[i], messages[from[i]]))
    && (forall k :: 0 <= k < |messages| && IsFor(handler, messages[k]) ==> k in from)
  }

  lemma {:induction false} DispatchedAnswers(handler: Handler, messages: seq<Message>) returns (from: seq<nat>)
    ensures Answers(handler, Dispatched(handler, messages), messages, from)
  {
    if messages == [] {
      from := [];
    } else {
      var n := |messages| - 1;
      var before := DispatchedAnswers(handler, messages[..n]);
      from := before + if IsFor(handler, messages[n]) then [n] else [];
      AnswersOneMore(handler, Dispatched(handler, messages[..n]), messages[..n], before, messages[n]);
      assert messages == messages[..n] + [messages[n]];
    }
  }

  lemma AnswersOneMore(handler: Handler, calls: seq<Callback>, messages: seq<Message>, from: seq<nat>, m: Message)
    requires Answers(handler, calls, messages, from)
    ensures Answers(handler, calls + CallbackOf(handler, m), messages + [m],
                    from + if IsFor(handler, m) then [|messages|] else [])
  {
    var longer := from + if IsFor(handler, m) then [|messages|] else [];
    forall k | 0 <= k <= |messages| && IsFor(handler, (messages + [m])[k]) ensures k in longer {
      if k < |messages| {
        assert k in from;
      } else {
        assert longer[|from|] == k;
      }
    }
  }

  method ReadMessage(c: Connection) returns (r: Result<Message, IpcError>)
    modifies c
    ensures match DecodeMessage(old(c.Remaining()))
            case Got(m, n) => r == Ok(m) && n <= old(|c.Remaining()|) && c.Remaining() == old(c.Remaining())[n..]
            case Failed(e) => r == Err(e)
  {
    ghost var s := c.Remaining();
    var hdr := c.ReadFull(HEADER);
    if hdr.Err? {
      return Err(ReadError(hdr.error));
    }
    var h := hdr.value;
    if h[0] != MAGIC_1 || h[1] != MAGIC_2 {
      return Err(BadMagic);
    }
    var length := FromBigEndian(h[7..11]);
    var payload: seq<byte> := [];
    if length > 0 {
      var p := c.ReadFull(length);
      if p.Err? {
        return Err(PayloadError(p.error));
      }
      payload := p.value;
      assert s[HEADER..][length..] == s[HEADER + length..];
    }
    return Ok(MessageOf(h, payload));
  }

  // connect, once dialled: until the connection breaks, the callbacks made answer the
  // messages of the stream.
  method Connect(c: Connection, handler: Handler) returns (calls: seq<Callback>, error: IpcError)
    modifies c
    ensures WellSized<Message, IpcError>(DecodeMessage)
    ensures var stream := ReadAll<Message, IpcError>(DecodeMessage, old(c.Remaining()));
            && calls == Dispatched(handler, stream.frames) && error == stream.error
            && exists from :: Answers(handler, calls, stream.frames, from)
  {
    hide DecodeMessage, ReadAll, ReadsBack;
    FormatReadsBack();
    calls := [];
    ghost var messages := [];
    assert calls == Dispatched(handler, messages);
    hide Dispatched;
    while true
      invariant var later := ReadAll<Message, IpcError>(DecodeMessage, c.Remaining());
                ReadAll<Message, IpcError>(DecodeMessage, old(c.Remaining())) == Stream(messages + later.frames, later.error)
      invariant calls == Dispatched(handler, messages)
      decreases |c.Remaining()|
    {
      ReadAllStep<Message, IpcError>(DecodeMessage, c.Remaining());
      var r := ReadMessage(c);
      if r.Err? {
        assert messages + [] == messages;
        ghost var from := DispatchedAnswers(handler, messages);
        return calls, r.error;
      }
      var m := r.value;
      ghost var later := ReadAll<Message, IpcError>(DecodeMessage, c.Remaining()).frames;
      assert messages + ([m] + later) == messages + [m] + later;
      DispatchedOneMore(handler, messages, m);
      if m.kind == KIND_FRAME {
        if handler.onFrame {
          calls := calls + [OnFrame(m.cameraId, m.payload)];
        }
      } else if m.kind == KIND_OFFLINE {
        if handler.onOffline {
          calls := calls + [OnOffline(m.cameraId)];
        }
      }
      messages := messages + [m];
    }
  }

  // The messages of the kinds a handler knows.
  function Known(messages: seq<Message>): seq<Message> {
    if messages == [] then []
    else
      var m := messages[|messages| - 1];
      Known(messages[..|messages| - 1]) + if m.kind == KIND_FRAME || m.kind == KIND_OFFLINE then [m] else []
  }

  lemma {:induction false} OnlyKnownDispatch(handler: Handler, messages: seq<Message>)
    ensures Dispatched(handler, Known(messages)) == Dispatched(handler, messages)
  {
    if messages != [] {
      var m := messages[|messages| - 1];
      OnlyKnownDispatch(handler, messages[..|messages| - 1]);
      var before := Known(messages[..|messages| - 1]);
      DispatchedOneMore(handler, before, m);
      assert before + [] == before;
    }
  }

  // Whatever kinds the messages have, each is consumed whole: the callbacks are those of
  // the known kinds, in order, also behind messages of unknown kinds.
  lemma DispatchIsAligned(handler: Handler, messages: seq<Message>, rest: seq<byte>)
    requires forall i :: 0 <= i < |messages| ==> Fits(messages[i])
    requires DecodeMessage(rest).Failed?
    ensures WellSized<Message, IpcError>(DecodeMessage)
    ensures var stream := ReadAll<Message, IpcError>(DecodeMessage, WriteAll(EncodeMessage, messages) + rest);
            stream.frames == messages && Dispatched(handler, stream.frames) == Dispatched(handler, Known(messages))
  {
    hide DecodeMessage, EncodeMessage, ReadsBack;
    FormatReadsBack();
    ReadAllStep<Message, IpcError>(DecodeMessage, rest);
    OnlyKnownDispatch(handler, messages);
    ReadAllOfWritten<Message, IpcError>(DecodeMessage, EncodeMessage, Fits, messages, rest);
    assert messages + [] == messages;
  }

  // Cut at any byte, the stream yields the messages before the cut.
  lemma CutStream(messages: seq<Message>, n: nat)
    requires forall i :: 0 <= i < |messages| ==> Fits(messages[i])
    requires n <= |WriteAll(EncodeMessage, messages)|
    ensures WellSized<Message, IpcError>(DecodeMessage)
    ensures ReadAll<Message, IpcError>(DecodeMessage, WriteAll(EncodeMessage, messages)[..n]).frames
            == messages[..WholeFrames(EncodeMessage, messages, n)]
  {
    FormatReadsBack();
    CutStreamKeepsWholeFrames<Message, IpcError>(DecodeMessage, EncodeMessage, Fits, messages, n);
  }
}
