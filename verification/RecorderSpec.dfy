// The recording loop of one camera, its producer and its queue, as a transition
// system. Every external call can fail; what it does is part of the event.
module RecorderSpec {
  import opened Wrappers
  import opened Bytes
  import opened Decimation
  import opened DropChan
  import opened SegmentStore
  import CP = CallProtocol

  // A zero timestamp is None.
  datatype Frame = Frame(stamp: Option<int>, payload: seq<byte>)

  // A frame with its number in the order of submission.
  datatype Item = Item(id: nat, frame: Frame)

  // A frame an encoder has accepted, with the timestamp it was recorded under.
  datatype Rec = Rec(id: nat, ts: int)

  datatype Config = Config(
    outputFPS: int,
    timelapseFactor: int,
    segmentRawDuration: int,
    maxFileBytes: int,
    keepFiles: int,
    queueSize: nat,
    inactiveClose: int)
  {
    function Interval(): int
      requires outputFPS > 0
    {
      KeepEvery(timelapseFactor, outputFPS)
    }

    // What validation promises, and that the interval is positive
    // (Decimation.KeepEveryPositiveIff).
    predicate Valid() {
      outputFPS > 0 && timelapseFactor > 0 && queueSize > 0 && Interval() > 0
    }
  }

  datatype Segment = Segment(start: int, last: int, frames: seq<Rec>)

  // A segment that is over: published under the given metadata, or thrown away.
  datatype Ended = Ended(start: int, frames: seq<Rec>, published: Option<SegmentInfo>)

  datatype Counters = Counters(
    received: nat, recorded: nat, dropped: nat,
    segmentsDone: nat, encoderErrors: nat, activeEncoders: int)

  // History the program does not keep: the timestamps shown to the decimation, the
  // frames written, the segments ended, the calls made, and the frames lost to a
  // failed open or write.
  datatype History = History(
    offered: seq<int>, written: seq<Rec>, ended: seq<Ended>, calls: seq<CP.Call>,
    failedOpen: nat, failedWrite: nat)

  // What the recording loop owns.
  datatype Loop = Loop(
    seg: Option<Segment>, nextKeepAt: Option<int>, lastFrameAt: Option<int>,
    files: Files, m: Counters, h: History)

  // ---- Results of external calls.

  datatype FinishResults = FinishResults(
    encoderOk: bool, writerOk: bool, complete: CompleteResults, prune: PruneResults, removeOk: bool)

  datatype OpenResults = OpenResults(createOk: bool, encoderOk: bool, removeOk: bool)

  datatype FrameResults = FrameResults(
    now: int, bytesBefore: int, finishBefore: FinishResults, open: OpenResults,
    writeOk: bool, removeOk: bool, bytesAfter: int, finishAfter: FinishResults)

  // ---- The steps of the recording loop.

  function Called(l: Loop, c: CP.Call): Loop {
    l.(h := l.h.(calls := l.h.calls + [c]))
  }

  // Ends the open segment in the history and in the loop's state.
  function EndSegment(l: Loop, published: Option<SegmentInfo>): Loop
    requires l.seg.Some?
  {
    var e := Ended(l.seg.value.start, l.seg.value.frames, published);
    l.(seg := None, h := l.h.(ended := l.h.ended + [e]))
  }

  function Discard(l: Loop, removeOk: bool): Loop
    requires l.seg.Some?
  {
    var start := l.seg.value.start;
    EndSegment(Called(l.(files := AfterDiscard(l.files, start, removeOk)), CP.Discard(start)), None)
  }

  // abortSegment
  function Abort(l: Loop, removeOk: bool): Loop
    requires l.seg.Some?
  {
    Discard(l.(m := l.m.(encoderErrors := l.m.encoderErrors + 1)), removeOk)
  }

  // CompleteSegment and what finishSegment does with its result.
  function Publish(cfg: Config, l: Loop, r: FinishResults): Loop
    requires l.seg.Some?
  {
    var seg := l.seg.value;
    var ok := CompleteSucceeds(l.files, seg.start, r.complete);
    var done := Called(l.(files := AfterComplete(l.files, seg.start, seg.last, r.complete)),
                       CP.Complete(seg.start, ok));
    if !ok then Abort(done, r.removeOk)
    else
      EndSegment(done.(files := AfterPrune(done.files, cfg.keepFiles, r.prune),
                       m := done.m.(segmentsDone := done.m.segmentsDone + 1)),
                 Some(SegmentInfo(seg.start, seg.last)))
  }

  // finishSegment, and the clearing of the segment that goes with it.
  function Finish(cfg: Config, l: Loop, r: FinishResults): Loop
    requires l.seg.Some?
  {
    var start := l.seg.value.start;
    var l1 := Called(l.(m := l.m.(activeEncoders := l.m.activeEncoders - 1)), CP.CloseEncoder(start, r.encoderOk));
    if !r.encoderOk then Abort(l1, r.removeOk)
    else
      var l2 := Called(l1, CP.CloseWriter(start, r.writerOk));
      if !r.writerOk then Abort(l2, r.removeOk) else Publish(cfg, l2, r)
  }

  predicate ShouldRotate(cfg: Config, seg: Segment, now: int, bytes: int) {
    now - seg.start >= cfg.segmentRawDuration || bytes >= cfg.maxFileBytes
  }

  // openSegment, and what handleFrame does when it fails. seg stays None exactly then.
  function Open(l: Loop, ts: int, cancelled: bool, r: OpenResults): Loop
    requires l.seg.None?
  {
    var failed := l.(m := l.m.(encoderErrors := l.m.encoderErrors + 1),
                     h := l.h.(failedOpen := l.h.failedOpen + 1));
    if cancelled || !r.createOk then Called(failed, CP.BeginFailed)
    else
      var files := l.files.(tmp := l.files.tmp + {ts});
      if !r.encoderOk then
        Discard(Called(Called(failed.(files := files, seg := Some(Segment(ts, ts, []))),
                              CP.Begin(ts)), CP.Start(ts, false)), r.removeOk)
      else
        Called(Called(l.(files := files, seg := Some(Segment(ts, ts, [])),
                         m := l.m.(activeEncoders := l.m.activeEncoders + 1)),
                      CP.Begin(ts)), CP.Start(ts, true))
  }

  // Writes a frame to the open segment, or throws the segment away when that fails.
  function Write(l: Loop, w: Rec, writeOk: bool, removeOk: bool): Loop
    requires l.seg.Some?
  {
    var seg := l.seg.value;
    var l1 := Called(l, CP.Write(seg.start, writeOk));
    if writeOk then
      l1.(seg := Some(Segment(seg.start, w.ts, seg.frames + [w])),
          m := l1.m.(recorded := l1.m.recorded + 1),
          h := l1.h.(written := l1.h.written + [w]))
    else
      Discard(Called(l1.(m := l1.m.(encoderErrors := l1.m.encoderErrors + 1, activeEncoders := l1.m.activeEncoders - 1),
                         h := l1.h.(failedWrite := l1.h.failedWrite + 1)),
                     CP.Kill(seg.start)), removeOk)
  }

  function DropOne(l: Loop): Loop {
    l.(m := l.m.(dropped := l.m.dropped + 1))
  }

  // The end of handleFrame: the write and the rotation after it.
  function WriteAndRotate(cfg: Config, l: Loop, w: Rec, r: FrameResults): Loop
    requires l.seg.Some?
  {
    var t := Write(l, w, r.writeOk, r.removeOk);
    if t.seg.Some? && ShouldRotate(cfg, t.seg.value, w.ts, r.bytesAfter) then Finish(cfg, t, r.finishAfter) else t
  }

  function OpenAndWrite(cfg: Config, l: Loop, w: Rec, cancelled: bool, r: FrameResults): Loop {
    var t := if l.seg.None? then Open(l, w.ts, cancelled, r.open) else l;
    if t.seg.None? then t else WriteAndRotate(cfg, t, w, r)
  }

  // handleFrame from the point where the decimation has let the frame through.
  function Record(cfg: Config, l: Loop, w: Rec, cancelled: bool, r: FrameResults): Loop {
    var t := if l.seg.Some? && ShouldRotate(cfg, l.seg.value, w.ts, r.bytesBefore)
             then Finish(cfg, l, r.finishBefore) else l;
    OpenAndWrite(cfg, t, w, cancelled, r)
  }

  function Timestamp(f: Frame, now: int): int {
    if f.stamp.Some? then f.stamp.value else now
  }

  // handleFrame
  function HandleFrame(cfg: Config, l: Loop, item: Item, cancelled: bool, r: FrameResults): Loop
    requires cfg.Valid()
  {
    var ts := Timestamp(item.frame, r.now);
    var l1 := l.(lastFrameAt := Some(ts));
    if !LooksLikeJpeg(item.frame.payload) then DropOne(l1)
    else
      var v := Decide(ts, l1.nextKeepAt, cfg.Interval());
      var l2 := l1.(nextKeepAt := v.next, h := l1.h.(offered := l1.h.offered + [ts]));
      if !v.keep then DropOne(l2) else Record(cfg, l2, Rec(item.id, ts), cancelled, r)
  }

  predicate TickCloses(cfg: Config, l: Loop, now: int) {
    l.seg.Some? && l.lastFrameAt.Some? && now - l.lastFrameAt.value > cfg.inactiveClose
  }

  // ---- The whole camera: one producer, the queue, the loop, and cancellation.

  datatype Sys = Sys(
    submitted: seq<Frame>, pc: Pc<Item>, queue: seq<Item>,
    hand: Option<Item>, cancelled: bool, stopped: bool, loop: Loop)

  datatype Event =
    | Submit(f: Frame)
    | SendNext
    | Counted
    | Cancel
    | Dequeue
    | Handle(r: FrameResults)
    | Tick(now: int, finish: FinishResults)
    | Exit(finish: FinishResults)

  const START: Sys :=
    Sys([], Idle, [], None, false, false,
        Loop(None, None, None, EMPTY, Counters(0, 0, 0, 0, 0, 0), History([], [], [], [], 0, 0)))

  // One event; one that is not possible leaves everything as it is.
  function Step(cfg: Config, s: Sys, e: Event): Sys
    requires cfg.Valid()
  {
    match e
    case Submit(f) =>
      if !s.pc.Idle? then s
      else s.(submitted := s.submitted + [f],
              pc := Offer(Item(|s.submitted|, f)),
              loop := s.loop.(m := s.loop.m.(received := s.loop.m.received + 1)))
    case SendNext =>
      if !s.pc.InCall() then s
      else
        var r := SendStep(s.queue, cfg.queueSize, s.pc);
        s.(queue := r.buf, pc := r.pc)
    case Counted =>
      if !s.pc.Returned? then s
      else s.(pc := Idle, loop := if s.pc.outcome.Lost() then DropOne(s.loop) else s.loop)
    case Cancel => s.(cancelled := true)
    case Dequeue =>
      if s.stopped || s.hand.Some? || s.queue == [] then s
      else s.(hand := Some(s.queue[0]), queue := s.queue[1..])
    case Handle(r) =>
      if s.hand.None? then s
      else s.(hand := None, loop := HandleFrame(cfg, s.loop, s.hand.value, s.cancelled, r))
    case Tick(now, r) =>
      if s.stopped || s.hand.Some? || !TickCloses(cfg, s.loop, now) then s
      else s.(loop := Finish(cfg, s.loop, r))
    case Exit(r) =>
      if s.stopped || s.hand.Some? || !s.cancelled then s
      else s.(stopped := true, loop := if s.loop.seg.Some? then Finish(cfg, s.loop, r) else s.loop)
  }

  function RunFrom(cfg: Config, s: Sys, events: seq<Event>): Sys
    requires cfg.Valid()
  {
    if events == [] then s
    else Step(cfg, RunFrom(cfg, s, events[..|events| - 1]), events[|events| - 1])
  }

  function RunOf(cfg: Config, events: seq<Event>): Sys
    requires cfg.Valid()
  {
    RunFrom(cfg, START, events)
  }
}
