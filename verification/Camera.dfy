// The camera recorder as the object it is: its loop state, its queue, its store and its
// counters, updated in place. Every method is one or more events of RecorderSpec, so
// what RecorderTheorems proves of all runs holds of all uses of the object.
module Camera {
  import opened Wrappers
  import opened Bytes
  import opened Decimation
  import opened DropChan
  import opened SegmentStore
  import opened RecorderSpec
  import CP = CallProtocol

  class Metrics {
    var framesReceived: nat
    var framesRecorded: nat
    var framesDropped: nat
    var segmentsDone: nat
    var encoderErrors: nat
    var activeEncoders: int

    constructor ()
      ensures View() == Counters(0, 0, 0, 0, 0, 0)
    {
      framesReceived, framesRecorded, framesDropped := 0, 0, 0;
      segmentsDone, encoderErrors, activeEncoders := 0, 0, 0;
    }

    ghost function View(): Counters
      reads this
    {
      Counters(framesReceived, framesRecorded, framesDropped, segmentsDone, encoderErrors, activeEncoders)
    }
  }

  // One round of the recording loop's select, with what it meets.
  datatype Choice =
    | Done(finish: FinishResults)
    | Ticked(now: int, finish: FinishResults)
    | Received(r: FrameResults)

  function EventsOf(c: Choice): seq<Event> {
    match c
    case Done(r) => [Exit(r)]
    case Ticked(now, r) => [Tick(now, r)]
    case Received(r) => [Dequeue, Handle(r)]
  }

  function AllEvents(choices: seq<Choice>): seq<Event> {
    if choices == [] then [] else AllEvents(choices[..|choices| - 1]) + EventsOf(choices[|choices| - 1])
  }

  lemma {:induction false} RunFromConcat(cfg: Config, s: Sys, a: seq<Event>, b: seq<Event>)
    requires cfg.Valid()
    ensures RunFrom(cfg, s, a + b) == RunFrom(cfg, RunFrom(cfg, s, a), b)
  {
    hide Step;
    if b == [] {
      assert a + b == a;
    } else {
      var n := |b| - 1;
      RunFromConcat(cfg, s, a, b[..n]);
      assert (a + b)[..|a| + n] == a + b[..n];
    }
  }

  lemma RunOne(cfg: Config, s: Sys, e: Event)
    requires cfg.Valid()
    ensures RunFrom(cfg, s, [e]) == Step(cfg, s, e)
  {
    assert [e][..0] == [];
    assert RunFrom(cfg, s, []) == s;
  }

  lemma RunTwo(cfg: Config, s: Sys, a: Event, b: Event)
    requires cfg.Valid()
    ensures RunFrom(cfg, s, [a, b]) == Step(cfg, Step(cfg, s, a), b)
  {
    assert [a, b][..1] == [a];
    RunOne(cfg, s, a);
  }

  // The events of one Submit nobody interferes with.
  function SubmitEvents(f: Frame): seq<Event> {
    [Submit(f), SendNext, SendNext] + [SendNext, Counted]
  }

  lemma SubmitIsSend(cfg: Config, s: Sys, f: Frame)
    requires cfg.Valid() && s.pc.Idle?
    ensures var sent := SendAlone(s.queue, cfg.queueSize, Item(|s.submitted|, f), 0, 0);
            var m := s.loop.m;
            var lost := if sent.pc.outcome.Lost() then 1 else 0;
            RunFrom(cfg, s, SubmitEvents(f)) ==
            s.(submitted := s.submitted + [f], queue := sent.buf,
               loop := s.loop.(m := m.(received := m.received + 1, dropped := m.dropped + lost)))
  {
    hide RunFrom, HandleFrame, Finish;
    var s1 := Step(cfg, s, Submit(f));
    var s2 := Step(cfg, s1, SendNext);
    var s3 := Step(cfg, s2, SendNext);
    RunTwo(cfg, s, Submit(f), SendNext);
    assert [Submit(f), SendNext, SendNext] == [Submit(f), SendNext] + [SendNext];
    RunFromConcat(cfg, s, [Submit(f), SendNext], [SendNext]);
    RunOne(cfg, s2, SendNext);
    RunFromConcat(cfg, s, [Submit(f), SendNext, SendNext], [SendNext, Counted]);
    RunTwo(cfg, s3, SendNext, Counted);
    assert Drain(s.queue, 0) == s.queue;
  }

  // An undisturbed Submit puts the frame behind the others. Only a queue that holds
  // queueSize frames gives one up for it, the oldest, which is counted as dropped.
  lemma SubmitMakesRoom(cfg: Config, s: Sys, f: Frame)
    requires cfg.Valid() && s.pc.Idle? && |s.queue| <= cfg.queueSize
    ensures var t := RunFrom(cfg, s, SubmitEvents(f));
            var full := |s.queue| == cfg.queueSize;
            && t.queue == (if full then s.queue[1..] else s.queue) + [Item(|s.submitted|, f)]
            && t.loop.m.dropped == s.loop.m.dropped + (if full then 1 else 0)
            && t.loop.m.received == s.loop.m.received + 1
            && t.pc.Idle? && t.hand == s.hand && t.loop.files == s.loop.files
  {
    assert cfg.queueSize > 0;
    SubmitIsSend(cfg, s, f);
    SendUndisturbed(s.queue, cfg.queueSize, Item(|s.submitted|, f));
    hide RunFrom, SendAlone, SubmitEvents, Config.Valid;
  }

  class Camera {
    const cfg: Config
    const store: Local
    const metrics: Metrics
    const queue: Chan<Item>

    // The state of the recording loop. A segment carries the frames written to it so
    // far, which the program does not keep.
    var seg: Option<Segment>
    var nextKeepAt: Option<int>
    var lastFrameAt: Option<int>

    var cancelled: bool

    // Not kept by the program: the frames submitted so far, whose number a queued frame
    // carries so that it can be told apart, the history, and whether run has returned.
    var submitted: seq<Frame>
    ghost var h: History
    ghost var stopped: bool

    ghost function View(): Loop
      reads this, store, metrics
    {
      Loop(seg, nextKeepAt, lastFrameAt, store.View(), metrics.View(), h)
    }

    // Between two calls of its methods the camera is a state of the transition system.
    ghost function Whole(): Sys
      reads this, store, metrics, queue
    {
      Sys(submitted, Idle, queue.buf, None, cancelled, stopped, View())
    }

    constructor (cfg: Config)
      requires cfg.Valid()
      ensures this.cfg == cfg && queue.cap == cfg.queueSize && !queue.closed
      ensures fresh(store) && fresh(metrics) && fresh(queue)
      ensures Whole() == START
    {
      this.cfg := cfg;
      store := new Local();
      metrics := new Metrics();
      queue := new Chan<Item>(cfg.queueSize);
      seg, nextKeepAt, lastFrameAt := None, None, None;
      cancelled, stopped, submitted := false, false, [];
      h := History([], [], [], [], 0, 0);
    }

    // Notes a call to the store or an encoder in the history.
    ghost method Log(c: CP.Call)
      modifies this`h
      ensures View() == Called(old(View()), c)
    {
      h := h.(calls := h.calls + [c]);
    }

    ghost method LogEnd(segment: Segment, published: Option<SegmentInfo>)
      modifies this`h
      ensures h == old(h).(ended := old(h).ended + [Ended(segment.start, segment.frames, published)])
    {
      h := h.(ended := h.ended + [Ended(segment.start, segment.frames, published)]);
    }

    method AbortSegment(segment: Segment, removeOk: bool)
      requires seg == Some(segment)
      modifies this`h, store, metrics
      ensures View() == Abort(old(View()), removeOk).(seg := old(seg))
    {
      metrics.encoderErrors := metrics.encoderErrors + 1;
      store.DiscardSegment(segment.start, removeOk);
      Log(CP.Discard(segment.start));
      LogEnd(segment, None);
    }

    method DiscardSegment(segment: Segment, removeOk: bool)
      requires seg == Some(segment)
      modifies this`h, store, metrics
      ensures var l := old(View());
              View() == Discard(Called(l.(m := l.m.(activeEncoders := l.m.activeEncoders - 1)), CP.Kill(segment.start)),
                                removeOk).(seg := old(seg))
    {
      metrics.activeEncoders := metrics.activeEncoders - 1;
      Log(CP.Kill(segment.start));
      store.DiscardSegment(segment.start, removeOk);
      Log(CP.Discard(segment.start));
      LogEnd(segment, None);
    }

    method FinishSegment(segment: Segment, r: FinishResults)
      requires seg == Some(segment)
      modifies this`h, store, metrics
      ensures View() == Finish(cfg, old(View()), r).(seg := old(seg))
    {
      metrics.activeEncoders := metrics.activeEncoders - 1;
      Log(CP.CloseEncoder(segment.start, r.encoderOk));
      if !r.encoderOk {
        AbortSegment(segment, r.removeOk);
        return;
      }
      Log(CP.CloseWriter(segment.start, r.writerOk));
      if !r.writerOk {
        AbortSegment(segment, r.removeOk);
        return;
      }
      var ok := store.CompleteSegment(segment.start, segment.last, r.complete);
      Log(CP.Complete(segment.start, ok));
      if !ok {
        AbortSegment(segment, r.removeOk);
        return;
      }
      metrics.segmentsDone := metrics.segmentsDone + 1;
      store.Prune(cfg.keepFiles, r.prune);
      LogEnd(segment, Some(SegmentInfo(segment.start, segment.last)));
    }

    method Rotate(r: FinishResults)
      requires seg.Some?
      modifies this`h, this`seg, store, metrics
      ensures View() == Finish(cfg, old(View()), r)
    {
      FinishSegment(seg.value, r);
      seg := None;
    }

    // The caller counts the error when no segment comes back.
    method OpenSegment(ts: int, r: OpenResults) returns (segment: Option<Segment>)
      requires seg.None?
      modifies this`h, store, metrics
      ensures var t := Open(old(View()), ts, cancelled, r);
              && segment == t.seg
              && View() == t.(seg := None, m := if segment.Some? then t.m else t.m.(encoderErrors := old(View().m.encoderErrors)))
    {
      var created := store.BeginSegment(ts, !cancelled && r.createOk);
      if !created {
        Log(CP.BeginFailed);
        h := h.(failedOpen := h.failedOpen + 1);
        return None;
      }
      Log(CP.Begin(ts));
      Log(CP.Start(ts, r.encoderOk));
      if !r.encoderOk {
        store.DiscardSegment(ts, r.removeOk);
        Log(CP.Discard(ts));
        LogEnd(Segment(ts, ts, []), None);
        h := h.(failedOpen := h.failedOpen + 1);
        return None;
      }
      metrics.activeEncoders := metrics.activeEncoders + 1;
      return Some(Segment(ts, ts, []));
    }

    method HandleFrame(item: Item, r: FrameResults)
      requires cfg.Valid()
      modifies this`h, this`seg, this`nextKeepAt, this`lastFrameAt, store, metrics
      ensures View() == RecorderSpec.HandleFrame(cfg, old(View()), item, cancelled, r)
    {
      var ts := if item.frame.stamp.Some? then item.frame.stamp.value else r.now;
      lastFrameAt := Some(ts);
      if !LooksLikeJpeg(item.frame.payload) {
        metrics.framesDropped := metrics.framesDropped + 1;
        return;
      }
      var keep, next := ShouldKeep(ts, nextKeepAt, cfg.Interval());
      nextKeepAt := next;
      h := h.(offered := h.offered + [ts]);
      if !keep {
        metrics.framesDropped := metrics.framesDropped + 1;
        return;
      }
      RecordFrame(Rec(item.id, ts), r);
    }

    // handleFrame after the decimation.
    method RecordFrame(w: Rec, r: FrameResults)
      modifies this`h, this`seg, store, metrics
      ensures View() == Record(cfg, old(View()), w, cancelled, r)
    {
      if seg.Some? && ShouldRotate(cfg, seg.value, w.ts, r.bytesBefore) {
        Rotate(r.finishBefore);
      }
      if seg.None? {
        var segment := OpenSegment(w.ts, r.open);
        if segment.None? {
          metrics.encoderErrors := metrics.encoderErrors + 1;
          return;
        }
        seg := segment;
      }
      WriteFrame(w, r);
    }

    // handleFrame from the write on.
    method WriteFrame(w: Rec, r: FrameResults)
      requires seg.Some?
      modifies this`h, this`seg, store, metrics
      ensures View() == WriteAndRotate(cfg, old(View()), w, r)
    {
      Log(CP.Write(seg.value.start, r.writeOk));
      if !r.writeOk {
        metrics.encoderErrors := metrics.encoderErrors + 1;
        h := h.(failedWrite := h.failedWrite + 1);
        DiscardSegment(seg.value, r.removeOk);
        seg := None;
        return;
      }
      seg := Some(Segment(seg.value.start, w.ts, seg.value.frames + [w]));
      h := h.(written := h.written + [w]);
      metrics.framesRecorded := metrics.framesRecorded + 1;
      if ShouldRotate(cfg, seg.value, w.ts, r.bytesAfter) {
        Rotate(r.finishAfter);
      }
    }

    method Submit(f: Frame)
      requires cfg.Valid() && queue.cap == cfg.queueSize && !queue.closed
      modifies this`submitted, metrics, queue`buf
      ensures Whole() == RunFrom(cfg, old(Whole()), SubmitEvents(f))
    {
      SubmitIsSend(cfg, Whole(), f);
      metrics.framesReceived := metrics.framesReceived + 1;
      var outcome := queue.Send(Item(|submitted|, f), b => Drain(b, 0), b => Drain(b, 0));
      if outcome.Lost() {
        metrics.framesDropped := metrics.framesDropped + 1;
      }
      submitted := submitted + [f];
    }

    method Cancel()
      requires cfg.Valid()
      modifies this`cancelled
      ensures Whole() == RunFrom(cfg, old(Whole()), [RecorderSpec.Cancel])
    {
      RunOne(cfg, Whole(), RecorderSpec.Cancel);
      cancelled := true;
    }

    // One round of run. A choice the select could not make does nothing.
    method Select(c: Choice) returns (returned: bool)
      requires cfg.Valid() && !stopped
      modifies this`h, this`seg, this`nextKeepAt, this`lastFrameAt, this`stopped, store, metrics, queue`buf
      ensures Whole() == RunFrom(cfg, old(Whole()), EventsOf(c))
      ensures returned == stopped
      ensures c.Ticked? ==>
                if old(seg.Some? && lastFrameAt.Some? && c.now - lastFrameAt.value > cfg.inactiveClose)
                then seg.None? else Whole() == old(Whole())
    {
      returned := false;
      match c {
        case Done(r) =>
          RunOne(cfg, Whole(), Exit(r));
          if cancelled {
            if seg.Some? {
              Rotate(r);
            }
            stopped := true;
            returned := true;
          }
        case Ticked(now, r) =>
          RunOne(cfg, Whole(), Tick(now, r));
          if seg.Some? && lastFrameAt.Some? && now - lastFrameAt.value > cfg.inactiveClose {
            Rotate(r);
          }
        case Received(r) =>
          RunTwo(cfg, Whole(), Dequeue, Handle(r));
          var item := queue.TryReceive();
          if item.Some? {
            HandleFrame(item.value, r);
          }
      }
    }

    // run, for the choices its select makes until it returns or the list ends.
    method Run(choices: seq<Choice>) returns (rounds: nat)
      requires cfg.Valid() && !stopped
      modifies this`h, this`seg, this`nextKeepAt, this`lastFrameAt, this`stopped, store, metrics, queue`buf
      ensures rounds <= |choices|
      ensures Whole() == RunFrom(cfg, old(Whole()), AllEvents(choices[..rounds]))
      ensures rounds == |choices| || stopped
    {
      rounds := 0;
      ghost var start := Whole();
      while rounds < |choices|
        invariant rounds <= |choices|
        invariant !stopped
        invariant Whole() == RunFrom(cfg, start, AllEvents(choices[..rounds]))
      {
        var returned := Select(choices[rounds]);
        assert choices[..rounds + 1][..rounds] == choices[..rounds];
        RunFromConcat(cfg, start, AllEvents(choices[..rounds]), EventsOf(choices[rounds]));
        rounds := rounds + 1;
        if returned {
          return;
        }
      }
    }
  }
}
