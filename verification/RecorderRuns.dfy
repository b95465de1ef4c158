// What holds in every run of one camera: any frames, any interleaving of the producer
// with the recording loop, any failures, and cancellation at any point.
module RecorderRuns {
  import opened Wrappers
  import opened Bytes
  import opened Decimation
  import opened DropChan
  import opened SegmentStore
  import opened RecorderSpec
  import opened RecorderInvariants
  import CP = CallProtocol

  // ---- What one step does to the history.

  // t differs from l by work of the recording loop on at most one frame.
  ghost predicate LoopMoves(l: Loop, t: Loop) {
    && l.h.ended <= t.h.ended
    && t.m.received == l.m.received
    && t.m.dropped >= l.m.dropped
  }

  function Lost(l: Loop): nat {
    l.m.recorded + l.m.dropped + l.h.failedOpen + l.h.failedWrite
  }

  lemma FinishMoves(cfg: Config, l: Loop, r: FinishResults)
    requires l.seg.Some? && l.seg.value.frames != []
    ensures LoopMoves(l, Finish(cfg, l, r)) && Lost(Finish(cfg, l, r)) == Lost(l)
    ensures Finish(cfg, l, r).h.written == l.h.written && Finish(cfg, l, r).h.offered == l.h.offered
    ensures Finish(cfg, l, r).m.dropped == l.m.dropped
  {
    FinishShape(cfg, l, r);
  }

  // The write and what follows it settle the fate of one frame.
  lemma WriteMoves(cfg: Config, l: Loop, w: Rec, r: FrameResults)
    requires l.seg.Some?
    ensures var t := WriteAndRotate(cfg, l, w, r);
            && LoopMoves(l, t) && Lost(t) == Lost(l) + 1 && t.m.dropped == l.m.dropped
            && t.h.offered == l.h.offered
            && (t.h.written == l.h.written || t.h.written == l.h.written + [w])
  {
    var t := Write(l, w, r.writeOk, r.removeOk);
    if r.writeOk && ShouldRotate(cfg, t.seg.value, w.ts, r.bytesAfter) {
      FinishMoves(cfg, t, r.finishAfter);
    } else if !r.writeOk {
      WriteFailedShape(l, w, r.removeOk);
    }
  }

  lemma OpenAndWriteMoves(cfg: Config, l: Loop, w: Rec, cancelled: bool, r: FrameResults)
    ensures var t := OpenAndWrite(cfg, l, w, cancelled, r);
            && LoopMoves(l, t) && Lost(t) == Lost(l) + 1 && t.m.dropped == l.m.dropped
            && t.h.offered == l.h.offered
            && (t.h.written == l.h.written || t.h.written == l.h.written + [w])
  {
    if l.seg.None? {
      var t := Open(l, w.ts, cancelled, r.open);
      if cancelled || !r.open.createOk {
      } else if !r.open.encoderOk {
        StartFailedShape(l, w.ts, r.open.removeOk);
      } else {
        OpenedShape(l, w.ts);
        WriteMoves(cfg, t, w, r);
      }
    } else {
      WriteMoves(cfg, l, w, r);
    }
  }

  lemma RecordMoves(cfg: Config, l: Loop, w: Rec, cancelled: bool, r: FrameResults)
    requires Settled(l)
    ensures var t := Record(cfg, l, w, cancelled, r);
            && LoopMoves(l, t) && Lost(t) == Lost(l) + 1 && t.m.dropped == l.m.dropped
            && t.h.offered == l.h.offered
            && (t.h.written == l.h.written || t.h.written == l.h.written + [w])
  {
    if l.seg.Some? && ShouldRotate(cfg, l.seg.value, w.ts, r.bytesBefore) {
      FinishMoves(cfg, l, r.finishBefore);
      OpenAndWriteMoves(cfg, Finish(cfg, l, r.finishBefore), w, cancelled, r);
    } else {
      OpenAndWriteMoves(cfg, l, w, cancelled, r);
    }
  }

  // One frame: it is recorded, or dropped, or lost to a failure, once. It gets past the
  // decimation exactly when it is not dropped.
  lemma HandleMoves(cfg: Config, l: Loop, item: Item, cancelled: bool, r: FrameResults)
    requires cfg.Valid() && Settled(l) && TimeInv(cfg, l)
    ensures var t := HandleFrame(cfg, l, item, cancelled, r);
            var w := Rec(item.id, Timestamp(item.frame, r.now));
            && LoopMoves(l, t) && Lost(t) == Lost(l) + 1
            && (t.h.written == l.h.written ||
                (LooksLikeJpeg(item.frame.payload) && t.h.written == l.h.written + [w]))
            && KeptCount(t.h.offered, cfg.Interval()) + t.m.dropped
               == KeptCount(l.h.offered, cfg.Interval()) + l.m.dropped + 1
  {
    var ts := Timestamp(item.frame, r.now);
    if LooksLikeJpeg(item.frame.payload) {
      var offered := l.h.offered + [ts];
      assert offered[..|l.h.offered|] == l.h.offered;
      if Decide(ts, l.nextKeepAt, cfg.Interval()).keep {
        RecordMoves(cfg, Offered(cfg, l, ts), Rec(item.id, ts), cancelled, r);
      }
    }
  }

  // ---- The invariant of the whole camera.

  // The frames on their way, in order of submission.
  function Pending(s: Sys): seq<Item> {
    (if s.hand.Some? then [s.hand.value] else []) + s.queue + (if s.pc.InCall() then [s.pc.v] else [])
  }

  // One frame evicted from the queue whose loss is not counted yet.
  function Uncounted(s: Sys): nat {
    if s.pc == Returned(ReplacedOldest) || (s.pc.Retry? && s.pc.displaced) then 1 else 0
  }

  ghost predicate QueueInv(cfg: Config, s: Sys) {
    && |s.queue| <= cfg.queueSize
    && (s.pc.Retry? ==> |s.queue| < cfg.queueSize)
    && s.pc != Returned(Dropped)
  }

  ghost predicate IsSubmission(submitted: seq<Frame>, item: Item) {
    item.id < |submitted| && item.frame == submitted[item.id]
  }

  ghost predicate IsRecordOf(submitted: seq<Frame>, w: Rec) {
    && w.id < |submitted|
    && LooksLikeJpeg(submitted[w.id].payload)
    && (submitted[w.id].stamp.Some? ==> w.ts == submitted[w.id].stamp.value)
  }

  // The recorded frames w and behind them the pending ones p, in order of submission.
  ghost predicate Ordered(submitted: seq<Frame>, w: seq<Rec>, p: seq<Item>) {
    && (forall i, j :: 0 <= i < j < |p| ==> p[i].id < p[j].id)
    && (forall i :: 0 <= i < |p| ==> IsSubmission(submitted, p[i]))
    && (forall i, j :: 0 <= i < j < |w| ==> w[i].id < w[j].id)
    && (forall i :: 0 <= i < |w| ==> IsRecordOf(submitted, w[i]))
    && (forall i, j :: 0 <= i < |w| && 0 <= j < |p| ==> w[i].id < p[j].id)
  }

  ghost predicate OrderInv(s: Sys) {
    Ordered(s.submitted, s.loop.h.written, Pending(s))
  }

  lemma RemovalKeepsOrder(submitted: seq<Frame>, w: seq<Rec>, p: seq<Item>, i: nat)
    requires Ordered(submitted, w, p) && i < |p|
    ensures Ordered(submitted, w, p[..i] + p[i + 1..])
  {
    var q := p[..i] + p[i + 1..];
    assert forall k :: 0 <= k < |q| ==> q[k] == if k < i then p[k] else p[k + 1];
  }

  lemma RecordingKeepsOrder(submitted: seq<Frame>, w: seq<Rec>, p: seq<Item>, r: Rec)
    requires Ordered(submitted, w, p) && p != [] && r.id == p[0].id && IsRecordOf(submitted, r)
    ensures Ordered(submitted, w + [r], p[1..])
  {
  }

  ghost predicate CountsInv(cfg: Config, s: Sys)
    requires cfg.Valid()
  {
    && s.loop.m.received == |s.submitted|
    && s.loop.m.received == Lost(s.loop) + |Pending(s)| + Uncounted(s)
    && s.loop.m.recorded + s.loop.h.failedOpen + s.loop.h.failedWrite
       == KeptCount(s.loop.h.offered, cfg.Interval())
  }

  ghost predicate Inv(cfg: Config, s: Sys)
    requires cfg.Valid()
  {
    && LoopInv(cfg, s.loop) && Settled(s.loop)
    && QueueInv(cfg, s) && OrderInv(s) && CountsInv(cfg, s)
    && (s.stopped ==> s.loop.seg.None? && s.hand.None?)
  }

  // ---- Every step keeps it.

  // Adding to a counter the loop invariant does not mention changes nothing for it.
  lemma CounterKeeps(cfg: Config, l: Loop, t: Loop)
    requires cfg.Valid() && LoopInv(cfg, l) && Settled(l)
    requires t == l.(m := t.m)
    requires t.m.recorded == l.m.recorded && t.m.segmentsDone == l.m.segmentsDone
    requires t.m.activeEncoders == l.m.activeEncoders
    ensures LoopInv(cfg, t) && Settled(t)
  {
    assert AllStarts(t) == AllStarts(l);
  }

  lemma SubmitKeepsOrder(cfg: Config, s: Sys, f: Frame)
    requires cfg.Valid() && s.pc.Idle? && OrderInv(s)
    ensures OrderInv(Step(cfg, s, Submit(f)))
    ensures |Pending(Step(cfg, s, Submit(f)))| == |Pending(s)| + 1
  {
    var t := Step(cfg, s, Submit(f));
    assert Pending(t) == Pending(s) + [Item(|s.submitted|, f)];
  }

  lemma SendKeepsOrder(cfg: Config, s: Sys)
    requires cfg.Valid() && s.pc.InCall() && OrderInv(s)
    ensures OrderInv(Step(cfg, s, SendNext))
    ensures var t := Step(cfg, s, SendNext);
            t.pc != Returned(Dropped) ==> |Pending(t)| + Uncounted(t) == |Pending(s)| + Uncounted(s)
  {
    var t := Step(cfg, s, SendNext);
    var h := if s.hand.Some? then 1 else 0;
    if s.pc.MakeRoom? && s.queue != [] {
      assert Pending(t) == Pending(s)[..h] + Pending(s)[h + 1..];
      RemovalKeepsOrder(s.submitted, s.loop.h.written, Pending(s), h);
    } else if t.pc == Returned(Dropped) {
      var n := |Pending(s)| - 1;
      assert Pending(t) == Pending(s)[..n] + Pending(s)[n + 1..];
      RemovalKeepsOrder(s.submitted, s.loop.h.written, Pending(s), n);
    } else {
      assert Pending(t) == Pending(s);
    }
  }

  lemma DequeueKeepsOrder(cfg: Config, s: Sys)
    requires cfg.Valid() && OrderInv(s)
    ensures OrderInv(Step(cfg, s, Dequeue))
    ensures Pending(Step(cfg, s, Dequeue)) == Pending(s)
  {
    if !s.stopped && s.hand.None? && s.queue != [] {
      assert s.queue == [s.queue[0]] + s.queue[1..];
    }
    assert Pending(Step(cfg, s, Dequeue)) == Pending(s);
  }

  // The frame in hand is dealt with and leaves at most its own record.
  lemma HandleKeepsOrder(s: Sys, t: Sys, w: Rec)
    requires OrderInv(s) && s.hand.Some? && t == s.(hand := None, loop := t.loop)
    requires w.id == s.hand.value.id
    requires t.loop.h.written == s.loop.h.written ||
             (t.loop.h.written == s.loop.h.written + [w] && IsRecordOf(s.submitted, w))
    ensures OrderInv(t) && |Pending(t)| == |Pending(s)| - 1
  {
    hide Ordered;
    var p := Pending(s);
    assert p[0] == s.hand.value;
    assert p[1..] == p[..0] + p[1..] == Pending(t);
    RemovalKeepsOrder(s.submitted, s.loop.h.written, p, 0);
    if t.loop.h.written != s.loop.h.written {
      RecordingKeepsOrder(s.submitted, s.loop.h.written, p, w);
    }
  }

  // The frame in hand is a submitted one.
  lemma HandKeepsIsRecord(s: Sys, item: Item, now: int)
    requires OrderInv(s) && s.hand == Some(item)
    ensures LooksLikeJpeg(item.frame.payload) ==> IsRecordOf(s.submitted, Rec(item.id, Timestamp(item.frame, now)))
  {
    assert Pending(s)[0] == item;
    assert IsSubmission(s.submitted, Pending(s)[0]);
  }

  lemma HandleStepKeepsOrder(cfg: Config, s: Sys, t: Sys, r: FrameResults)
    requires cfg.Valid() && OrderInv(s) && s.hand.Some? && Settled(s.loop) && TimeInv(cfg, s.loop)
    requires t == s.(hand := None, loop := HandleFrame(cfg, s.loop, s.hand.value, s.cancelled, r))
    ensures OrderInv(t) && |Pending(t)| == |Pending(s)| - 1
  {
    hide HandleFrame, Ordered, TimeInv, KeptCount;
    var item := s.hand.value;
    HandleMoves(cfg, s.loop, item, s.cancelled, r);
    HandKeepsIsRecord(s, item, r.now);
    HandleKeepsOrder(s, t, Rec(item.id, Timestamp(item.frame, r.now)));
  }

  lemma HandleStepKeepsCounts(cfg: Config, s: Sys, t: Sys, r: FrameResults)
    requires cfg.Valid() && CountsInv(cfg, s) && s.hand.Some? && Settled(s.loop) && TimeInv(cfg, s.loop)
    requires t == s.(hand := None, loop := HandleFrame(cfg, s.loop, s.hand.value, s.cancelled, r))
    requires |Pending(t)| == |Pending(s)| - 1
    ensures CountsInv(cfg, t)
  {
    hide HandleFrame, TimeInv, KeptCount, Pending;
    HandleMoves(cfg, s.loop, s.hand.value, s.cancelled, r);
  }

  lemma HandleStepKeepsInv(cfg: Config, s: Sys, r: FrameResults)
    requires cfg.Valid() && Inv(cfg, s) && s.hand.Some?
    ensures Inv(cfg, Step(cfg, s, Handle(r)))
  {
    hide HandleFrame, OrderInv, CountsInv, TimeInv, SegInv, FileInv, CountInv, CallInv;
    var t := Step(cfg, s, Handle(r));
    HandleKeeps(cfg, s.loop, s.hand.value, s.cancelled, r);
    HandleStepKeepsOrder(cfg, s, t, r);
    HandleStepKeepsCounts(cfg, s, t, r);
  }

  lemma ProducerKeepsInv(cfg: Config, s: Sys, e: Event)
    requires cfg.Valid() && Inv(cfg, s) && (e.Submit? || e.SendNext? || e.Counted?)
    ensures Inv(cfg, Step(cfg, s, e))
  {
    hide LoopInv, Ordered, HandleFrame, Finish;
    var t := Step(cfg, s, e);
    if e.Submit? && s.pc.Idle? {
      CounterKeeps(cfg, s.loop, t.loop);
      SubmitKeepsOrder(cfg, s, e.f);
    } else if e.SendNext? && s.pc.InCall() {
      SendKeepsOrder(cfg, s);
    } else if e.Counted? && s.pc.Returned? {
      CounterKeeps(cfg, s.loop, t.loop);
      assert Pending(t) == Pending(s);
    }
  }

  lemma StepKeepsInv(cfg: Config, s: Sys, e: Event)
    requires cfg.Valid() && Inv(cfg, s)
    ensures Inv(cfg, Step(cfg, s, e))
  {
    var t := Step(cfg, s, e);
    if e.Submit? || e.SendNext? || e.Counted? {
      ProducerKeepsInv(cfg, s, e);
    } else if t == s {
    } else if e.Cancel? {
      assert Pending(t) == Pending(s);
    } else if e.Dequeue? {
      DequeueKeepsOrder(cfg, s);
    } else if e.Handle? {
      HandleStepKeepsInv(cfg, s, e.r);
    } else {
      LoopStopsKeepInv(cfg, s, t, e.finish);
    }
  }

  // The two steps that finish a segment without a frame.
  lemma LoopStopsKeepInv(cfg: Config, s: Sys, t: Sys, r: FinishResults)
    requires cfg.Valid() && Inv(cfg, s)
    requires t == s.(loop := t.loop, stopped := t.stopped)
    requires t.loop == if s.loop.seg.Some? then Finish(cfg, s.loop, r) else s.loop
    requires s.hand.None?
    ensures Inv(cfg, t)
  {
    if s.loop.seg.Some? {
      FinishKeeps(cfg, s.loop, r);
      FinishMoves(cfg, s.loop, r);
      FinishShape(cfg, s.loop, r);
    }
    assert Pending(t) == Pending(s);
  }

  lemma StepExtendsEnded(cfg: Config, s: Sys, e: Event)
    requires cfg.Valid() && Inv(cfg, s)
    ensures s.loop.h.ended <= Step(cfg, s, e).loop.h.ended
  {
    assert Settled(s.loop) && TimeInv(cfg, s.loop);
    hide Inv, TimeInv, HandleFrame, Finish, SendStep;
    if e.Handle? && s.hand.Some? {
      HandleMoves(cfg, s.loop, s.hand.value, s.cancelled, e.r);
    } else if (e.Tick? || e.Exit?) && s.loop.seg.Some? {
      FinishMoves(cfg, s.loop, e.finish);
    }
  }

  lemma {:induction false} PublishedCountGrows(a: seq<Ended>, b: seq<Ended>)
    requires a <= b
    ensures PublishedCount(a) <= PublishedCount(b)
    decreases |b|
  {
    if |a| < |b| {
      PublishedCountGrows(a, b[..|b| - 1]);
    } else {
      assert a == b;
    }
  }

  // l and t are the loop before and after a step.
  ghost predicate Extends(l: Loop, t: Loop) {
    |l.h.written| <= |t.h.written| && l.m.received <= t.m.received && l.m.dropped <= t.m.dropped
  }

  lemma HandleExtends(cfg: Config, s: Sys, r: FrameResults)
    requires cfg.Valid() && Settled(s.loop) && TimeInv(cfg, s.loop) && s.hand.Some?
    ensures Extends(s.loop, Step(cfg, s, Handle(r)).loop)
  {
    hide TimeInv, HandleFrame, KeptCount;
    HandleMoves(cfg, s.loop, s.hand.value, s.cancelled, r);
  }

  lemma EndExtends(cfg: Config, s: Sys, e: Event)
    requires cfg.Valid() && Settled(s.loop) && (e.Tick? || e.Exit?)
    ensures Extends(s.loop, Step(cfg, s, e).loop)
  {
    hide Finish;
    if s.loop.seg.Some? {
      FinishMoves(cfg, s.loop, e.finish);
    }
  }

  lemma StepExtendsWritten(cfg: Config, s: Sys, e: Event)
    requires cfg.Valid() && Inv(cfg, s)
    ensures Extends(s.loop, Step(cfg, s, e).loop)
  {
    assert Settled(s.loop) && TimeInv(cfg, s.loop);
    hide Inv, TimeInv, HandleFrame, Finish, SendStep, TickCloses;
    if e.Handle? {
      if s.hand.Some? {
        HandleExtends(cfg, s, e.r);
      }
    } else if e.Tick? || e.Exit? {
      EndExtends(cfg, s, e);
    }
  }

  // The counters only grow.
  lemma StepGrows(cfg: Config, s: Sys, e: Event)
    requires cfg.Valid() && Inv(cfg, s)
    ensures var m, n := s.loop.m, Step(cfg, s, e).loop.m;
            && m.received <= n.received && m.recorded <= n.recorded
            && m.dropped <= n.dropped && m.segmentsDone <= n.segmentsDone
  {
    hide Step, QueueInv, OrderInv, CountsInv, TimeInv, SegInv, FileInv, CallInv;
    StepKeepsInv(cfg, s, e);
    StepExtendsWritten(cfg, s, e);
    StepExtendsEnded(cfg, s, e);
    PublishedCountGrows(s.loop.h.ended, Step(cfg, s, e).loop.h.ended);
  }

  lemma StartLoopInv(cfg: Config)
    requires cfg.Valid()
    ensures LoopInv(cfg, START.loop)
  {
    StartTimes(cfg);
    StartFiles();
    hide TimeInv, SegInv, FileInv, CountInv, CallInv;
  }

  lemma StartTimes(cfg: Config)
    requires cfg.Valid()
    ensures TimeInv(cfg, START.loop) && SegInv(cfg, START.loop)
  {
  }

  lemma StartFiles()
    ensures FileInv(START.loop) && CountInv(START.loop) && CallInv(START.loop)
  {
    assert AllStarts(START.loop) == {};
  }

  lemma StartInv(cfg: Config)
    requires cfg.Valid()
    ensures Inv(cfg, START)
  {
    hide LoopInv;
    StartLoopInv(cfg);
    assert Pending(START) == [];
  }

  lemma RunOneMore(cfg: Config, events: seq<Event>, e: Event)
    requires cfg.Valid()
    ensures RunOf(cfg, events + [e]) == Step(cfg, RunOf(cfg, events), e)
  {
    assert (events + [e])[..|events|] == events;
  }

  lemma {:induction false} RunKeepsInv(cfg: Config, events: seq<Event>)
    requires cfg.Valid()
    ensures Inv(cfg, RunOf(cfg, events))
  {
    if events == [] {
      StartInv(cfg);
    } else {
      RunKeepsInv(cfg, events[..|events| - 1]);
      StepKeepsInv(cfg, RunOf(cfg, events[..|events| - 1]), events[|events| - 1]);
    }
  }
}
