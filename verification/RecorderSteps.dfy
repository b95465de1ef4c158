// When a segment ends, where a frame goes and what counts as an error, in any run.
module RecorderSteps {
  import opened Wrappers
  import opened Bytes
  import opened GoInts
  import opened Decimation
  import opened DropChan
  import opened SegmentStore
  import opened RecorderSpec
  import opened RecorderInvariants
  import opened RecorderRuns
  import CP = CallProtocol

  // ---- The inactivity tick.

  // The timestamp of the frame the loop handled last, a JPEG or not, kept or not; a frame
  // without one has the time of its handling.
  function LastHandled(cfg: Config, events: seq<Event>): Option<int>
    requires cfg.Valid()
  {
    if events == [] then None
    else
      var e, s := events[|events| - 1], RunOf(cfg, events[..|events| - 1]);
      if e.Handle? && s.hand.Some? then
        Some(if s.hand.value.frame.stamp.Some? then s.hand.value.frame.stamp.value else e.r.now)
      else LastHandled(cfg, events[..|events| - 1])
  }

  lemma FinishKeepsLastFrame(cfg: Config, l: Loop, r: FinishResults)
    requires l.seg.Some?
    ensures Finish(cfg, l, r).lastFrameAt == l.lastFrameAt && Finish(cfg, l, r).seg.None?
  {
  }

  lemma OpenAndWriteKeepLastFrame(cfg: Config, l: Loop, w: Rec, cancelled: bool, r: FrameResults)
    ensures l.seg.None? ==> Open(l, w.ts, cancelled, r.open).lastFrameAt == l.lastFrameAt
    ensures l.seg.Some? ==> Write(l, w, r.writeOk, r.removeOk).lastFrameAt == l.lastFrameAt
  {
  }

  lemma RecordKeepsLastFrame(cfg: Config, l: Loop, w: Rec, cancelled: bool, r: FrameResults)
    ensures Record(cfg, l, w, cancelled, r).lastFrameAt == l.lastFrameAt
  {
    hide Finish, Open, Write;
    var rotates := l.seg.Some? && ShouldRotate(cfg, l.seg.value, w.ts, r.bytesBefore);
    if rotates {
      FinishKeepsLastFrame(cfg, l, r.finishBefore);
    }
    var f := if rotates then Finish(cfg, l, r.finishBefore) else l;
    OpenAndWriteKeepLastFrame(cfg, f, w, cancelled, r);
    var g := if f.seg.None? then Open(f, w.ts, cancelled, r.open) else f;
    OpenAndWriteKeepLastFrame(cfg, g, w, cancelled, r);
    if g.seg.Some? {
      var t := Write(g, w, r.writeOk, r.removeOk);
      if t.seg.Some? {
        FinishKeepsLastFrame(cfg, t, r.finishAfter);
      }
    }
  }

  lemma HandleSetsLastFrame(cfg: Config, l: Loop, item: Item, cancelled: bool, r: FrameResults)
    requires cfg.Valid()
    ensures HandleFrame(cfg, l, item, cancelled, r).lastFrameAt == Some(Timestamp(item.frame, r.now))
  {
    hide Record;
    var ts := Timestamp(item.frame, r.now);
    RecordKeepsLastFrame(cfg, Offered(cfg, l, ts), Rec(item.id, ts), cancelled, r);
  }

  lemma StepSetsLastFrame(cfg: Config, s: Sys, e: Event)
    requires cfg.Valid()
    requires s.loop.seg.Some? ==> s.loop.lastFrameAt.Some?
    ensures var t := Step(cfg, s, e);
            && t.loop.lastFrameAt == (if e.Handle? && s.hand.Some? then Some(Timestamp(s.hand.value.frame, e.r.now))
                                      else s.loop.lastFrameAt)
            && (t.loop.seg.Some? ==> t.loop.lastFrameAt.Some?)
  {
    hide HandleFrame, Finish, SendStep;
    if e.Handle? && s.hand.Some? {
      HandleSetsLastFrame(cfg, s.loop, s.hand.value, s.cancelled, e.r);
    } else if (e.Tick? || e.Exit?) && s.loop.seg.Some? {
      FinishKeepsLastFrame(cfg, s.loop, e.finish);
    }
  }

  lemma {:induction false} LastFrameIsLastHandled(cfg: Config, events: seq<Event>)
    requires cfg.Valid()
    ensures RunOf(cfg, events).loop.lastFrameAt == LastHandled(cfg, events)
    ensures RunOf(cfg, events).loop.seg.Some? ==> LastHandled(cfg, events).Some?
  {
    if events != [] {
      hide Step;
      LastFrameIsLastHandled(cfg, events[..|events| - 1]);
      StepSetsLastFrame(cfg, RunOf(cfg, events[..|events| - 1]), events[|events| - 1]);
    }
  }

  // A tick ends the open segment exactly when the loop waits for its next event and more
  // than the inactivity limit has passed since the timestamp of the last frame it handled.
  // Every other tick changes nothing.
  lemma TickEndsIff(cfg: Config, events: seq<Event>, now: int, r: FinishResults)
    requires cfg.Valid()
    ensures var s, t := RunOf(cfg, events), RunOf(cfg, events + [Tick(now, r)]);
            && (s.loop.seg.Some? ==> LastHandled(cfg, events).Some?)
            && if s.loop.seg.Some? && !s.stopped && s.hand.None? && now - LastHandled(cfg, events).value > cfg.inactiveClose
               then t.loop.seg.None? && t == s.(loop := Finish(cfg, s.loop, r))
               else t == s
  {
    hide Finish;
    var s := RunOf(cfg, events);
    RunOneMore(cfg, events, Tick(now, r));
    LastFrameIsLastHandled(cfg, events);
    if s.loop.seg.Some? {
      FinishKeepsLastFrame(cfg, s.loop, r);
    }
  }

  // ---- Where a frame goes.

  // The open segment ends before a kept frame exactly when, at that frame, it has run for
  // its duration or its file has reached its size. The frame goes into the open segment or,
  // where there is none any more, into a new one that starts with it, and this one ends
  // behind the frame exactly when it is full in turn.
  lemma WhereAFrameGoes(cfg: Config, l: Loop, item: Item, r: FrameResults)
    requires cfg.Valid() && Settled(l) && LooksLikeJpeg(item.frame.payload)
    requires r.open.createOk && r.open.encoderOk && r.writeOk
    requires Decide(Timestamp(item.frame, r.now), l.nextKeepAt, cfg.Interval()).keep
    ensures var t := HandleFrame(cfg, l, item, false, r);
            var ts := Timestamp(item.frame, r.now);
            var fullBefore := l.seg.Some? && (ts - l.seg.value.start >= cfg.segmentRawDuration || r.bytesBefore >= cfg.maxFileBytes);
            var goesOn := l.seg.Some? && !fullBefore;
            var start := if goesOn then l.seg.value.start else ts;
            var frames := (if goesOn then l.seg.value.frames else []) + [Rec(item.id, ts)];
            var fullAfter := ts - start >= cfg.segmentRawDuration || r.bytesAfter >= cfg.maxFileBytes;
            var over := |l.h.ended| + if fullBefore then 1 else 0;
            && l.h.ended <= t.h.ended && |t.h.ended| == over + (if fullAfter then 1 else 0)
            && (fullBefore ==>
                  var e := t.h.ended[|l.h.ended|]; e.start == l.seg.value.start && e.frames == l.seg.value.frames)
            && (fullAfter ==> var e := t.h.ended[over]; e.start == start && e.frames == frames)
            && t.seg == (if fullAfter then None else Some(Segment(start, ts, frames)))
  {
    var ts := Timestamp(item.frame, r.now);
    var o, w := Offered(cfg, l, ts), Rec(item.id, ts);
    if l.seg.Some? && ShouldRotate(cfg, l.seg.value, ts, r.bytesBefore) {
      FinishShape(cfg, o, r.finishBefore);
      GoesIntoNew(cfg, Finish(cfg, o, r.finishBefore), w, r);
    } else if l.seg.Some? {
      GoesIntoOpen(cfg, o, w, r);
    } else {
      GoesIntoNew(cfg, o, w, r);
    }
  }

  lemma GoesIntoOpen(cfg: Config, l: Loop, w: Rec, r: FrameResults)
    requires r.writeOk && l.seg.Some?
    ensures var t := WriteAndRotate(cfg, l, w, r);
            var start, frames := l.seg.value.start, l.seg.value.frames + [w];
            if w.ts - start >= cfg.segmentRawDuration || r.bytesAfter >= cfg.maxFileBytes then
              && t.seg.None?
              && exists published :: t.h.ended == l.h.ended + [Ended(start, frames, published)]
            else t.seg == Some(Segment(start, w.ts, frames)) && t.h.ended == l.h.ended
  {
    var t := Write(l, w, r.writeOk, r.removeOk);
    if ShouldRotate(cfg, t.seg.value, w.ts, r.bytesAfter) {
      FinishShape(cfg, t, r.finishAfter);
    }
  }

  lemma GoesIntoNew(cfg: Config, l: Loop, w: Rec, r: FrameResults)
    requires r.open.createOk && r.open.encoderOk && r.writeOk && l.seg.None?
    ensures var t := OpenAndWrite(cfg, l, w, false, r);
            if w.ts - w.ts >= cfg.segmentRawDuration || r.bytesAfter >= cfg.maxFileBytes then
              && t.seg.None?
              && exists published :: t.h.ended == l.h.ended + [Ended(w.ts, [w], published)]
            else t.seg == Some(Segment(w.ts, w.ts, [w])) && t.h.ended == l.h.ended
  {
    hide WriteAndRotate;
    var o := Open(l, w.ts, false, r.open);
    assert o.seg.value.frames + [w] == [w];
    GoesIntoOpen(cfg, o, w, r);
  }

  // ---- How many frames of good footage are recorded.

  lemma {:induction false} NthBucket(anchor: int, interval: int, w: seq<Rec>, i: nat)
    requires interval > 0 && i < |w|
    requires forall j, k :: 0 <= j < k < |w| ==> Bucket(anchor, interval, w[j].ts) < Bucket(anchor, interval, w[k].ts)
    requires forall j :: 0 <= j < |w| ==> 0 <= Bucket(anchor, interval, w[j].ts)
    ensures i <= Bucket(anchor, interval, w[i].ts)
    ensures Bucket(anchor, interval, w[i].ts) + (|w| - 1 - i) <= Bucket(anchor, interval, w[|w| - 1].ts)
  {
    if i > 0 {
      NthBucket(anchor, interval, w[..i], i - 1);
    }
    if i < |w| - 1 {
      NthBucket(anchor, interval, w[..|w| - 1], i);
    }
  }

  // A run that fails to open no segment and to write no frame records, of footage in time
  // order with a frame in every bucket, one frame of each bucket.
  lemma OneFrameABucket(cfg: Config, events: seq<Event>, i: nat)
    requires cfg.Valid()
    requires var h := RunOf(cfg, events).loop.h;
             && h.offered != [] && Nondecreasing(h.offered) && EveryBucketHit(h.offered, cfg.Interval())
             && h.failedOpen == 0 && h.failedWrite == 0
    ensures var h := RunOf(cfg, events).loop.h;
            && |h.written| == (h.offered[|h.offered| - 1] - h.offered[0]) / cfg.Interval() + 1
            && (i < |h.written| ==>
                  i * cfg.Interval() <= h.written[i].ts - h.offered[0] < (i + 1) * cfg.Interval())
  {
    hide RunOf;
    WrittenAreOffered(cfg, events);
    var h := RunOf(cfg, events).loop.h;
    KeptCountWhenDense(h.offered, cfg.Interval());
    if i < |h.written| {
      FramesFillBuckets(h.offered, h.written, cfg.Interval(), i);
    }
  }

  // As many frames as buckets, in buckets that rise: frame i is in bucket i.
  lemma FramesFillBuckets(offered: seq<int>, w: seq<Rec>, d: int, i: nat)
    requires d > 0 && i < |w| && offered != [] && Nondecreasing(offered)
    requires |w| == (offered[|offered| - 1] - offered[0]) / d + 1
    requires forall j :: 0 <= j < |w| ==> w[j].ts in offered
    requires forall j, k :: 0 <= j < k < |w| ==> Bucket(offered[0], d, w[j].ts) < Bucket(offered[0], d, w[k].ts)
    ensures i * d <= w[i].ts - offered[0] < (i + 1) * d
  {
    var t0, last := offered[0], offered[|offered| - 1];
    forall j | 0 <= j < |w| ensures 0 <= Bucket(t0, d, w[j].ts) <= Bucket(t0, d, last) {
      var k :| 0 <= k < |offered| && offered[k] == w[j].ts;
      BucketMonotone(t0, d, t0, w[j].ts);
      BucketMonotone(t0, d, w[j].ts, last);
    }
    NthBucket(t0, d, w, i);
    assert Bucket(t0, d, w[i].ts) == i;
    QuotientAtLeast(w[i].ts - t0, d, i);
    QuotientAtLeast(w[i].ts - t0, d, i + 1);
  }

  lemma WrittenAreOffered(cfg: Config, events: seq<Event>)
    requires cfg.Valid()
    ensures var h := RunOf(cfg, events).loop.h;
            && (forall i :: 0 <= i < |h.written| ==> h.written[i].ts in h.offered)
            && BucketsIncrease(cfg, Anchor(h), h.written)
            && KeptCount(h.offered, cfg.Interval()) == |h.written| + h.failedOpen + h.failedWrite
  {
    RunKeepsInv(cfg, events);
  }

  // With a rate that divides the factor, such a run records the frames number b to
  // b + outputFPS - 1 in the timelapseFactor seconds from the beginning of bucket b, and no
  // other ones.
  lemma RateOfRecording(cfg: Config, events: seq<Event>, b: nat, i: nat)
    requires cfg.Valid() && cfg.timelapseFactor <= 9_223_372_036
    requires (1_000_000_000 * cfg.timelapseFactor) % cfg.outputFPS == 0
    requires var h := RunOf(cfg, events).loop.h;
             && h.offered != [] && Nondecreasing(h.offered) && EveryBucketHit(h.offered, cfg.Interval())
             && h.failedOpen == 0 && h.failedWrite == 0 && i < |h.written|
    ensures cfg.outputFPS * cfg.Interval() == 1_000_000_000 * cfg.timelapseFactor
    ensures var h := RunOf(cfg, events).loop.h;
            var from := h.offered[0] + b * cfg.Interval();
            from <= h.written[i].ts < from + 1_000_000_000 * cfg.timelapseFactor <==> b <= i < b + cfg.outputFPS
  {
    hide RunOf, EveryBucketHit;
    var h, d, n := RunOf(cfg, events).loop.h, cfg.Interval(), cfg.outputFPS;
    KeepEveryDivides(cfg.timelapseFactor, n);
    OneFrameABucket(cfg, events, i);
    var x := h.written[i].ts - h.offered[0];
    QuotientOf(x, d, i);
    QuotientAtLeast(x, d, b);
    QuotientAtLeast(x, d, b + n);
    assert (b + n) * d == b * d + n * d;
  }

  // ---- Errors.

  // A call that returned an error. Kill and Discard report none.
  predicate Fails(c: CP.Call) {
    match c
    case BeginFailed => true
    case Start(_, ok) => !ok
    case Write(_, ok) => !ok
    case CloseEncoder(_, ok) => !ok
    case CloseWriter(_, ok) => !ok
    case Complete(_, ok) => !ok
    case _ => false
  }

  function FailedCalls(calls: seq<CP.Call>): nat {
    if calls == [] then 0
    else FailedCalls(calls[..|calls| - 1]) + if Fails(calls[|calls| - 1]) then 1 else 0
  }

  lemma OneMoreCall(calls: seq<CP.Call>, c: CP.Call)
    ensures FailedCalls(calls + [c]) == FailedCalls(calls) + if Fails(c) then 1 else 0
  {
    assert (calls + [c])[..|calls|] == calls;
  }

  // How far the counter is off.
  function Off(l: Loop): int {
    l.m.encoderErrors - FailedCalls(l.h.calls)
  }

  lemma DiscardKeepsOff(l: Loop, removeOk: bool)
    requires l.seg.Some?
    ensures Off(Discard(l, removeOk)) == Off(l)
  {
    OneMoreCall(l.h.calls, CP.Discard(l.seg.value.start));
  }

  lemma FinishKeepsOff(cfg: Config, l: Loop, r: FinishResults)
    requires l.seg.Some?
    ensures Off(Finish(cfg, l, r)) == Off(l)
  {
    var t, calls := l.seg.value.start, l.h.calls;
    hide FailedCalls, Fails, AfterComplete, AfterPrune, AfterDiscard;
    OneMoreCall(calls, CP.CloseEncoder(t, r.encoderOk));
    var c1 := calls + [CP.CloseEncoder(t, r.encoderOk)];
    OneMoreCall(c1, CP.CloseWriter(t, r.writerOk));
    var c2 := c1 + [CP.CloseWriter(t, r.writerOk)];
    var ok := CompleteSucceeds(l.files, t, r.complete);
    OneMoreCall(c2, CP.Complete(t, ok));
    OneMoreCall(c1, CP.Discard(t));
    OneMoreCall(c2, CP.Discard(t));
    OneMoreCall(c2 + [CP.Complete(t, ok)], CP.Discard(t));
    FailsOf(t, r.encoderOk);
    FailsOf(t, r.writerOk);
    FailsOf(t, ok);
  }

  lemma FailsOf(t: int, ok: bool)
    ensures Fails(CP.CloseEncoder(t, ok)) == Fails(CP.CloseWriter(t, ok)) == Fails(CP.Complete(t, ok))
            == Fails(CP.Start(t, ok)) == Fails(CP.Write(t, ok)) == !ok
    ensures !Fails(CP.Discard(t)) && !Fails(CP.Kill(t)) && !Fails(CP.Begin(t)) && Fails(CP.BeginFailed)
  {
  }

  lemma OpenKeepsOff(l: Loop, ts: int, cancelled: bool, r: OpenResults)
    requires l.seg.None?
    ensures Off(Open(l, ts, cancelled, r)) == Off(l)
  {
    hide FailedCalls, Fails, AfterDiscard;
    var calls := l.h.calls;
    FailsOf(ts, r.encoderOk);
    OneMoreCall(calls, CP.BeginFailed);
    OneMoreCall(calls, CP.Begin(ts));
    OneMoreCall(calls + [CP.Begin(ts)], CP.Start(ts, r.encoderOk));
    OneMoreCall(calls + [CP.Begin(ts)] + [CP.Start(ts, false)], CP.Discard(ts));
  }

  lemma WriteKeepsOff(l: Loop, w: Rec, writeOk: bool, removeOk: bool)
    requires l.seg.Some?
    ensures Off(Write(l, w, writeOk, removeOk)) == Off(l)
  {
    hide FailedCalls, Fails, AfterDiscard;
    var calls, t := l.h.calls, l.seg.value.start;
    FailsOf(t, writeOk);
    OneMoreCall(calls, CP.Write(t, writeOk));
    OneMoreCall(calls + [CP.Write(t, false)], CP.Kill(t));
    OneMoreCall(calls + [CP.Write(t, false)] + [CP.Kill(t)], CP.Discard(t));
  }

  lemma HandleKeepsOff(cfg: Config, l: Loop, item: Item, cancelled: bool, r: FrameResults)
    requires cfg.Valid()
    ensures Off(HandleFrame(cfg, l, item, cancelled, r)) == Off(l)
  {
    hide FailedCalls, Finish, Open, Write;
    var ts := Timestamp(item.frame, r.now);
    if LooksLikeJpeg(item.frame.payload) && Decide(ts, l.nextKeepAt, cfg.Interval()).keep {
      var o, w := Offered(cfg, l, ts), Rec(item.id, ts);
      var rotates := o.seg.Some? && ShouldRotate(cfg, o.seg.value, ts, r.bytesBefore);
      if rotates {
        FinishKeepsOff(cfg, o, r.finishBefore);
      }
      var f := if rotates then Finish(cfg, o, r.finishBefore) else o;
      if f.seg.None? {
        OpenKeepsOff(f, ts, cancelled, r.open);
      }
      var g := if f.seg.None? then Open(f, ts, cancelled, r.open) else f;
      if g.seg.Some? {
        WriteKeepsOff(g, w, r.writeOk, r.removeOk);
        var t := Write(g, w, r.writeOk, r.removeOk);
        if t.seg.Some? {
          FinishKeepsOff(cfg, t, r.finishAfter);
        }
      }
    }
  }

  lemma StepKeepsOff(cfg: Config, s: Sys, e: Event)
    requires cfg.Valid()
    ensures Off(Step(cfg, s, e).loop) == Off(s.loop)
  {
    hide HandleFrame, Finish, SendStep, FailedCalls;
    if e.Handle? && s.hand.Some? {
      HandleKeepsOff(cfg, s.loop, s.hand.value, s.cancelled, e.r);
    } else if (e.Tick? || e.Exit?) && s.loop.seg.Some? {
      FinishKeepsOff(cfg, s.loop, e.finish);
    }
  }

  // The error counter counts the failed calls, each of them once, whatever the run.
  lemma {:induction false} EveryFailedCallIsCounted(cfg: Config, events: seq<Event>)
    requires cfg.Valid()
    ensures var l := RunOf(cfg, events).loop; l.m.encoderErrors == FailedCalls(l.h.calls)
  {
    if events != [] {
      hide Step;
      EveryFailedCallIsCounted(cfg, events[..|events| - 1]);
      StepKeepsOff(cfg, RunOf(cfg, events[..|events| - 1]), events[|events| - 1]);
    }
  }

  // ---- What List shows.

  // A listed recording is one of the published segments, and its metadata give the
  // timestamps of the first and the last frame written to it.
  lemma ListedAreRecorded(cfg: Config, events: seq<Event>, t: int)
    requires cfg.Valid()
    ensures var l := RunOf(cfg, events).loop;
            t in Listed(l.files) ==>
              && t in l.files.meta
              && exists i :: 0 <= i < |l.h.ended| && l.h.ended[i].published.Some? && l.h.ended[i].frames != []
                   && t == l.h.ended[i].frames[0].ts
                   && l.files.meta[t] == l.h.ended[i].frames[|l.h.ended[i].frames| - 1].ts
  {
    RunKeepsInv(cfg, events);
    var l := RunOf(cfg, events).loop;
    if t in Listed(l.files) {
      assert HasPublished(l.h.ended, t, l.files.meta[t]);
      var i :| 0 <= i < |l.h.ended| && l.h.ended[i].published == Some(SegmentInfo(t, l.files.meta[t])) && l.h.ended[i].start == t;
      assert EndedOk(cfg, l.h.ended[i]);
    }
  }
}
