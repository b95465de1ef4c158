// The promises of the recorder, for every run of one camera.
module RecorderTheorems {
  import opened Wrappers
  import opened Bytes
  import opened GoInts
  import opened Decimation
  import opened DropChan
  import opened SegmentStore
  import opened RecorderSpec
  import opened RecorderInvariants
  import opened RecorderRuns
  import CP = CallProtocol

  // ---- What is recorded.

  // The recorded frames are a subsequence of the submitted ones, with strictly
  // increasing timestamps, at most one in each bucket of the grid, and a frame that
  // carries a timestamp is recorded under it. No order of the incoming timestamps and
  // no fairness between producer and loop is assumed.
  lemma RecordedIsSubsequence(cfg: Config, events: seq<Event>)
    requires cfg.Valid()
    ensures var s := RunOf(cfg, events);
            var w := s.loop.h.written;
            && (forall i :: 0 <= i < |w| ==> IsRecordOf(s.submitted, w[i]))
            && (forall i, j :: 0 <= i < j < |w| ==> w[i].id < w[j].id && w[i].ts < w[j].ts)
            && BucketsIncrease(cfg, Anchor(s.loop.h), w)
  {
    RunKeepsInv(cfg, events);
    var s := RunOf(cfg, events);
    var w := s.loop.h.written;
    forall i, j | 0 <= i < j < |w| ensures w[i].ts < w[j].ts {
      if w[j].ts <= w[i].ts {
        BucketMonotone(Anchor(s.loop.h), cfg.Interval(), w[j].ts, w[i].ts);
      }
    }
  }

  // Of the frames shown to the decimation, exactly those that reach a new bucket are
  // kept (Decimation.KeptIffNewBucket), and every kept frame is recorded or lost to a
  // failed open or write.
  lemma KeptFramesAreAccountedFor(cfg: Config, events: seq<Event>)
    requires cfg.Valid()
    ensures var l := RunOf(cfg, events).loop;
            && l.nextKeepAt == NextAfter(l.h.offered, cfg.Interval())
            && KeptCount(l.h.offered, cfg.Interval()) == |l.h.written| + l.h.failedOpen + l.h.failedWrite
  {
    RunKeepsInv(cfg, events);
  }

  // ---- Conservation.

  function FramesEnded(ended: seq<Ended>, published: bool): nat {
    if ended == [] then 0
    else
      var e := ended[|ended| - 1];
      FramesEnded(ended[..|ended| - 1], published) + if e.published.Some? == published then |e.frames| else 0
  }

  lemma {:induction false} FramesEndedSplit(ended: seq<Ended>)
    ensures |FramesOf(ended)| == FramesEnded(ended, true) + FramesEnded(ended, false)
  {
    if ended != [] {
      FramesEndedSplit(ended[..|ended| - 1]);
    }
  }

  // After every single step, also in the middle of a Send: each received frame is
  // recorded, counted as dropped, lost to a failure, queued, in hand, with the producer,
  // or evicted with its loss about to be counted. The recorded frames are, in order,
  // those of the ended segments and of the open one.
  lemma FramesAreConserved(cfg: Config, events: seq<Event>)
    requires cfg.Valid()
    ensures var s := RunOf(cfg, events);
            var m, h := s.loop.m, s.loop.h;
            && m.received == |s.submitted|
            && m.received == m.recorded + m.dropped + h.failedOpen + h.failedWrite
                             + |s.queue| + (if s.hand.Some? then 1 else 0)
                             + (if s.pc.InCall() then 1 else 0) + Uncounted(s)
            && h.written == FramesOf(h.ended) + OpenFrames(s.loop)
            && m.recorded == FramesEnded(h.ended, true) + FramesEnded(h.ended, false) + |OpenFrames(s.loop)|
            && m.segmentsDone == PublishedCount(h.ended)
            && m.activeEncoders == (if s.loop.seg.Some? then 1 else 0)
  {
    RunKeepsInv(cfg, events);
    FramesEndedSplit(RunOf(cfg, events).loop.h.ended);
  }

  // With a single producer Submit never loses its own frame.
  lemma SubmitNeverDropsNewest(cfg: Config, events: seq<Event>)
    requires cfg.Valid()
    ensures RunOf(cfg, events).pc != Returned(Dropped) && |RunOf(cfg, events).queue| <= cfg.queueSize
  {
    RunKeepsInv(cfg, events);
  }

  // ---- Segments.

  // A published segment covers its first to its last frame, and the spans of two
  // segments do not meet.
  lemma SpansAreExactAndDisjoint(cfg: Config, events: seq<Event>)
    requires cfg.Valid()
    ensures var ended := RunOf(cfg, events).loop.h.ended;
            && (forall i :: 0 <= i < |ended| && ended[i].published.Some? ==>
                  && ended[i].frames != []
                  && ended[i].published.value.startedAt == ended[i].frames[0].ts
                  && ended[i].published.value.endedAt == ended[i].frames[|ended[i].frames| - 1].ts)
            && (forall i, j :: 0 <= i < j < |ended| && ended[i].published.Some? && ended[j].published.Some? ==>
                  ended[i].published.value.endedAt < ended[j].published.value.startedAt)
            && (forall i, j :: 0 <= i < j < |ended| ==> ended[i].start < ended[j].start)
  {
    RunKeepsInv(cfg, events);
    var ended := RunOf(cfg, events).loop.h.ended;
    forall i, j | 0 <= i < j < |ended| && ended[i].published.Some? && ended[j].published.Some?
      ensures ended[i].published.value.endedAt < ended[j].published.value.startedAt
    {
      assert EndedOk(cfg, ended[i]) && EndedOk(cfg, ended[j]) && Precedes(ended[i], ended[j].start);
    }
  }

  // The most frames a segment of duration d can hold on a grid of interval i: the
  // number of buckets an interval of that length can touch.
  function MostFrames(d: int, i: int): int
    requires i > 0
  {
    (d + i - 2) / i + 1
  }

  lemma MostFramesAtMostCeiling(d: int, i: int)
    requires d > 0 && i > 0
    ensures MostFrames(d, i) <= (d + i - 1) / i + 1
  {
    QuotientAtLeast(d + i - 1, i, (d + i - 2) / i);
    QuotientAtLeast(d + i - 2, i, (d + i - 2) / i);
  }

  lemma {:induction false} BucketsSpread(cfg: Config, anchor: int, frames: seq<Rec>, n: nat)
    requires cfg.Valid() && BucketsIncrease(cfg, anchor, frames) && n < |frames|
    ensures Bucket(anchor, cfg.Interval(), frames[0].ts) + n <= Bucket(anchor, cfg.Interval(), frames[n].ts)
  {
    if n > 0 {
      BucketsSpread(cfg, anchor, frames, n - 1);
    }
  }

  lemma FramesFit(cfg: Config, anchor: int, start: int, frames: seq<Rec>)
    requires cfg.Valid() && cfg.segmentRawDuration > 0
    requires BucketsIncrease(cfg, anchor, frames) && FramesOk(cfg, start, frames)
    ensures |frames| <= MostFrames(cfg.segmentRawDuration, cfg.Interval())
  {
    var d, i := cfg.segmentRawDuration, cfg.Interval();
    if frames == [] {
      QuotientAtLeast(d + i - 2, i, -1);
    } else {
      var n := |frames| - 1;
      BucketsSpread(cfg, anchor, frames, n);
      var first, last := Bucket(anchor, i, start), Bucket(anchor, i, frames[n].ts);
      // last bucket starts at most d - 1 after start, start lies at most i - 1 into its own
      QuotientAtLeast(frames[n].ts - anchor, i, last);
      QuotientAtLeast(start - anchor, i, first + 1);
      assert (last - first) * i == last * i - first * i;
      assert (first + 1) * i == first * i + i;
      assert (last - first) * i <= d + i - 2;
      QuotientAtLeast(d + i - 2, i, last - first);
    }
  }

  lemma {:induction false} FramesOfIsPart(ended: seq<Ended>, i: nat)
    requires i < |ended|
    ensures exists a, b :: FramesOf(ended) == a + ended[i].frames + b
  {
    var last := |ended| - 1;
    if i == last {
      assert FramesOf(ended) == FramesOf(ended[..last]) + ended[i].frames + [];
    } else {
      FramesOfIsPart(ended[..last], i);
      var a, b :| FramesOf(ended[..last]) == a + ended[i].frames + b;
      assert FramesOf(ended) == a + ended[i].frames + (b + ended[last].frames);
    }
  }

  lemma PartIncreases(cfg: Config, anchor: int, a: seq<Rec>, b: seq<Rec>, c: seq<Rec>)
    requires cfg.Valid() && BucketsIncrease(cfg, anchor, a + b + c)
    ensures BucketsIncrease(cfg, anchor, b)
  {
    var all := a + b + c;
    forall i, j | 0 <= i < j < |b|
      ensures Bucket(anchor, cfg.Interval(), b[i].ts) < Bucket(anchor, cfg.Interval(), b[j].ts)
    {
      assert all[|a| + i] == b[i] && all[|a| + j] == b[j];
    }
  }

  lemma EndedSegmentFits(cfg: Config, l: Loop, i: nat)
    requires cfg.Valid() && cfg.segmentRawDuration > 0 && TimeInv(cfg, l) && SegInv(cfg, l) && i < |l.h.ended|
    ensures |l.h.ended[i].frames| <= MostFrames(cfg.segmentRawDuration, cfg.Interval())
  {
    var frames := l.h.ended[i].frames;
    assert EndedOk(cfg, l.h.ended[i]);
    hide FramesOf, BucketsIncrease, FramesOk, MostFrames;
    FramesOfIsPart(l.h.ended, i);
    var a, b :| FramesOf(l.h.ended) == a + frames + b;
    assert l.h.written == a + frames + (b + OpenFrames(l));
    PartIncreases(cfg, Anchor(l.h), a, frames, b + OpenFrames(l));
    FramesFit(cfg, Anchor(l.h), l.h.ended[i].start, frames);
  }

  lemma OpenSegmentFits(cfg: Config, l: Loop)
    requires cfg.Valid() && cfg.segmentRawDuration > 0 && TimeInv(cfg, l) && SegInv(cfg, l)
    ensures |OpenFrames(l)| <= MostFrames(cfg.segmentRawDuration, cfg.Interval())
  {
    var start := if l.seg.Some? then l.seg.value.start else 0;
    assert FramesOk(cfg, start, OpenFrames(l));
    hide FramesOf, BucketsIncrease, FramesOk, MostFrames;
    assert l.h.written == FramesOf(l.h.ended) + OpenFrames(l) + [];
    PartIncreases(cfg, Anchor(l.h), FramesOf(l.h.ended), OpenFrames(l), []);
    FramesFit(cfg, Anchor(l.h), start, OpenFrames(l));
  }

  // With a positive duration, every frame of a segment lies less than the duration
  // after its start, and the number of frames is bounded whatever the input, the file
  // sizes and the failures.
  lemma SegmentsAreBounded(cfg: Config, events: seq<Event>)
    requires cfg.Valid() && cfg.segmentRawDuration > 0
    ensures var l := RunOf(cfg, events).loop;
            && (forall i, k :: 0 <= i < |l.h.ended| && 0 <= k < |l.h.ended[i].frames| ==>
                  0 <= l.h.ended[i].frames[k].ts - l.h.ended[i].start < cfg.segmentRawDuration)
            && (forall i :: 0 <= i < |l.h.ended| ==>
                  |l.h.ended[i].frames| <= MostFrames(cfg.segmentRawDuration, cfg.Interval()))
            && |OpenFrames(l)| <= MostFrames(cfg.segmentRawDuration, cfg.Interval())
  {
    RunKeepsInv(cfg, events);
    var l := RunOf(cfg, events).loop;
    hide RunOf, MostFrames, FramesOf, BucketsIncrease;
    forall i | 0 <= i < |l.h.ended|
      ensures |l.h.ended[i].frames| <= MostFrames(cfg.segmentRawDuration, cfg.Interval())
    {
      EndedSegmentFits(cfg, l, i);
    }
    OpenSegmentFits(cfg, l);
    forall i | 0 <= i < |l.h.ended| ensures FramesOk(cfg, l.h.ended[i].start, l.h.ended[i].frames) {
      assert EndedOk(cfg, l.h.ended[i]);
    }
  }

  // ---- Names.

  function Created(f: Files): set<int> {
    f.tmp + f.video + f.meta.Keys
  }

  // Every file belongs to a segment begun before, and no start is begun twice.
  lemma FilesWereBegun(cfg: Config, events: seq<Event>, t: int)
    requires cfg.Valid()
    ensures var l := RunOf(cfg, events).loop;
            && CP.Begins(l.h.calls, t) <= 1
            && (t in Created(l.files) ==> CP.Begins(l.h.calls, t) == 1)
  {
    RunKeepsInv(cfg, events);
    var l := RunOf(cfg, events).loop;
    if t in l.files.meta {
      var i :| 0 <= i < |l.h.ended| && l.h.ended[i].published == Some(SegmentInfo(t, l.files.meta[t])) && l.h.ended[i].start == t;
      assert t in EndedStarts(l.h.ended);
    }
  }

  // Whatever fails, removals included: a segment is begun under a name no file carries,
  // and a segment that ends had no finished file or metadata under its name before.
  lemma NothingIsOverwritten(cfg: Config, events: seq<Event>, e: Event)
    requires cfg.Valid()
    ensures var before, after := RunOf(cfg, events).loop, RunOf(cfg, events + [e]).loop;
            && (forall t :: CP.Begins(before.h.calls, t) < CP.Begins(after.h.calls, t) ==> t !in Created(before.files))
            && before.h.ended <= after.h.ended
            && (forall i :: |before.h.ended| <= i < |after.h.ended| ==>
                  after.h.ended[i].start !in before.files.video && after.h.ended[i].start !in before.files.meta)
  {
    RunKeepsInv(cfg, events);
    RunKeepsInv(cfg, events + [e]);
    RunOneMore(cfg, events, e);
    var before, after := RunOf(cfg, events).loop, RunOf(cfg, events + [e]).loop;
    StepExtendsEnded(cfg, RunOf(cfg, events), e);
    forall t | CP.Begins(before.h.calls, t) < CP.Begins(after.h.calls, t) ensures t !in Created(before.files) {
      FilesWereBegun(cfg, events, t);
      FilesWereBegun(cfg, events + [e], t);
    }
    forall i | |before.h.ended| <= i < |after.h.ended|
      ensures after.h.ended[i].start !in EndedStarts(before.h.ended)
    {
      forall j | 0 <= j < |before.h.ended| ensures before.h.ended[j].start != after.h.ended[i].start {
        assert after.h.ended[j] == before.h.ended[j];
        assert Precedes(after.h.ended[j], after.h.ended[i].start);
      }
    }
    MetaIsEnded(before);
  }

  lemma MetaIsEnded(l: Loop)
    requires FileInv(l)
    ensures l.files.meta.Keys <= EndedStarts(l.h.ended)
  {
    forall t | t in l.files.meta ensures t in EndedStarts(l.h.ended) {
      assert HasPublished(l.h.ended, t, l.files.meta[t]);
    }
  }

  // ---- The latest.mp4 link and the temporary directory, when links and removals work.

  predicate LinksWork(r: FinishResults) {
    r.complete.unlinkOk && r.complete.symlinkOk
  }

  predicate EventLinksWork(e: Event) {
    match e
    case Handle(r) => LinksWork(r.finishBefore) && LinksWork(r.finishAfter)
    case Tick(_, r) => LinksWork(r)
    case Exit(r) => LinksWork(r)
    case _ => true
  }

  predicate EventRemovesWork(e: Event) {
    match e
    case Handle(r) => r.finishBefore.removeOk && r.open.removeOk && r.removeOk && r.finishAfter.removeOk
    case Tick(_, r) => r.removeOk
    case Exit(r) => r.removeOk
    case _ => true
  }

  predicate Linked(l: Loop) {
    l.files.latest == LastPublished(l.h.ended)
  }

  predicate Tidy(l: Loop) {
    l.files.tmp == if l.seg.Some? then {l.seg.value.start} else {}
  }

  lemma FinishTidies(cfg: Config, l: Loop, r: FinishResults)
    requires l.seg.Some? && l.seg.value.frames != []
    ensures LinksWork(r) && Linked(l) ==> Linked(Finish(cfg, l, r))
    ensures r.removeOk && Tidy(l) ==> Tidy(Finish(cfg, l, r))
  {
    FinishShape(cfg, l, r);
    FinishFiles(cfg, l, r);
    EndedOneMore(l.h.ended, Ended(l.seg.value.start, l.seg.value.frames, FinishInfo(l, r)));
  }

  lemma WriteTidies(cfg: Config, l: Loop, w: Rec, r: FrameResults)
    requires l.seg.Some?
    ensures LinksWork(r.finishAfter) && Linked(l) ==> Linked(WriteAndRotate(cfg, l, w, r))
    ensures r.removeOk && r.finishAfter.removeOk && Tidy(l) ==> Tidy(WriteAndRotate(cfg, l, w, r))
  {
    var t := Write(l, w, r.writeOk, r.removeOk);
    if r.writeOk && ShouldRotate(cfg, t.seg.value, w.ts, r.bytesAfter) {
      FinishTidies(cfg, t, r.finishAfter);
    } else if !r.writeOk {
      WriteFailedShape(l, w, r.removeOk);
      EndedOneMore(l.h.ended, Ended(l.seg.value.start, l.seg.value.frames, None));
    }
  }

  lemma OpenTidies(l: Loop, ts: int, cancelled: bool, r: OpenResults)
    requires l.seg.None?
    ensures Linked(l) ==> Linked(Open(l, ts, cancelled, r))
    ensures r.removeOk && Tidy(l) ==> Tidy(Open(l, ts, cancelled, r))
  {
    if !cancelled && r.createOk {
      OpenedShape(l, ts);
      if !r.encoderOk {
        StartFailedShape(l, ts, r.removeOk);
        EndedOneMore(l.h.ended, Ended(ts, [], None));
      }
    }
  }

  lemma OpenAndWriteTidies(cfg: Config, l: Loop, w: Rec, cancelled: bool, r: FrameResults)
    ensures LinksWork(r.finishAfter) && Linked(l) ==> Linked(OpenAndWrite(cfg, l, w, cancelled, r))
    ensures r.open.removeOk && r.removeOk && r.finishAfter.removeOk && Tidy(l) ==>
              Tidy(OpenAndWrite(cfg, l, w, cancelled, r))
  {
    if l.seg.None? {
      OpenTidies(l, w.ts, cancelled, r.open);
      var t := Open(l, w.ts, cancelled, r.open);
      if t.seg.Some? {
        WriteTidies(cfg, t, w, r);
      }
    } else {
      WriteTidies(cfg, l, w, r);
    }
  }

  lemma HandleTidies(cfg: Config, l: Loop, item: Item, cancelled: bool, r: FrameResults)
    requires cfg.Valid() && Settled(l)
    ensures EventLinksWork(Handle(r)) && Linked(l) ==> Linked(HandleFrame(cfg, l, item, cancelled, r))
    ensures EventRemovesWork(Handle(r)) && Tidy(l) ==> Tidy(HandleFrame(cfg, l, item, cancelled, r))
  {
    var ts := Timestamp(item.frame, r.now);
    if LooksLikeJpeg(item.frame.payload) && Decide(ts, l.nextKeepAt, cfg.Interval()).keep {
      var o, w := Offered(cfg, l, ts), Rec(item.id, ts);
      if o.seg.Some? && ShouldRotate(cfg, o.seg.value, ts, r.bytesBefore) {
        FinishTidies(cfg, o, r.finishBefore);
        OpenAndWriteTidies(cfg, Finish(cfg, o, r.finishBefore), w, cancelled, r);
      } else {
        OpenAndWriteTidies(cfg, o, w, cancelled, r);
      }
    }
  }

  lemma StepTidies(cfg: Config, s: Sys, e: Event)
    requires cfg.Valid() && Inv(cfg, s)
    ensures EventLinksWork(e) && Linked(s.loop) ==> Linked(Step(cfg, s, e).loop)
    ensures EventRemovesWork(e) && Tidy(s.loop) ==> Tidy(Step(cfg, s, e).loop)
  {
    if e.Handle? && s.hand.Some? {
      HandleTidies(cfg, s.loop, s.hand.value, s.cancelled, e.r);
    } else if e.Tick? && s.loop.seg.Some? {
      FinishTidies(cfg, s.loop, e.finish);
    } else if e.Exit? && s.loop.seg.Some? {
      FinishTidies(cfg, s.loop, e.finish);
    }
  }

  lemma {:induction false} RunTidies(cfg: Config, events: seq<Event>)
    requires cfg.Valid()
    ensures (forall i :: 0 <= i < |events| ==> EventLinksWork(events[i])) ==> Linked(RunOf(cfg, events).loop)
    ensures (forall i :: 0 <= i < |events| ==> EventRemovesWork(events[i])) ==> Tidy(RunOf(cfg, events).loop)
  {
    if events != [] {
      var n := |events| - 1;
      RunTidies(cfg, events[..n]);
      RunKeepsInv(cfg, events[..n]);
      StepTidies(cfg, RunOf(cfg, events[..n]), events[n]);
    }
  }

  // As long as links work, latest.mp4 appears with the first published segment and from
  // then on names the newest listed one. Pruning, even with removals that fail, never
  // takes that one away.
  lemma LatestIsNewest(cfg: Config, events: seq<Event>)
    requires cfg.Valid()
    requires forall i :: 0 <= i < |events| ==> EventLinksWork(events[i])
    ensures var l := RunOf(cfg, events).loop;
            && (l.files.latest.None? <==> l.m.segmentsDone == 0)
            && (l.files.latest.Some? ==>
                  && l.files.latest.value in Listed(l.files)
                  && forall t :: t in Listed(l.files) ==> t <= l.files.latest.value)
            && (l.files.latest.None? ==> Listed(l.files) == {})
  {
    RunKeepsInv(cfg, events);
    RunTidies(cfg, events);
    var l := RunOf(cfg, events).loop;
    NothingPublished(l.h.ended);
    forall t | t in Listed(l.files)
      ensures LastPublished(l.h.ended).Some? && t <= LastPublished(l.h.ended).value
    {
      assert HasPublished(l.h.ended, t, l.files.meta[t]);
      var i :| 0 <= i < |l.h.ended| && l.h.ended[i].published == Some(SegmentInfo(t, l.files.meta[t])) && l.h.ended[i].start == t;
      LastPublishedIsGreatest(l.h.ended, i);
    }
  }

  lemma {:induction false} NothingPublished(ended: seq<Ended>)
    ensures LastPublished(ended).None? <==> PublishedCount(ended) == 0
  {
    if ended != [] {
      NothingPublished(ended[..|ended| - 1]);
    }
  }

  // ---- Segments and encoders as resources.

  // Every begun segment ends exactly once, in a successful completion or a discard, and
  // every started encoder is stopped exactly once, closed or killed, except the ones of
  // the open segment. The calls keep to the protocol in their order too.
  lemma ResourcesAreLinear(cfg: Config, events: seq<Event>, t: int)
    requires cfg.Valid()
    ensures var l := RunOf(cfg, events).loop;
            var open := l.seg.Some? && l.seg.value.start == t;
            var calls := l.h.calls;
            && CP.PhaseAfter(calls) == (if l.seg.Some? then CP.Running(l.seg.value.start) else CP.Free)
            && CP.Begins(calls, t) <= 1
            && CP.Ends(calls, t) == CP.Begins(calls, t) - (if open then 1 else 0)
            && CP.EncodersStarted(calls, t) <= CP.Begins(calls, t)
            && CP.EncodersStopped(calls, t) == CP.EncodersStarted(calls, t) - (if open then 1 else 0)
  {
    RunKeepsInv(cfg, events);
    CP.CountsBalance(RunOf(cfg, events).loop.h.calls, t);
  }

  // An encoder is not used again after it was closed or killed.
  lemma StoppedEncodersStayStopped(cfg: Config, events: seq<Event>, t: int, i: nat, j: nat)
    requires cfg.Valid()
    requires i < j < |RunOf(cfg, events).loop.h.calls|
    requires CP.StopsEncoder(RunOf(cfg, events).loop.h.calls[i], t)
    ensures var later := RunOf(cfg, events).loop.h.calls[j];
            !(later.Write? && later.start == t) && !CP.StopsEncoder(later, t)
  {
    ResourcesAreLinear(cfg, events, t);
    CP.StoppedMeansStopped(RunOf(cfg, events).loop.h.calls, t, i, j);
  }

  // A cancelled loop can always stop once its frame is dealt with. When it has stopped,
  // whenever the cancellation came, nothing is open, and if removals work the temporary
  // directory holds nothing of this camera.
  lemma ShutdownLeavesNothingOpen(cfg: Config, events: seq<Event>, r: FinishResults, t: int)
    requires cfg.Valid()
    ensures var s := RunOf(cfg, events);
            && (s.cancelled && s.hand.None? ==> Step(cfg, s, Exit(r)).stopped)
            && (s.stopped ==>
                  && s.loop.seg.None? && s.loop.m.activeEncoders == 0
                  && CP.PhaseAfter(s.loop.h.calls) == CP.Free
                  && CP.Ends(s.loop.h.calls, t) == CP.Begins(s.loop.h.calls, t)
                  && CP.EncodersStopped(s.loop.h.calls, t) == CP.EncodersStarted(s.loop.h.calls, t)
                  && ((forall i :: 0 <= i < |events| ==> EventRemovesWork(events[i])) ==> s.loop.files.tmp == {}))
  {
    RunKeepsInv(cfg, events);
    RunTidies(cfg, events);
    ResourcesAreLinear(cfg, events, t);
  }

  // ---- Where the code and its documentation disagree.

  // The store asks that a segment be passed to one of CompleteSegment and
  // DiscardSegment. Finishing a segment passes it to both exactly when the encoder and
  // the writer close well and the completion fails.
  lemma BothTerminalCallsIff(cfg: Config, l: Loop, r: FinishResults)
    requires l.seg.Some? && l.seg.value.frames != []
    ensures var t := l.seg.value.start;
            var more := Finish(cfg, l, r).h.calls[|l.h.calls|..];
            ((exists ok :: CP.Complete(t, ok) in more) && CP.Discard(t) in more) <==>
            (r.encoderOk && r.writerOk && !CompleteSucceeds(l.files, t, r.complete))
  {
    FinishShape(cfg, l, r);
    var t, calls := l.seg.value.start, FinishCalls(l, r);
    assert Finish(cfg, l, r).h.calls[|l.h.calls|..] == calls;
    if r.encoderOk && r.writerOk {
      assert calls[2] in calls;
      assert |calls| == 4 ==> calls[3] in calls;
    }
  }

  // The way of one frame to the point where it is in the loop's hands.
  function Arrival(f: Frame): seq<Event> {
    [Submit(f), SendNext, Counted, Dequeue]
  }

  // No frame is on its way to the loop.
  predicate AtRest(s: Sys) {
    s.queue == [] && s.hand.None? && s.pc.Idle?
  }

  lemma FrameArrives(cfg: Config, events: seq<Event>, f: Frame)
    requires cfg.Valid() && AtRest(RunOf(cfg, events)) && !RunOf(cfg, events).stopped
    ensures var s := RunOf(cfg, events);
            var m := s.loop.m;
            RunOf(cfg, events + Arrival(f)) ==
            s.(submitted := s.submitted + [f], hand := Some(Item(|s.submitted|, f)),
               loop := s.loop.(m := m.(received := m.received + 1)))
  {
    RunOneMore(cfg, events, Submit(f));
    RunOneMore(cfg, events + [Submit(f)], SendNext);
    RunOneMore(cfg, events + [Submit(f)] + [SendNext], Counted);
    RunOneMore(cfg, events + [Submit(f)] + [SendNext] + [Counted], Dequeue);
    assert events + [Submit(f)] + [SendNext] + [Counted] + [Dequeue] == events + Arrival(f);
  }

  // One such run: the only frame is recorded, the recorder shut down, and the rename
  // fails.
  lemma BothTerminalCallsHappen(cfg: Config, f: Frame, r: FrameResults, x: FinishResults)
    requires cfg.Valid() && cfg.segmentRawDuration > 0 && r.bytesAfter < cfg.maxFileBytes
    requires LooksLikeJpeg(f.payload) && r.open.createOk && r.open.encoderOk && r.writeOk
    requires x.encoderOk && x.writerOk && !x.complete.renameOk
    ensures var t := Timestamp(f, r.now);
            RunOf(cfg, Arrival(f) + [Handle(r)] + [Cancel] + [Exit(x)]).loop.h.calls ==
            [CP.Begin(t), CP.Start(t, true), CP.Write(t, true),
             CP.CloseEncoder(t, true), CP.CloseWriter(t, true), CP.Complete(t, false), CP.Discard(t)]
  {
    FrameArrives(cfg, [], f);
    assert [] + Arrival(f) == Arrival(f);
    RunOneMore(cfg, Arrival(f), Handle(r));
    RunOneMore(cfg, Arrival(f) + [Handle(r)], Cancel);
    RunOneMore(cfg, Arrival(f) + [Handle(r)] + [Cancel], Exit(x));
  }

  // The branch of handleFrame that loses a frame without counting it: the frame is let
  // through, and the segment it needs cannot be opened or the encoder refuses it.
  predicate Misses(cfg: Config, l: Loop, f: Frame, cancelled: bool, r: FrameResults)
    requires cfg.Valid()
  {
    var ts := Timestamp(f, r.now);
    var opens := l.seg.None? || ShouldRotate(cfg, l.seg.value, ts, r.bytesBefore);
    && LooksLikeJpeg(f.payload)
    && Decide(ts, l.nextKeepAt, cfg.Interval()).keep
    && ((opens && (cancelled || !r.open.createOk || !r.open.encoderOk)) || !r.writeOk)
  }

  // One frame adds one to recorded and dropped together, unless it meets that branch.
  lemma FrameIsCountedIff(cfg: Config, l: Loop, item: Item, cancelled: bool, r: FrameResults)
    requires cfg.Valid() && Settled(l)
    ensures var t := HandleFrame(cfg, l, item, cancelled, r);
            t.m.recorded + t.m.dropped
            == l.m.recorded + l.m.dropped + if Misses(cfg, l, item.frame, cancelled, r) then 0 else 1
  {
    var ts := Timestamp(item.frame, r.now);
    if LooksLikeJpeg(item.frame.payload) && Decide(ts, l.nextKeepAt, cfg.Interval()).keep {
      RecordCounts(cfg, Offered(cfg, l, ts), Rec(item.id, ts), cancelled, r);
    }
  }

  lemma RecordCounts(cfg: Config, l: Loop, w: Rec, cancelled: bool, r: FrameResults)
    requires Settled(l)
    ensures var t := Record(cfg, l, w, cancelled, r);
            var opens := l.seg.None? || ShouldRotate(cfg, l.seg.value, w.ts, r.bytesBefore);
            && t.m.dropped == l.m.dropped
            && t.m.recorded == l.m.recorded
               + if (opens && (cancelled || !r.open.createOk || !r.open.encoderOk)) || !r.writeOk then 0 else 1
  {
    if l.seg.Some? && ShouldRotate(cfg, l.seg.value, w.ts, r.bytesBefore) {
      FinishShape(cfg, l, r.finishBefore);
      OpenAndWriteCounts(cfg, Finish(cfg, l, r.finishBefore), w, cancelled, r);
    } else {
      OpenAndWriteCounts(cfg, l, w, cancelled, r);
    }
  }

  lemma OpenAndWriteCounts(cfg: Config, l: Loop, w: Rec, cancelled: bool, r: FrameResults)
    ensures var t := OpenAndWrite(cfg, l, w, cancelled, r);
            && t.m.dropped == l.m.dropped
            && t.m.recorded == l.m.recorded
               + if (l.seg.None? && (cancelled || !r.open.createOk || !r.open.encoderOk)) || !r.writeOk then 0 else 1
  {
    if l.seg.Some? {
      WriteCounts(cfg, l, w, r);
    } else {
      var t := Open(l, w.ts, cancelled, r.open);
      if t.seg.Some? {
        WriteCounts(cfg, t, w, r);
      }
    }
  }

  lemma WriteCounts(cfg: Config, l: Loop, w: Rec, r: FrameResults)
    requires l.seg.Some?
    ensures var t := WriteAndRotate(cfg, l, w, r);
            t.m.dropped == l.m.dropped && t.m.recorded == l.m.recorded + if r.writeOk then 1 else 0
  {
    var t := Write(l, w, r.writeOk, r.removeOk);
    if t.seg.Some? && ShouldRotate(cfg, t.seg.value, w.ts, r.bytesAfter) {
      FinishShape(cfg, t, r.finishAfter);
    }
  }

  // Event i is the handling of a frame that meets that branch.
  predicate MissesAt(cfg: Config, events: seq<Event>, i: nat)
    requires cfg.Valid() && i < |events|
  {
    var s := RunOf(cfg, events[..i]);
    events[i].Handle? && s.hand.Some? && Misses(cfg, s.loop, s.hand.value.frame, s.cancelled, events[i].r)
  }

  function MissCount(cfg: Config, events: seq<Event>): nat
    requires cfg.Valid()
  {
    if events == [] then 0
    else
      var n := |events| - 1;
      MissCount(cfg, events[..n]) + if MissesAt(cfg, events, n) then 1 else 0
  }

  lemma FinishCounts(cfg: Config, l: Loop, r: FinishResults)
    requires l.seg.Some? && l.seg.value.frames != []
    ensures Finish(cfg, l, r).h.failedOpen == l.h.failedOpen && Finish(cfg, l, r).h.failedWrite == l.h.failedWrite
  {
    FinishShape(cfg, l, r);
  }

  lemma InvGives(cfg: Config, s: Sys)
    requires cfg.Valid() && Inv(cfg, s)
    ensures Settled(s.loop) && TimeInv(cfg, s.loop)
  {
  }

  lemma HandleFailures(cfg: Config, l: Loop, item: Item, cancelled: bool, r: FrameResults)
    requires cfg.Valid() && Settled(l) && TimeInv(cfg, l)
    ensures var g := HandleFrame(cfg, l, item, cancelled, r).h;
            g.failedOpen + g.failedWrite
            == l.h.failedOpen + l.h.failedWrite + if Misses(cfg, l, item.frame, cancelled, r) then 1 else 0
  {
    hide HandleFrame, Misses, TimeInv;
    HandleMoves(cfg, l, item, cancelled, r);
    FrameIsCountedIff(cfg, l, item, cancelled, r);
  }

  lemma EndFailures(cfg: Config, s: Sys, e: Event)
    requires cfg.Valid() && Settled(s.loop) && (e.Tick? || e.Exit?)
    ensures var h, g := s.loop.h, Step(cfg, s, e).loop.h;
            g.failedOpen == h.failedOpen && g.failedWrite == h.failedWrite
  {
    hide Finish;
    if s.loop.seg.Some? {
      FinishCounts(cfg, s.loop, e.finish);
    }
  }

  lemma StepFailures(cfg: Config, s: Sys, e: Event)
    requires cfg.Valid() && Settled(s.loop) && TimeInv(cfg, s.loop)
    ensures var h, g := s.loop.h, Step(cfg, s, e).loop.h;
            var missed := e.Handle? && s.hand.Some? && Misses(cfg, s.loop, s.hand.value.frame, s.cancelled, e.r);
            g.failedOpen + g.failedWrite == h.failedOpen + h.failedWrite + if missed then 1 else 0
  {
    hide TimeInv, HandleFrame, Misses, Finish, SendStep, TickCloses;
    if e.Handle? {
      if s.hand.Some? {
        HandleFailures(cfg, s.loop, s.hand.value, s.cancelled, e.r);
      }
    } else if e.Tick? || e.Exit? {
      EndFailures(cfg, s, e);
    }
  }

  lemma {:induction false} MissesAreTheFailures(cfg: Config, events: seq<Event>)
    requires cfg.Valid()
    ensures var h := RunOf(cfg, events).loop.h; MissCount(cfg, events) == h.failedOpen + h.failedWrite
  {
    if events != [] {
      var n := |events| - 1;
      var s, e := RunOf(cfg, events[..n]), events[n];
      hide Step, Misses, Inv, TimeInv;
      MissesAreTheFailures(cfg, events[..n]);
      RunKeepsInv(cfg, events[..n]);
      InvGives(cfg, s);
      StepFailures(cfg, s, e);
    }
  }

  lemma {:induction false} NoMissIff(cfg: Config, events: seq<Event>)
    requires cfg.Valid()
    ensures MissCount(cfg, events) == 0 <==> forall i :: 0 <= i < |events| ==> !MissesAt(cfg, events, i)
  {
    if events != [] {
      var n := |events| - 1;
      NoMissIff(cfg, events[..n]);
      assert forall i :: 0 <= i < n ==> events[..n][..i] == events[..i];
      assert forall i :: 0 <= i < n ==> (MissesAt(cfg, events[..n], i) <==> MissesAt(cfg, events, i));
    }
  }

  // Submit and the loop count what they drop so that every lost frame shows. Once all
  // frames are dealt with, the counters fall short of the frames received by the number
  // of frames that met a segment that could not be opened or an encoder that refused
  // them, so they add up exactly when no frame did.
  lemma EveryLossIsCountedIff(cfg: Config, events: seq<Event>)
    requires cfg.Valid() && AtRest(RunOf(cfg, events))
    ensures var m := RunOf(cfg, events).loop.m;
            && m.received == m.recorded + m.dropped + MissCount(cfg, events)
            && (m.received == m.recorded + m.dropped <==> forall i :: 0 <= i < |events| ==> !MissesAt(cfg, events, i))
  {
    FramesAreConserved(cfg, events);
    MissesAreTheFailures(cfg, events);
    NoMissIff(cfg, events);
  }

  lemma ALossCanGoUncounted(cfg: Config, f: Frame, r: FrameResults)
    requires cfg.Valid() && LooksLikeJpeg(f.payload) && !r.open.createOk
    ensures var m := RunOf(cfg, Arrival(f) + [Handle(r)]).loop.m;
            m.received == 1 && m.recorded == 0 && m.dropped == 0
  {
    FrameArrives(cfg, [], f);
    assert [] + Arrival(f) == Arrival(f);
    RunOneMore(cfg, Arrival(f), Handle(r));
  }

  // Finishing a segment leaves a finished file that List did not and does not show in two
  // ways: its own, when the rename goes through and the metadata cannot be written, and
  // that of a surplus recording whose metadata goes and whose video stays.
  predicate Orphans(cfg: Config, l: Loop, r: FinishResults, t: int)
    requires l.seg.Some?
  {
    var start := l.seg.value.start;
    && r.encoderOk && r.writerOk && r.complete.renameOk
    && if !r.complete.metadataOk then t == start
       else
         && cfg.keepFiles > 0 && r.prune.readDirOk
         && t in Surplus(Listed(l.files) + {start} - r.prune.unreadable, cfg.keepFiles)
         && t in r.prune.stuckVideo && t !in r.prune.stuckMeta
  }

  lemma NewOrphanIff(cfg: Config, l: Loop, r: FinishResults, t: int)
    requires cfg.Valid() && LoopInv(cfg, l) && l.seg.Some?
    ensures var f := Finish(cfg, l, r).files;
            IsOrphan(f, t) && !IsOrphan(l.files, t) <==> Orphans(cfg, l, r, t)
  {
    hide Surplus;
    FinishFiles(cfg, l, r);
    NotYetDescribed(cfg, l);
    var start := l.seg.value.start;
    var done := AfterComplete(l.files, start, l.seg.value.last, r.complete);
    if FinishPublishes(l, r) {
      assert Listed(done) == Listed(l.files) + {start};
      SurplusIsThere(Listed(done) - r.prune.unreadable, cfg.keepFiles);
    }
  }

  lemma SurplusIsThere(starts: set<int>, keep: int)
    ensures Surplus(starts, keep) <= starts
  {
  }

  // After any run, and with any results of finishing its open segment.
  lemma OrphanIff(cfg: Config, events: seq<Event>, r: FinishResults, t: int)
    requires cfg.Valid() && RunOf(cfg, events).loop.seg.Some?
    ensures var l := RunOf(cfg, events).loop;
            IsOrphan(Finish(cfg, l, r).files, t) && !IsOrphan(l.files, t) <==> Orphans(cfg, l, r, t)
  {
    RunKeepsInv(cfg, events);
    NewOrphanIff(cfg, RunOf(cfg, events).loop, r, t);
  }

  // Two frames of the second way: each fills its segment, the second one is an interval
  // after the first, one recording is kept, and the first one's video cannot be removed.
  lemma PruneCanOrphan(cfg: Config, f: Frame, g: Frame, r: FrameResults, x: FrameResults)
    requires cfg.Valid() && cfg.segmentRawDuration > 0 && cfg.keepFiles == 1
    requires LooksLikeJpeg(f.payload) && LooksLikeJpeg(g.payload)
    requires f.stamp == Some(0) && g.stamp == Some(cfg.Interval())
    requires Smooth(cfg, r) && Smooth(cfg, x) && r.finishAfter.prune == PruneResults(true, {}, {}, {})
    requires x.finishAfter.prune == PruneResults(true, {}, {0}, {})
    ensures IsOrphan(RunOf(cfg, Arrival(f) + [Handle(r)] + Arrival(g) + [Handle(x)]).loop.files, 0)
  {
    var one := Arrival(f) + [Handle(r)];
    var two := one + Arrival(g);
    FrameArrives(cfg, [], f);
    assert [] + Arrival(f) == Arrival(f);
    RunOneMore(cfg, Arrival(f), Handle(r));
    FirstRecording(cfg, RunOf(cfg, Arrival(f)).loop, Item(0, f), r);
    FrameArrives(cfg, one, g);
    RunOneMore(cfg, two, Handle(x));
    SecondRecording(cfg, RunOf(cfg, two).loop, Item(1, g), x);
  }

  // Everything works, and the file is full after the write.
  predicate Smooth(cfg: Config, r: FrameResults) {
    && r.open.createOk && r.open.encoderOk && r.writeOk && r.bytesAfter >= cfg.maxFileBytes
    && r.finishAfter.encoderOk && r.finishAfter.writerOk
    && r.finishAfter.complete == CompleteResults(true, true, true, true)
  }

  // A frame that opens, fills and finishes its segment.
  lemma OneFrameRecording(cfg: Config, l: Loop, item: Item, r: FrameResults)
    requires cfg.Valid() && Smooth(cfg, r) && l.seg.None? && LooksLikeJpeg(item.frame.payload)
    requires Decide(Timestamp(item.frame, r.now), l.nextKeepAt, cfg.Interval()).keep
    ensures var ts := Timestamp(item.frame, r.now);
            var t := HandleFrame(cfg, l, item, false, r);
            var done := Files(l.files.tmp - {ts}, l.files.video + {ts}, l.files.meta[ts := ts], Some(ts));
            && t.files == AfterPrune(done, cfg.keepFiles, r.finishAfter.prune)
            && t.seg.None?
            && t.nextKeepAt == Decide(ts, l.nextKeepAt, cfg.Interval()).next
  {
    hide AfterPrune;
    var ts := Timestamp(item.frame, r.now);
    var o := Offered(cfg, l, ts);
    var opened' := Open(o, ts, false, r.open);
    var w := Write(opened', Rec(item.id, ts), true, r.removeOk);
    FinishShape(cfg, w, r.finishAfter);
    FinishFiles(cfg, w, r.finishAfter);
    assert l.files.tmp + {ts} - {ts} == l.files.tmp - {ts};
  }

  lemma FirstRecording(cfg: Config, l: Loop, item: Item, r: FrameResults)
    requires cfg.Valid() && cfg.keepFiles == 1 && Smooth(cfg, r) && r.finishAfter.prune == PruneResults(true, {}, {}, {})
    requires l.seg.None? && l.nextKeepAt.None? && l.files == EMPTY
    requires LooksLikeJpeg(item.frame.payload) && item.frame.stamp == Some(0)
    ensures var t := HandleFrame(cfg, l, item, false, r);
            t.seg.None? && t.nextKeepAt == Some(cfg.Interval()) && t.files == Files({}, {0}, map[0 := 0], Some(0))
  {
    OneFrameRecording(cfg, l, item, r);
    var done := Files({}, {0}, map[0 := 0], Some(0));
    assert {} - {0} == {} && Listed(done) == {0};
    PruneNothing(done, 1, r.finishAfter.prune);
  }

  lemma SecondRecording(cfg: Config, l: Loop, item: Item, r: FrameResults)
    requires cfg.Valid() && cfg.keepFiles == 1 && Smooth(cfg, r) && r.finishAfter.prune == PruneResults(true, {}, {0}, {})
    requires l.seg.None? && l.nextKeepAt == Some(cfg.Interval()) && l.files == Files({}, {0}, map[0 := 0], Some(0))
    requires LooksLikeJpeg(item.frame.payload) && item.frame.stamp == Some(cfg.Interval())
    ensures IsOrphan(HandleFrame(cfg, l, item, false, r).files, 0)
  {
    OneFrameRecording(cfg, l, item, r);
    var i := cfg.Interval();
    var done := Files({} - {i}, {0} + {i}, map[0 := 0][i := i], Some(i));
    assert Listed(done) - {} == {0, i};
    assert NewerThan({0, i}, 0) == {i};
    assert 0 in Surplus(Listed(done) - {}, 1);
  }
}
