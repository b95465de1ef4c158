// What every step of the recording loop keeps.
module RecorderInvariants {
  import opened Wrappers
  import opened Bytes
  import opened Decimation
  import opened SegmentStore
  import opened RecorderSpec
  import CP = CallProtocol

  // ---- Vocabulary.

  // The instant the decimation grid is anchored at.
  function Anchor(h: History): int {
    if h.offered == [] then 0 else h.offered[0]
  }

  function FramesOf(ended: seq<Ended>): seq<Rec> {
    if ended == [] then [] else FramesOf(ended[..|ended| - 1]) + ended[|ended| - 1].frames
  }

  function OpenFrames(l: Loop): seq<Rec> {
    if l.seg.Some? then l.seg.value.frames else []
  }

  function PublishedCount(ended: seq<Ended>): nat {
    if ended == [] then 0
    else PublishedCount(ended[..|ended| - 1]) + if ended[|ended| - 1].published.Some? then 1 else 0
  }

  // The start of the segment published last.
  function LastPublished(ended: seq<Ended>): Option<int> {
    if ended == [] then None
    else if ended[|ended| - 1].published.Some? then Some(ended[|ended| - 1].start)
    else LastPublished(ended[..|ended| - 1])
  }

  function EndedStarts(ended: seq<Ended>): set<int> {
    set i | 0 <= i < |ended| :: ended[i].start
  }

  function AllStarts(l: Loop): set<int> {
    EndedStarts(l.h.ended) + if l.seg.Some? then {l.seg.value.start} else {}
  }

  // ---- Timestamps.

  ghost predicate BucketsIncrease(cfg: Config, anchor: int, frames: seq<Rec>)
    requires cfg.Valid()
  {
    forall i, j :: 0 <= i < j < |frames| ==>
      Bucket(anchor, cfg.Interval(), frames[i].ts) < Bucket(anchor, cfg.Interval(), frames[j].ts)
  }

  ghost predicate TimeInv(cfg: Config, l: Loop)
    requires cfg.Valid()
  {
    && l.nextKeepAt == NextAfter(l.h.offered, cfg.Interval())
    && (forall i :: 0 <= i < |l.h.written| ==> l.h.written[i].ts in l.h.offered)
    && BucketsIncrease(cfg, Anchor(l.h), l.h.written)
  }

  // ---- Segments.

  // The frames of a segment: the first one opened it and all lie within its duration.
  ghost predicate FramesOk(cfg: Config, start: int, frames: seq<Rec>) {
    && (frames != [] ==> frames[0].ts == start)
    && (forall i :: 0 <= i < |frames| ==> start <= frames[i].ts)
    && (cfg.segmentRawDuration > 0 ==>
          forall i :: 0 <= i < |frames| ==> frames[i].ts - start < cfg.segmentRawDuration)
  }

  function LastOf(start: int, frames: seq<Rec>): int {
    if frames == [] then start else frames[|frames| - 1].ts
  }

  ghost predicate EndedOk(cfg: Config, e: Ended) {
    && FramesOk(cfg, e.start, e.frames)
    && (e.published.Some? ==>
          e.frames != [] && e.published.value == SegmentInfo(e.start, LastOf(e.start, e.frames)))
  }

  ghost predicate Precedes(e: Ended, next: int) {
    e.start < next && forall i :: 0 <= i < |e.frames| ==> e.frames[i].ts < next
  }

  ghost predicate SegInv(cfg: Config, l: Loop) {
    && l.h.written == FramesOf(l.h.ended) + OpenFrames(l)
    && (forall i :: 0 <= i < |l.h.ended| ==> EndedOk(cfg, l.h.ended[i]) && l.h.ended[i].start in l.h.offered)
    && (forall i, j :: 0 <= i < j < |l.h.ended| ==> Precedes(l.h.ended[i], l.h.ended[j].start))
    && (l.seg.Some? ==>
          var seg := l.seg.value;
          && FramesOk(cfg, seg.start, seg.frames)
          && seg.last == LastOf(seg.start, seg.frames)
          && seg.start in l.h.offered
          && forall i :: 0 <= i < |l.h.ended| ==> Precedes(l.h.ended[i], seg.start))
  }

  // ---- Files.

  ghost predicate HasPublished(ended: seq<Ended>, start: int, end: int) {
    exists i :: 0 <= i < |ended| && ended[i].published == Some(SegmentInfo(start, end)) && ended[i].start == start
  }

  ghost predicate FileInv(l: Loop) {
    && l.files.tmp <= AllStarts(l)
    && l.files.video <= EndedStarts(l.h.ended)
    && (forall t :: t in l.files.meta ==> HasPublished(l.h.ended, t, l.files.meta[t]))
    && (l.seg.Some? ==> l.seg.value.start in l.files.tmp)
    && (LastPublished(l.h.ended).Some? ==> LastPublished(l.h.ended).value in Listed(l.files))
  }

  // ---- Counters and calls.

  ghost predicate CountInv(l: Loop) {
    && l.m.recorded == |l.h.written|
    && l.m.segmentsDone == PublishedCount(l.h.ended)
    && l.m.activeEncoders == if l.seg.Some? then 1 else 0
  }

  ghost predicate CallInv(l: Loop) {
    && CP.PhaseAfter(l.h.calls) == (if l.seg.Some? then CP.Running(l.seg.value.start) else CP.Free)
    && forall t :: CP.Begins(l.h.calls, t) == if t in AllStarts(l) then 1 else 0
  }

  ghost predicate LoopInv(cfg: Config, l: Loop)
    requires cfg.Valid()
  {
    TimeInv(cfg, l) && SegInv(cfg, l) && FileInv(l) && CountInv(l) && CallInv(l)
  }

  // Between two frames an open segment holds at least one frame.
  predicate Settled(l: Loop) {
    l.seg.Some? ==> l.seg.value.frames != []
  }

  // ---- A segment comes to its end.

  // t is l with its segment ended.
  ghost predicate EndsTo(l: Loop, t: Loop, published: Option<SegmentInfo>) {
    && l.seg.Some? && t.seg == None
    && t.nextKeepAt == l.nextKeepAt
    && t.h.offered == l.h.offered && t.h.written == l.h.written
    && t.h.ended == l.h.ended + [Ended(l.seg.value.start, l.seg.value.frames, published)]
    && (published.Some? ==>
          l.seg.value.frames != [] && published.value == SegmentInfo(l.seg.value.start, l.seg.value.last))
  }

  lemma EndedOneMore(ended: seq<Ended>, e: Ended)
    ensures FramesOf(ended + [e]) == FramesOf(ended) + e.frames
    ensures PublishedCount(ended + [e]) == PublishedCount(ended) + if e.published.Some? then 1 else 0
    ensures LastPublished(ended + [e]) == if e.published.Some? then Some(e.start) else LastPublished(ended)
    ensures EndedStarts(ended + [e]) == EndedStarts(ended) + {e.start}
  {
    var longer := ended + [e];
    assert longer[..|ended|] == ended;
    forall t ensures t in EndedStarts(longer) <==> t in EndedStarts(ended) + {e.start} {
      if t in EndedStarts(ended) {
        var i :| 0 <= i < |ended| && ended[i].start == t;
        assert longer[i].start == t;
      }
      if t == e.start {
        assert longer[|ended|].start == t;
      }
    }
  }

  lemma EndKeepsHistory(cfg: Config, l: Loop, t: Loop, published: Option<SegmentInfo>)
    requires cfg.Valid() && TimeInv(cfg, l) && SegInv(cfg, l) && EndsTo(l, t, published)
    ensures TimeInv(cfg, t) && SegInv(cfg, t)
    ensures AllStarts(t) == AllStarts(l)
  {
    EndedOneMore(l.h.ended, Ended(l.seg.value.start, l.seg.value.frames, published));
    hide FramesOf, PublishedCount, LastPublished, EndedStarts;
  }

  // All published starts are at most the last one.
  lemma {:induction false} LastPublishedIsGreatest(ended: seq<Ended>, i: nat)
    requires forall j, k :: 0 <= j < k < |ended| ==> Precedes(ended[j], ended[k].start)
    requires i < |ended| && ended[i].published.Some?
    ensures LastPublished(ended).Some? && ended[i].start <= LastPublished(ended).value
  {
    var last := |ended| - 1;
    if i < last && ended[last].published.None? {
      LastPublishedIsGreatest(ended[..last], i);
    }
  }

  lemma HasPublishedStays(ended: seq<Ended>, e: Ended, start: int, end: int)
    requires HasPublished(ended, start, end)
    ensures HasPublished(ended + [e], start, end)
  {
    var i :| 0 <= i < |ended| && ended[i].published == Some(SegmentInfo(start, end)) && ended[i].start == start;
    assert (ended + [e])[i] == ended[i];
  }

  lemma OpenStartIsNew(cfg: Config, l: Loop)
    requires SegInv(cfg, l) && l.seg.Some?
    ensures l.seg.value.start !in EndedStarts(l.h.ended)
  {
  }

  // A thrown-away segment leaves the listed recordings alone. f is what the disk looks
  // like just before the discard: a failed completion may already have moved the file.
  lemma ThrownAwayKeepsFiles(cfg: Config, l: Loop, t: Loop, f: Files, removeOk: bool)
    requires cfg.Valid() && TimeInv(cfg, l) && SegInv(cfg, l) && FileInv(l) && EndsTo(l, t, None)
    requires f.meta == l.files.meta
    requires f.tmp <= l.files.tmp
    requires l.files.video <= f.video <= l.files.video + {l.seg.value.start}
    requires t.files == AfterDiscard(f, l.seg.value.start, removeOk)
    ensures FileInv(t)
  {
    var e := Ended(l.seg.value.start, l.seg.value.frames, None);
    EndedOneMore(l.h.ended, e);
    EndKeepsHistory(cfg, l, t, None);
    forall s | s in t.files.meta ensures HasPublished(t.h.ended, s, t.files.meta[s]) {
      HasPublishedStays(l.h.ended, e, s, l.files.meta[s]);
    }
  }

  lemma PublishedKeepsFiles(cfg: Config, l: Loop, t: Loop, r: FinishResults)
    requires cfg.Valid() && TimeInv(cfg, l) && SegInv(cfg, l) && FileInv(l)
    requires l.seg.Some? && EndsTo(l, t, Some(SegmentInfo(l.seg.value.start, l.seg.value.last)))
    requires CompleteSucceeds(l.files, l.seg.value.start, r.complete)
    requires t.files == AfterPrune(AfterComplete(l.files, l.seg.value.start, l.seg.value.last, r.complete),
                                   cfg.keepFiles, r.prune)
    ensures FileInv(t)
  {
    var seg := l.seg.value;
    var e := Ended(seg.start, seg.frames, Some(SegmentInfo(seg.start, seg.last)));
    EndedOneMore(l.h.ended, e);
    var done := AfterComplete(l.files, seg.start, seg.last, r.complete);
    assert t.h.ended[|l.h.ended|] == e;
    forall s | s in done.meta ensures HasPublished(t.h.ended, s, done.meta[s]) && s <= seg.start {
      if s != seg.start {
        HasPublishedStays(l.h.ended, e, s, l.files.meta[s]);
        assert exists i :: 0 <= i < |l.h.ended| && l.h.ended[i].start == s;
      }
    }
    assert NewerThan(Listed(done), seg.start) == {};
    PruneKeepsNewest(done, cfg.keepFiles, r.prune, seg.start);
  }

  // ---- Calls.

  lemma BeginsOfOneMore(calls: seq<CP.Call>, c: CP.Call, t: int)
    ensures CP.Begins(calls + [c], t) == CP.Begins(calls, t) + if c == CP.Begin(t) then 1 else 0
  {
    assert (calls + [c])[..|calls|] == calls;
  }

  // The call log of t is that of l with more calls, none of which begins a segment.
  ghost predicate CallsAdded(l: Loop, t: Loop, more: seq<CP.Call>) {
    t.h.calls == l.h.calls + more && forall i :: 0 <= i < |more| ==> !more[i].Begin?
  }

  lemma {:induction false} BeginsOfMore(calls: seq<CP.Call>, more: seq<CP.Call>, t: int)
    requires forall i :: 0 <= i < |more| ==> !more[i].Begin?
    ensures CP.Begins(calls + more, t) == CP.Begins(calls, t)
  {
    if more == [] {
      assert calls + more == calls;
    } else {
      var n := |more| - 1;
      BeginsOfMore(calls, more[..n], t);
      BeginsOfOneMore(calls + more[..n], more[n], t);
      assert calls + more == calls + more[..n] + [more[n]];
    }
  }

  lemma PhaseOfTwo(calls: seq<CP.Call>, a: CP.Call, b: CP.Call)
    ensures CP.PhaseAfter(calls + [a, b]) == CP.Next(CP.Next(CP.PhaseAfter(calls), a), b)
  {
    assert calls + [a, b] == calls + [a] + [b];
    CP.PhaseOfOneMore(calls, a);
    CP.PhaseOfOneMore(calls + [a], b);
  }

  lemma PhaseOfThree(calls: seq<CP.Call>, a: CP.Call, b: CP.Call, c: CP.Call)
    ensures CP.PhaseAfter(calls + [a, b, c]) == CP.Next(CP.Next(CP.Next(CP.PhaseAfter(calls), a), b), c)
  {
    assert calls + [a, b, c] == calls + [a, b] + [c];
    PhaseOfTwo(calls, a, b);
    CP.PhaseOfOneMore(calls + [a, b], c);
  }

  lemma PhaseOfFour(calls: seq<CP.Call>, a: CP.Call, b: CP.Call, c: CP.Call, d: CP.Call)
    ensures CP.PhaseAfter(calls + [a, b, c, d]) ==
            CP.Next(CP.Next(CP.Next(CP.Next(CP.PhaseAfter(calls), a), b), c), d)
  {
    assert calls + [a, b, c, d] == calls + [a, b, c] + [d];
    PhaseOfThree(calls, a, b, c);
    CP.PhaseOfOneMore(calls + [a, b, c], d);
  }

  // ---- Finish, Write and Open.

  function FinishCalls(l: Loop, r: FinishResults): seq<CP.Call>
    requires l.seg.Some?
  {
    var t := l.seg.value.start;
    if !r.encoderOk then [CP.CloseEncoder(t, false), CP.Discard(t)]
    else if !r.writerOk then [CP.CloseEncoder(t, true), CP.CloseWriter(t, false), CP.Discard(t)]
    else if !CompleteSucceeds(l.files, t, r.complete)
    then [CP.CloseEncoder(t, true), CP.CloseWriter(t, true), CP.Complete(t, false), CP.Discard(t)]
    else [CP.CloseEncoder(t, true), CP.CloseWriter(t, true), CP.Complete(t, true)]
  }

  predicate FinishPublishes(l: Loop, r: FinishResults)
    requires l.seg.Some?
  {
    r.encoderOk && r.writerOk && CompleteSucceeds(l.files, l.seg.value.start, r.complete)
  }

  // Everything about Finish but the files.
  lemma FinishShape(cfg: Config, l: Loop, r: FinishResults)
    requires l.seg.Some? && l.seg.value.frames != []
    ensures var t := Finish(cfg, l, r);
            && EndsTo(l, t, if FinishPublishes(l, r) then Some(SegmentInfo(l.seg.value.start, l.seg.value.last)) else None)
            && t.h.calls == l.h.calls + FinishCalls(l, r)
            && t.m.activeEncoders == l.m.activeEncoders - 1
            && t.m.segmentsDone == l.m.segmentsDone + (if FinishPublishes(l, r) then 1 else 0)
            && t.m.recorded == l.m.recorded && t.m.dropped == l.m.dropped && t.m.received == l.m.received
            && t.lastFrameAt == l.lastFrameAt
            && t.h.failedOpen == l.h.failedOpen && t.h.failedWrite == l.h.failedWrite
  {
  }

  lemma FinishFiles(cfg: Config, l: Loop, r: FinishResults)
    requires l.seg.Some?
    ensures var t := Finish(cfg, l, r);
            var start := l.seg.value.start;
            var done := AfterComplete(l.files, start, l.seg.value.last, r.complete);
            t.files == if FinishPublishes(l, r) then AfterPrune(done, cfg.keepFiles, r.prune)
                       else if r.encoderOk && r.writerOk then AfterDiscard(done, start, r.removeOk)
                       else AfterDiscard(l.files, start, r.removeOk)
  {
  }

  lemma FinishPhase(l: Loop, r: FinishResults)
    requires l.seg.Some? && CP.PhaseAfter(l.h.calls) == CP.Running(l.seg.value.start)
    ensures CP.PhaseAfter(l.h.calls + FinishCalls(l, r)) == CP.Free
  {
    var calls, t := l.h.calls, l.seg.value.start;
    PhaseOfTwo(calls, CP.CloseEncoder(t, false), CP.Discard(t));
    PhaseOfThree(calls, CP.CloseEncoder(t, true), CP.CloseWriter(t, false), CP.Discard(t));
    PhaseOfFour(calls, CP.CloseEncoder(t, true), CP.CloseWriter(t, true), CP.Complete(t, false), CP.Discard(t));
    PhaseOfThree(calls, CP.CloseEncoder(t, true), CP.CloseWriter(t, true), CP.Complete(t, true));
  }

  lemma EndKeepsCalls(cfg: Config, l: Loop, t: Loop, published: Option<SegmentInfo>, more: seq<CP.Call>)
    requires cfg.Valid() && TimeInv(cfg, l) && SegInv(cfg, l) && CallInv(l)
    requires EndsTo(l, t, published) && CallsAdded(l, t, more)
    requires CP.PhaseAfter(l.h.calls + more) == CP.Free
    ensures CallInv(t)
  {
    EndKeepsHistory(cfg, l, t, published);
    forall s ensures CP.Begins(t.h.calls, s) == CP.Begins(l.h.calls, s) {
      BeginsOfMore(l.h.calls, more, s);
    }
  }

  function FinishInfo(l: Loop, r: FinishResults): Option<SegmentInfo>
    requires l.seg.Some?
  {
    if FinishPublishes(l, r) then Some(SegmentInfo(l.seg.value.start, l.seg.value.last)) else None
  }

  lemma FinishKeepsFiles(cfg: Config, l: Loop, r: FinishResults)
    requires cfg.Valid() && TimeInv(cfg, l) && SegInv(cfg, l) && FileInv(l)
    requires l.seg.Some? && l.seg.value.frames != []
    ensures FileInv(Finish(cfg, l, r))
  {
    var t := Finish(cfg, l, r);
    var seg := l.seg.value;
    FinishShape(cfg, l, r);
    FinishFiles(cfg, l, r);
    hide Finish, FileInv, SegInv, TimeInv, AfterPrune;
    if FinishPublishes(l, r) {
      PublishedKeepsFiles(cfg, l, t, r);
    } else {
      var f := if r.encoderOk && r.writerOk then AfterComplete(l.files, seg.start, seg.last, r.complete) else l.files;
      NotYetDescribed(cfg, l);
      assert f.meta == l.files.meta;
      ThrownAwayKeepsFiles(cfg, l, t, f, r.removeOk);
    }
  }

  lemma NotYetDescribed(cfg: Config, l: Loop)
    requires SegInv(cfg, l) && FileInv(l) && l.seg.Some?
    ensures l.seg.value.start !in l.files.meta && l.seg.value.start !in l.files.video
  {
    OpenStartIsNew(cfg, l);
    forall t | t in l.files.meta ensures t in EndedStarts(l.h.ended) {
      assert HasPublished(l.h.ended, t, l.files.meta[t]);
    }
  }

  lemma FinishKeepsCounts(cfg: Config, l: Loop, r: FinishResults)
    requires CountInv(l) && l.seg.Some? && l.seg.value.frames != []
    ensures CountInv(Finish(cfg, l, r))
  {
    FinishShape(cfg, l, r);
    EndedOneMore(l.h.ended, Ended(l.seg.value.start, l.seg.value.frames, FinishInfo(l, r)));
  }

  lemma FinishKeepsCalls(cfg: Config, l: Loop, r: FinishResults)
    requires cfg.Valid() && TimeInv(cfg, l) && SegInv(cfg, l) && CallInv(l)
    requires l.seg.Some? && l.seg.value.frames != []
    ensures CallInv(Finish(cfg, l, r))
  {
    hide CP.PhaseAfter, CP.Begins;
    FinishShape(cfg, l, r);
    FinishPhase(l, r);
    assert CallsAdded(l, Finish(cfg, l, r), FinishCalls(l, r));
    hide Finish, FinishCalls, CallsAdded, TimeInv, SegInv, CallInv, EndsTo;
    EndKeepsCalls(cfg, l, Finish(cfg, l, r), FinishInfo(l, r), FinishCalls(l, r));
  }

  lemma FinishKeeps(cfg: Config, l: Loop, r: FinishResults)
    requires cfg.Valid() && LoopInv(cfg, l) && l.seg.Some? && l.seg.value.frames != []
    ensures LoopInv(cfg, Finish(cfg, l, r))
  {
    FinishShape(cfg, l, r);
    EndKeepsHistory(cfg, l, Finish(cfg, l, r), FinishInfo(l, r));
    FinishKeepsFiles(cfg, l, r);
    FinishKeepsCounts(cfg, l, r);
    FinishKeepsCalls(cfg, l, r);
  }

  // w is later than everything recorded so far, also on the grid.
  ghost predicate IsNext(cfg: Config, l: Loop, w: Rec)
    requires cfg.Valid()
  {
    && w.ts in l.h.offered
    && (forall i :: 0 <= i < |l.h.written| ==>
          && l.h.written[i].ts < w.ts
          && Bucket(Anchor(l.h), cfg.Interval(), l.h.written[i].ts) < Bucket(Anchor(l.h), cfg.Interval(), w.ts))
  }

  lemma WriteOkKeeps(cfg: Config, l: Loop, w: Rec, removeOk: bool)
    requires cfg.Valid() && LoopInv(cfg, l) && l.seg.Some? && IsNext(cfg, l, w)
    requires l.seg.value.frames == [] ==> w.ts == l.seg.value.start
    requires l.seg.value.start <= w.ts
    requires cfg.segmentRawDuration > 0 ==> w.ts - l.seg.value.start < cfg.segmentRawDuration
    ensures LoopInv(cfg, Write(l, w, true, removeOk)) && Write(l, w, true, removeOk).seg.Some?
    ensures Write(l, w, true, removeOk).seg.value.frames != []
  {
    WriteOkKeepsFrames(cfg, l, w, removeOk);
    WriteOkKeepsCalls(l, w, removeOk);
    WriteOkKeepsFiles(l, w, removeOk);
    hide TimeInv, SegInv, FileInv, CountInv, CallInv;
  }

  lemma WriteOkKeepsFrames(cfg: Config, l: Loop, w: Rec, removeOk: bool)
    requires cfg.Valid() && TimeInv(cfg, l) && SegInv(cfg, l) && l.seg.Some? && IsNext(cfg, l, w)
    requires l.seg.value.frames == [] ==> w.ts == l.seg.value.start
    requires l.seg.value.start <= w.ts
    requires cfg.segmentRawDuration > 0 ==> w.ts - l.seg.value.start < cfg.segmentRawDuration
    ensures TimeInv(cfg, Write(l, w, true, removeOk)) && SegInv(cfg, Write(l, w, true, removeOk))
  {
    hide FramesOf;
    var t := Write(l, w, true, removeOk);
    assert t.h.written == FramesOf(t.h.ended) + OpenFrames(t);
  }

  lemma WriteOkKeepsCalls(l: Loop, w: Rec, removeOk: bool)
    requires CallInv(l) && l.seg.Some?
    ensures CallInv(Write(l, w, true, removeOk))
  {
    hide CP.PhaseAfter, CP.Begins, EndedStarts;
    var t := Write(l, w, true, removeOk);
    var c := CP.Write(l.seg.value.start, true);
    CP.PhaseOfOneMore(l.h.calls, c);
    forall s ensures CP.Begins(t.h.calls, s) == CP.Begins(l.h.calls, s) {
      BeginsOfOneMore(l.h.calls, c, s);
    }
    assert AllStarts(t) == AllStarts(l);
  }

  lemma WriteOkKeepsFiles(l: Loop, w: Rec, removeOk: bool)
    requires FileInv(l) && CountInv(l) && l.seg.Some?
    ensures FileInv(Write(l, w, true, removeOk)) && CountInv(Write(l, w, true, removeOk))
  {
    hide PublishedCount, LastPublished, EndedStarts;
  }

  lemma WriteFailedShape(l: Loop, w: Rec, removeOk: bool)
    requires l.seg.Some?
    ensures var t := Write(l, w, false, removeOk);
            var start := l.seg.value.start;
            && EndsTo(l, t, None)
            && t.files == AfterDiscard(l.files, start, removeOk)
            && t.h.calls == l.h.calls + [CP.Write(start, false), CP.Kill(start), CP.Discard(start)]
            && t.m == l.m.(encoderErrors := l.m.encoderErrors + 1, activeEncoders := l.m.activeEncoders - 1)
            && t.h.failedWrite == l.h.failedWrite + 1 && t.h.failedOpen == l.h.failedOpen
  {
  }

  lemma WriteFailedKeepsCalls(cfg: Config, l: Loop, w: Rec, removeOk: bool)
    requires cfg.Valid() && TimeInv(cfg, l) && SegInv(cfg, l) && CallInv(l) && l.seg.Some?
    ensures CallInv(Write(l, w, false, removeOk))
  {
    WriteFailedShape(l, w, removeOk);
    var start := l.seg.value.start;
    PhaseOfThree(l.h.calls, CP.Write(start, false), CP.Kill(start), CP.Discard(start));
    EndKeepsCalls(cfg, l, Write(l, w, false, removeOk), None, [CP.Write(start, false), CP.Kill(start), CP.Discard(start)]);
  }

  lemma WriteFailedKeeps(cfg: Config, l: Loop, w: Rec, removeOk: bool)
    requires cfg.Valid() && LoopInv(cfg, l) && l.seg.Some?
    ensures LoopInv(cfg, Write(l, w, false, removeOk)) && Write(l, w, false, removeOk).seg.None?
  {
    var t := Write(l, w, false, removeOk);
    WriteFailedShape(l, w, removeOk);
    EndKeepsHistory(cfg, l, t, None);
    ThrownAwayKeepsFiles(cfg, l, t, l.files, removeOk);
    EndedOneMore(l.h.ended, Ended(l.seg.value.start, l.seg.value.frames, None));
    WriteFailedKeepsCalls(cfg, l, w, removeOk);
  }

  // ts is later than the start and every frame of all segments so far.
  ghost predicate OpensNext(l: Loop, ts: int) {
    && l.seg.None?
    && ts in l.h.offered
    && forall i :: 0 <= i < |l.h.ended| ==> Precedes(l.h.ended[i], ts)
  }

  // The loop after a successful BeginSegment and encoder start.
  function Opened(l: Loop, ts: int): Loop
    requires l.seg.None?
  {
    Open(l, ts, false, OpenResults(true, true, true))
  }

  lemma OpenedShape(l: Loop, ts: int)
    requires l.seg.None?
    ensures var t := Opened(l, ts);
            && t == l.(seg := Some(Segment(ts, ts, [])),
                       files := l.files.(tmp := l.files.tmp + {ts}),
                       m := l.m.(activeEncoders := l.m.activeEncoders + 1),
                       h := l.h.(calls := l.h.calls + [CP.Begin(ts)] + [CP.Start(ts, true)]))
            && AllStarts(t) == AllStarts(l) + {ts}
  {
  }

  lemma OpenedKeepsHistory(cfg: Config, l: Loop, ts: int)
    requires cfg.Valid() && TimeInv(cfg, l) && SegInv(cfg, l) && OpensNext(l, ts)
    ensures TimeInv(cfg, Opened(l, ts)) && SegInv(cfg, Opened(l, ts))
  {
    OpenedShape(l, ts);
  }

  lemma OpenedKeepsFiles(l: Loop, ts: int)
    requires FileInv(l) && l.seg.None?
    ensures FileInv(Opened(l, ts))
  {
    OpenedShape(l, ts);
  }

  lemma OpenedKeepsCalls(l: Loop, ts: int)
    requires CallInv(l) && OpensNext(l, ts)
    ensures CallInv(Opened(l, ts))
  {
    OpenedShape(l, ts);
    var t := Opened(l, ts);
    var begun := l.h.calls + [CP.Begin(ts)];
    CP.PhaseOfOneMore(l.h.calls, CP.Begin(ts));
    CP.PhaseOfOneMore(begun, CP.Start(ts, true));
    assert ts !in AllStarts(l);
    forall s ensures CP.Begins(t.h.calls, s) == CP.Begins(l.h.calls, s) + if s == ts then 1 else 0 {
      BeginsOfOneMore(l.h.calls, CP.Begin(ts), s);
      BeginsOfOneMore(begun, CP.Start(ts, true), s);
    }
  }

  lemma OpenedKeeps(cfg: Config, l: Loop, ts: int)
    requires cfg.Valid() && LoopInv(cfg, l) && OpensNext(l, ts)
    ensures LoopInv(cfg, Opened(l, ts)) && Opened(l, ts).seg == Some(Segment(ts, ts, []))
  {
    OpenedShape(l, ts);
    OpenedKeepsHistory(cfg, l, ts);
    OpenedKeepsFiles(l, ts);
    OpenedKeepsCalls(l, ts);
  }

  lemma BeginFailedKeeps(cfg: Config, l: Loop, ts: int, cancelled: bool, r: OpenResults)
    requires cfg.Valid() && LoopInv(cfg, l) && l.seg.None?
    requires cancelled || !r.createOk
    ensures LoopInv(cfg, Open(l, ts, cancelled, r)) && Open(l, ts, cancelled, r).seg.None?
  {
    hide CP.PhaseAfter, CP.Begins, EndedStarts, FramesOf, PublishedCount, LastPublished;
    var t := Open(l, ts, cancelled, r);
    BeginFailedKeepsCalls(l, t);
    assert AllStarts(t) == AllStarts(l);
  }

  lemma BeginFailedKeepsCalls(l: Loop, t: Loop)
    requires CallInv(l) && t.seg == l.seg == None && t.h.ended == l.h.ended
    requires t.h.calls == l.h.calls + [CP.BeginFailed]
    ensures CallInv(t)
  {
    hide CP.PhaseAfter, CP.Begins, EndedStarts;
    CP.PhaseOfOneMore(l.h.calls, CP.BeginFailed);
    forall s ensures CP.Begins(t.h.calls, s) == CP.Begins(l.h.calls, s) {
      BeginsOfOneMore(l.h.calls, CP.BeginFailed, s);
    }
  }

  // An encoder that does not start: as if the segment had been opened and thrown away.
  lemma StartFailedShape(l: Loop, ts: int, removeOk: bool)
    requires l.seg.None?
    ensures var t := Open(l, ts, false, OpenResults(true, false, removeOk));
            && EndsTo(Opened(l, ts), t, None)
            && t.files == AfterDiscard(Opened(l, ts).files, ts, removeOk)
            && t.h.calls == l.h.calls + [CP.Begin(ts)] + [CP.Start(ts, false), CP.Discard(ts)]
            && t.m == l.m.(encoderErrors := l.m.encoderErrors + 1)
            && t.h.failedOpen == l.h.failedOpen + 1 && t.h.failedWrite == l.h.failedWrite
  {
  }

  lemma StartFailedKeepsCalls(l: Loop, ts: int, removeOk: bool)
    requires CallInv(l) && OpensNext(l, ts)
    ensures CallInv(Open(l, ts, false, OpenResults(true, false, removeOk)))
  {
    StartFailedShape(l, ts, removeOk);
    hide Open, CP.PhaseAfter, CP.Begins;
    var t := Open(l, ts, false, OpenResults(true, false, removeOk));
    var begun := l.h.calls + [CP.Begin(ts)];
    CP.PhaseOfOneMore(l.h.calls, CP.Begin(ts));
    PhaseOfTwo(begun, CP.Start(ts, false), CP.Discard(ts));
    assert ts !in AllStarts(l);
    EndedOneMore(l.h.ended, Ended(ts, [], None));
    forall s ensures CP.Begins(t.h.calls, s) == CP.Begins(l.h.calls, s) + if s == ts then 1 else 0 {
      BeginsOfOneMore(l.h.calls, CP.Begin(ts), s);
      BeginsOfMore(begun, [CP.Start(ts, false), CP.Discard(ts)], s);
    }
  }

  lemma StartFailedKeeps(cfg: Config, l: Loop, ts: int, removeOk: bool)
    requires cfg.Valid() && LoopInv(cfg, l) && OpensNext(l, ts)
    ensures var t := Open(l, ts, false, OpenResults(true, false, removeOk));
            LoopInv(cfg, t) && t.seg.None?
  {
    var t := Open(l, ts, false, OpenResults(true, false, removeOk));
    var o := Opened(l, ts);
    StartFailedShape(l, ts, removeOk);
    OpenedShape(l, ts);
    OpenedKeepsHistory(cfg, l, ts);
    OpenedKeepsFiles(l, ts);
    EndKeepsHistory(cfg, o, t, None);
    ThrownAwayKeepsFiles(cfg, o, t, o.files, removeOk);
    EndedOneMore(l.h.ended, Ended(ts, [], None));
    StartFailedKeepsCalls(l, ts, removeOk);
  }

  lemma OpenKeeps(cfg: Config, l: Loop, ts: int, cancelled: bool, r: OpenResults)
    requires cfg.Valid() && LoopInv(cfg, l) && OpensNext(l, ts)
    ensures var t := Open(l, ts, cancelled, r);
            && LoopInv(cfg, t)
            && (t.seg.Some? ==> t == Opened(l, ts) && t.seg.value == Segment(ts, ts, []))
  {
    if cancelled || !r.createOk {
      BeginFailedKeeps(cfg, l, ts, cancelled, r);
    } else if !r.encoderOk {
      StartFailedKeeps(cfg, l, ts, r.removeOk);
    } else {
      OpenedKeeps(cfg, l, ts);
    }
  }

  // ---- One frame.

  // w is later than everything the loop has recorded or opened.
  ghost predicate Fresh(cfg: Config, l: Loop, w: Rec)
    requires cfg.Valid()
  {
    && IsNext(cfg, l, w)
    && (forall i :: 0 <= i < |l.h.ended| ==> Precedes(l.h.ended[i], w.ts))
    && (l.seg.Some? ==> l.seg.value.start < w.ts)
  }

  // The decimation lets a frame through only when it lies in a bucket beyond every
  // earlier one, hence after every earlier timestamp.
  lemma KeptIsNew(cfg: Config, offered: seq<int>, ts: int)
    requires cfg.Valid() && Decide(ts, NextAfter(offered, cfg.Interval()), cfg.Interval()).keep
    ensures forall o :: o in offered ==>
              o < ts && Bucket(offered[0], cfg.Interval(), o) < Bucket(offered[0], cfg.Interval(), ts)
  {
    var all := offered + [ts];
    assert all[..|offered|] == offered;
    KeptIffNewBucket(all, cfg.Interval(), |offered|);
    forall o | o in offered
      ensures o < ts && Bucket(offered[0], cfg.Interval(), o) < Bucket(offered[0], cfg.Interval(), ts)
    {
      var j :| 0 <= j < |offered| && offered[j] == o;
      assert Bucket(all[0], cfg.Interval(), all[j]) < Bucket(all[0], cfg.Interval(), ts);
      if ts <= o {
        BucketMonotone(offered[0], cfg.Interval(), ts, o);
      }
    }
  }

  // The loop once a timestamp has gone through the decimation.
  function Offered(cfg: Config, l: Loop, ts: int): Loop
    requires cfg.Valid()
  {
    l.(lastFrameAt := Some(ts),
       nextKeepAt := Decide(ts, l.nextKeepAt, cfg.Interval()).next,
       h := l.h.(offered := l.h.offered + [ts]))
  }

  lemma OfferKeeps(cfg: Config, l: Loop, ts: int)
    requires cfg.Valid() && LoopInv(cfg, l)
    ensures LoopInv(cfg, Offered(cfg, l, ts))
  {
    var t := Offered(cfg, l, ts);
    assert t.h.offered[..|l.h.offered|] == l.h.offered;
    if l.h.offered == [] {
      assert l.h.written == [];
    } else {
      assert Anchor(t.h) == Anchor(l.h);
    }
    assert AllStarts(t) == AllStarts(l);
  }

  lemma FramesAreWritten(ended: seq<Ended>, i: nat, k: nat)
    requires i < |ended| && k < |ended[i].frames|
    ensures ended[i].frames[k] in FramesOf(ended)
  {
    if i < |ended| - 1 {
      FramesAreWritten(ended[..|ended| - 1], i, k);
    }
  }

  lemma KeptIsFresh(cfg: Config, l: Loop, w: Rec)
    requires cfg.Valid() && LoopInv(cfg, l)
    requires Decide(w.ts, l.nextKeepAt, cfg.Interval()).keep
    ensures Fresh(cfg, Offered(cfg, l, w.ts), w)
  {
    KeptIsNew(cfg, l.h.offered, w.ts);
    var t := Offered(cfg, l, w.ts);
    assert t.h.offered[|l.h.offered|] == w.ts;
    forall i | 0 <= i < |l.h.ended| ensures Precedes(t.h.ended[i], w.ts) {
      forall k | 0 <= k < |l.h.ended[i].frames| ensures l.h.ended[i].frames[k].ts < w.ts {
        FramesAreWritten(l.h.ended, i, k);
        assert l.h.ended[i].frames[k] in l.h.written;
      }
    }
  }

  // After the rotation before a frame, the next segment can open at that frame.
  lemma RotatedIsFresh(cfg: Config, l: Loop, w: Rec, r: FinishResults)
    requires cfg.Valid() && LoopInv(cfg, l) && Settled(l) && Fresh(cfg, l, w) && l.seg.Some?
    ensures Fresh(cfg, Finish(cfg, l, r), w) && Finish(cfg, l, r).seg.None?
  {
    FinishShape(cfg, l, r);
    hide Finish, FileInv, CountInv, CallInv, FinishCalls;
    var t := Finish(cfg, l, r);
    var last := t.h.ended[|l.h.ended|];
    forall k | 0 <= k < |last.frames| ensures last.frames[k].ts < w.ts {
      assert last.frames[k] == l.h.written[|FramesOf(l.h.ended)| + k];
    }
    forall i | 0 <= i < |t.h.ended| ensures Precedes(t.h.ended[i], w.ts) {
      if i < |l.h.ended| {
        assert t.h.ended[i] == l.h.ended[i];
      }
    }
  }

  lemma OpenAndWriteKeeps(cfg: Config, l: Loop, w: Rec, cancelled: bool, r: FrameResults)
    requires cfg.Valid() && LoopInv(cfg, l) && Settled(l) && Fresh(cfg, l, w)
    requires l.seg.Some? ==> cfg.segmentRawDuration > 0 ==> w.ts - l.seg.value.start < cfg.segmentRawDuration
    ensures LoopInv(cfg, OpenAndWrite(cfg, l, w, cancelled, r)) && Settled(OpenAndWrite(cfg, l, w, cancelled, r))
  {
    if l.seg.None? {
      OpenKeeps(cfg, l, w.ts, cancelled, r.open);
      var t := Open(l, w.ts, cancelled, r.open);
      if t.seg.Some? {
        OpenedShape(l, w.ts);
        WriteKeeps(cfg, t, w, r);
      }
    } else {
      WriteKeeps(cfg, l, w, r);
    }
  }

  lemma RecordKeeps(cfg: Config, l: Loop, w: Rec, cancelled: bool, r: FrameResults)
    requires cfg.Valid() && LoopInv(cfg, l) && Settled(l) && Fresh(cfg, l, w)
    ensures LoopInv(cfg, Record(cfg, l, w, cancelled, r)) && Settled(Record(cfg, l, w, cancelled, r))
  {
    if l.seg.Some? && ShouldRotate(cfg, l.seg.value, w.ts, r.bytesBefore) {
      FinishKeeps(cfg, l, r.finishBefore);
      RotatedIsFresh(cfg, l, w, r.finishBefore);
      OpenAndWriteKeeps(cfg, Finish(cfg, l, r.finishBefore), w, cancelled, r);
    } else {
      OpenAndWriteKeeps(cfg, l, w, cancelled, r);
    }
  }

  lemma WriteKeeps(cfg: Config, l: Loop, w: Rec, r: FrameResults)
    requires cfg.Valid() && LoopInv(cfg, l) && l.seg.Some? && IsNext(cfg, l, w)
    requires l.seg.value.frames == [] ==> w.ts == l.seg.value.start
    requires l.seg.value.start <= w.ts
    requires cfg.segmentRawDuration > 0 ==> w.ts - l.seg.value.start < cfg.segmentRawDuration
    ensures LoopInv(cfg, WriteAndRotate(cfg, l, w, r)) && Settled(WriteAndRotate(cfg, l, w, r))
  {
    hide LoopInv;
    if r.writeOk {
      WriteOkKeeps(cfg, l, w, r.removeOk);
      var t := Write(l, w, true, r.removeOk);
      if ShouldRotate(cfg, t.seg.value, w.ts, r.bytesAfter) {
        FinishKeeps(cfg, t, r.finishAfter);
      }
    } else {
      WriteFailedKeeps(cfg, l, w, r.removeOk);
    }
  }

  lemma HandleKeeps(cfg: Config, l: Loop, item: Item, cancelled: bool, r: FrameResults)
    requires cfg.Valid() && LoopInv(cfg, l) && Settled(l)
    ensures LoopInv(cfg, HandleFrame(cfg, l, item, cancelled, r))
    ensures Settled(HandleFrame(cfg, l, item, cancelled, r))
  {
    var ts := Timestamp(item.frame, r.now);
    if LooksLikeJpeg(item.frame.payload) {
      OfferKeeps(cfg, l, ts);
      if Decide(ts, l.nextKeepAt, cfg.Interval()).keep {
        var w := Rec(item.id, ts);
        KeptIsFresh(cfg, l, w);
        RecordKeeps(cfg, Offered(cfg, l, ts), w, cancelled, r);
      }
    }
  }
}
