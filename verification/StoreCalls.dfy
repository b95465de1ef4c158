// The system calls the recorder of a camera makes in each event, those that succeed, in
// their order. They explain what every event does to the camera's files.
module StoreCalls {
  import opened Wrappers
  import opened Bytes
  import opened Decimation
  import opened SegmentStore
  import opened SharedStore
  import opened RecorderSpec
  import opened RecorderInvariants

  // ---- The store's operations.

  function CompleteCalls(f: Files, start: int, end: int, r: CompleteResults): seq<Op> {
    if !r.renameOk || start !in f.tmp then []
    else if !r.metadataOk then [Publish(start), Spoil(start)]
    else
      [Publish(start), Describe(start, end)]
      + (if r.unlinkOk then [Unlink] else [])
      + (if r.symlinkOk then [Symlink(start)] else [])
  }

  function DiscardCalls(start: int, removeOk: bool): seq<Op> {
    if removeOk then [RemoveTmp(start)] else []
  }

  function RemovalOf(t: int, r: PruneResults): seq<Op> {
    (if t in r.stuckVideo then [] else [RemoveVideo(t)]) + (if t in r.stuckMeta then [] else [RemoveMetadata(t)])
  }

  function Removals(starts: seq<int>, r: PruneResults): seq<Op> {
    if starts == [] then [] else RemovalOf(starts[0], r) + Removals(starts[1..], r)
  }

  // Oldest first.
  ghost function PruneCalls(f: Files, keep: int, r: PruneResults): seq<Op> {
    if keep <= 0 || !r.readDirOk then []
    else Removals(Reversed(NewestFirst(Surplus(Listed(f) - r.unreadable, keep))), r)
  }

  lemma OneCall(f: Files, a: Op)
    ensures ApplyAll(f, [a]) == Apply(f, a)
  {
    assert [a][1..] == [];
  }

  lemma TwoCalls(f: Files, a: Op, b: Op)
    ensures ApplyAll(f, [a]) == Apply(f, a) && ApplyAll(f, [a, b]) == Apply(Apply(f, a), b)
  {
    OneCall(f, a);
    OneCall(Apply(f, a), b);
    assert [a, b][1..] == [b];
  }

  lemma CompleteCallsDo(f: Files, start: int, end: int, r: CompleteResults)
    ensures ApplyAll(f, CompleteCalls(f, start, end, r)) == AfterComplete(f, start, end, r)
  {
    if r.renameOk && start in f.tmp {
      TwoCalls(f, Publish(start), Spoil(start));
      TwoCalls(f, Publish(start), Describe(start, end));
      var unlink, link := if r.unlinkOk then [Unlink] else [], if r.symlinkOk then [Symlink(start)] else [];
      var g := Apply(Apply(f, Publish(start)), Describe(start, end));
      ApplyAllConcat(f, [Publish(start), Describe(start, end)] + unlink, link);
      ApplyAllConcat(f, [Publish(start), Describe(start, end)], unlink);
      OneCall(g, Unlink);
      OneCall(g.(latest := None), Symlink(start));
      OneCall(g, Symlink(start));
    }
  }

  lemma DiscardCallsDo(f: Files, start: int, removeOk: bool)
    ensures ApplyAll(f, DiscardCalls(start, removeOk)) == AfterDiscard(f, start, removeOk)
  {
    OneCall(f, RemoveTmp(start));
  }

  lemma RemovalDoes(f: Files, t: int, r: PruneResults)
    ensures ApplyAll(f, RemovalOf(t, r)) == Without(f, {t}, r)
  {
    TwoCalls(f, RemoveVideo(t), RemoveMetadata(t));
    OneCall(f, RemoveMetadata(t));
    assert {t} - r.stuckVideo == if t in r.stuckVideo then {} else {t};
    assert {t} - r.stuckMeta == if t in r.stuckMeta then {} else {t};
  }

  lemma {:induction false} RemovalsDo(f: Files, starts: seq<int>, r: PruneResults)
    ensures ApplyAll(f, Removals(starts, r)) == Without(f, ToSet(starts), r)
    decreases |starts|
  {
    if starts == [] {
      assert f.meta - {} == f.meta;
    } else {
      var t, rest := starts[0], starts[1..];
      RemovalDoes(f, t, r);
      RemovalsDo(Without(f, {t}, r), rest, r);
      ApplyAllConcat(f, RemovalOf(t, r), Removals(rest, r));
      assert ToSet(starts) == {t} + ToSet(rest);
      WithoutTwice(f, {t}, ToSet(rest), r);
    }
  }

  lemma WithoutTwice(f: Files, a: set<int>, b: set<int>, r: PruneResults)
    ensures Without(Without(f, a, r), b, r) == Without(f, a + b, r)
  {
    assert f.video - (a - r.stuckVideo) - (b - r.stuckVideo) == f.video - (a + b - r.stuckVideo);
    assert f.meta - (a - r.stuckMeta) - (b - r.stuckMeta) == f.meta - (a + b - r.stuckMeta);
  }

  lemma PruneCallsDo(f: Files, keep: int, r: PruneResults)
    ensures ApplyAll(f, PruneCalls(f, keep, r)) == AfterPrune(f, keep, r)
  {
    if keep > 0 && r.readDirOk {
      var surplus := Surplus(Listed(f) - r.unreadable, keep);
      RemovalsDo(f, Reversed(NewestFirst(surplus)), r);
      ReversedElements(NewestFirst(surplus));
      assert ToSet(NewestFirst(surplus)) == surplus;
    }
  }

  // ---- The recorder's.

  ghost function FinishStoreCalls(cfg: Config, l: Loop, r: FinishResults): seq<Op>
    requires l.seg.Some?
  {
    var seg := l.seg.value;
    var done := AfterComplete(l.files, seg.start, seg.last, r.complete);
    if !r.encoderOk || !r.writerOk then DiscardCalls(seg.start, r.removeOk)
    else
      CompleteCalls(l.files, seg.start, seg.last, r.complete)
      + if FinishPublishes(l, r) then PruneCalls(done, cfg.keepFiles, r.prune) else DiscardCalls(seg.start, r.removeOk)
  }

  function OpenStoreCalls(ts: int, cancelled: bool, r: OpenResults): seq<Op> {
    if cancelled || !r.createOk then []
    else [Create(ts)] + if r.encoderOk then [] else DiscardCalls(ts, r.removeOk)
  }

  ghost function WriteAndRotateStoreCalls(cfg: Config, l: Loop, w: Rec, r: FrameResults): seq<Op>
    requires l.seg.Some?
  {
    var t := Write(l, w, r.writeOk, r.removeOk);
    (if r.writeOk then [] else DiscardCalls(l.seg.value.start, r.removeOk))
    + if t.seg.Some? && ShouldRotate(cfg, t.seg.value, w.ts, r.bytesAfter) then FinishStoreCalls(cfg, t, r.finishAfter) else []
  }

  ghost function OpenAndWriteStoreCalls(cfg: Config, l: Loop, w: Rec, cancelled: bool, r: FrameResults): seq<Op> {
    var t := if l.seg.None? then Open(l, w.ts, cancelled, r.open) else l;
    (if l.seg.None? then OpenStoreCalls(w.ts, cancelled, r.open) else [])
    + if t.seg.None? then [] else WriteAndRotateStoreCalls(cfg, t, w, r)
  }

  ghost function RecordStoreCalls(cfg: Config, l: Loop, w: Rec, cancelled: bool, r: FrameResults): seq<Op> {
    if l.seg.Some? && ShouldRotate(cfg, l.seg.value, w.ts, r.bytesBefore)
    then FinishStoreCalls(cfg, l, r.finishBefore)
         + OpenAndWriteStoreCalls(cfg, Finish(cfg, l, r.finishBefore), w, cancelled, r)
    else OpenAndWriteStoreCalls(cfg, l, w, cancelled, r)
  }

  ghost function HandleStoreCalls(cfg: Config, l: Loop, item: Item, cancelled: bool, r: FrameResults): seq<Op>
    requires cfg.Valid()
  {
    var ts := Timestamp(item.frame, r.now);
    if LooksLikeJpeg(item.frame.payload) && Decide(ts, l.nextKeepAt, cfg.Interval()).keep
    then RecordStoreCalls(cfg, Offered(cfg, l, ts), Rec(item.id, ts), cancelled, r)
    else []
  }

  // The calls of one event.
  ghost function CallsOf(cfg: Config, s: Sys, e: Event): seq<Op>
    requires cfg.Valid()
  {
    match e
    case Handle(r) => if s.hand.Some? then HandleStoreCalls(cfg, s.loop, s.hand.value, s.cancelled, r) else []
    case Tick(now, r) =>
      if s.stopped || s.hand.Some? || !TickCloses(cfg, s.loop, now) then [] else FinishStoreCalls(cfg, s.loop, r)
    case Exit(r) =>
      if s.stopped || s.hand.Some? || !s.cancelled || s.loop.seg.None? then [] else FinishStoreCalls(cfg, s.loop, r)
    case _ => []
  }

  lemma FinishCallsDo(cfg: Config, l: Loop, r: FinishResults)
    requires l.seg.Some?
    ensures ApplyAll(l.files, FinishStoreCalls(cfg, l, r)) == Finish(cfg, l, r).files
  {
    hide ApplyAll, AfterPrune, AfterDiscard, PruneCalls, CompleteCalls, DiscardCalls, AfterComplete;
    FinishFiles(cfg, l, r);
    var seg := l.seg.value;
    var done := AfterComplete(l.files, seg.start, seg.last, r.complete);
    DiscardCallsDo(l.files, seg.start, r.removeOk);
    DiscardCallsDo(done, seg.start, r.removeOk);
    CompleteCallsDo(l.files, seg.start, seg.last, r.complete);
    PruneCallsDo(done, cfg.keepFiles, r.prune);
    var complete := CompleteCalls(l.files, seg.start, seg.last, r.complete);
    ApplyAllConcat(l.files, complete, PruneCalls(done, cfg.keepFiles, r.prune));
    ApplyAllConcat(l.files, complete, DiscardCalls(seg.start, r.removeOk));
  }

  lemma OpenCallsDo(l: Loop, ts: int, cancelled: bool, r: OpenResults)
    requires l.seg.None?
    ensures ApplyAll(l.files, OpenStoreCalls(ts, cancelled, r)) == Open(l, ts, cancelled, r).files
  {
    if !cancelled && r.createOk {
      var f := l.files.(tmp := l.files.tmp + {ts});
      OneCall(l.files, Create(ts));
      ApplyAllConcat(l.files, [Create(ts)], DiscardCalls(ts, r.removeOk));
      DiscardCallsDo(f, ts, r.removeOk);
      assert [Create(ts)] + [] == [Create(ts)];
    }
  }

  lemma WriteCallsDo(cfg: Config, l: Loop, w: Rec, r: FrameResults)
    requires l.seg.Some?
    ensures ApplyAll(l.files, WriteAndRotateStoreCalls(cfg, l, w, r)) == WriteAndRotate(cfg, l, w, r).files
  {
    var t := Write(l, w, r.writeOk, r.removeOk);
    hide ApplyAll, FinishStoreCalls, Finish;
    var first := if r.writeOk then [] else DiscardCalls(l.seg.value.start, r.removeOk);
    DiscardCallsDo(l.files, l.seg.value.start, r.removeOk);
    NoCalls(l.files);
    assert ApplyAll(l.files, first) == t.files;
    if t.seg.Some? && ShouldRotate(cfg, t.seg.value, w.ts, r.bytesAfter) {
      FinishCallsDo(cfg, t, r.finishAfter);
      ApplyAllConcat(l.files, first, FinishStoreCalls(cfg, t, r.finishAfter));
    } else {
      assert first + [] == first;
    }
  }

  lemma NoCalls(f: Files)
    ensures ApplyAll(f, []) == f
  {
  }

  lemma OpenAndWriteCallsDo(cfg: Config, l: Loop, w: Rec, cancelled: bool, r: FrameResults)
    ensures ApplyAll(l.files, OpenAndWriteStoreCalls(cfg, l, w, cancelled, r)) == OpenAndWrite(cfg, l, w, cancelled, r).files
  {
    hide ApplyAll, Open, WriteAndRotateStoreCalls, OpenStoreCalls, WriteAndRotate;
    var t := if l.seg.None? then Open(l, w.ts, cancelled, r.open) else l;
    var first := if l.seg.None? then OpenStoreCalls(w.ts, cancelled, r.open) else [];
    NoCalls(l.files);
    if l.seg.None? {
      OpenCallsDo(l, w.ts, cancelled, r.open);
    }
    if t.seg.Some? {
      WriteCallsDo(cfg, t, w, r);
      ApplyAllConcat(l.files, first, WriteAndRotateStoreCalls(cfg, t, w, r));
    } else {
      assert first + [] == first;
    }
  }

  lemma RecordCallsDo(cfg: Config, l: Loop, w: Rec, cancelled: bool, r: FrameResults)
    ensures ApplyAll(l.files, RecordStoreCalls(cfg, l, w, cancelled, r)) == Record(cfg, l, w, cancelled, r).files
  {
    hide ApplyAll, Finish, FinishStoreCalls, OpenAndWrite, OpenAndWriteStoreCalls;
    if l.seg.Some? && ShouldRotate(cfg, l.seg.value, w.ts, r.bytesBefore) {
      var t := Finish(cfg, l, r.finishBefore);
      FinishCallsDo(cfg, l, r.finishBefore);
      OpenAndWriteCallsDo(cfg, t, w, cancelled, r);
      ApplyAllConcat(l.files, FinishStoreCalls(cfg, l, r.finishBefore), OpenAndWriteStoreCalls(cfg, t, w, cancelled, r));
    } else {
      OpenAndWriteCallsDo(cfg, l, w, cancelled, r);
    }
  }

  // Each event does to the files what its calls do.
  lemma CallsExplainStep(cfg: Config, s: Sys, e: Event)
    requires cfg.Valid()
    ensures ApplyAll(s.loop.files, CallsOf(cfg, s, e)) == Step(cfg, s, e).loop.files
  {
    hide ApplyAll, Finish, FinishStoreCalls, Record, RecordStoreCalls;
    NoCalls(s.loop.files);
    match e {
      case Handle(r) =>
        if s.hand.Some? {
          var item := s.hand.value;
          var ts := Timestamp(item.frame, r.now);
          RecordCallsDo(cfg, Offered(cfg, s.loop, ts), Rec(item.id, ts), s.cancelled, r);
        }
      case Tick(now, r) =>
        if s.loop.seg.Some? {
          FinishCallsDo(cfg, s.loop, r);
        }
      case Exit(r) =>
        if s.loop.seg.Some? {
          FinishCallsDo(cfg, s.loop, r);
        }
      case _ =>
    }
  }
}
