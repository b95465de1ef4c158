// What stays listed of everything a camera has ever published, when pruning works.
module Retention {
  import opened Wrappers
  import opened Sets
  import opened Bytes
  import opened Decimation
  import opened SegmentStore
  import opened RecorderSpec
  import opened RecorderInvariants
  import opened RecorderRuns

  function PublishedStarts(ended: seq<Ended>): set<int> {
    set i | 0 <= i < |ended| && ended[i].published.Some? :: ended[i].start
  }

  // The newest keep of them, or all when there is no limit.
  function NewestOf(starts: set<int>, keep: int): set<int> {
    if keep <= 0 then starts else starts - Surplus(starts, keep)
  }

  predicate Works(p: PruneResults) {
    p == PruneResults(true, {}, {}, {})
  }

  predicate PrunesWork(e: Event) {
    match e
    case Handle(r) => Works(r.finishBefore.prune) && Works(r.finishAfter.prune)
    case Tick(_, r) => Works(r.prune)
    case Exit(r) => Works(r.prune)
    case _ => true
  }

  predicate Retained(cfg: Config, l: Loop) {
    Listed(l.files) == NewestOf(PublishedStarts(l.h.ended), cfg.keepFiles)
  }

  predicate StartsAscend(ended: seq<Ended>) {
    forall i, j :: 0 <= i < j < |ended| ==> ended[i].start < ended[j].start
  }

  // What was thrown away before would be thrown away again.
  lemma NewestOfNewest(starts: set<int>, keep: int, t: int)
    requires forall s :: s in starts ==> s < t
    ensures NewestOf(NewestOf(starts, keep) + {t}, keep) == NewestOf(starts + {t}, keep)
  {
    if keep > 0 {
      var kept, all := NewestOf(starts, keep) + {t}, starts + {t};
      forall s ensures s in NewestOf(kept, keep) <==> s in NewestOf(all, keep) {
        SmallerSetHasFewer(NewerThan(starts, s), NewerThan(all, s));
        if s in kept {
          NewerAreKept(starts, keep, t, s);
        }
      }
    }
  }

  lemma NewerAreKept(starts: set<int>, keep: int, t: int, s: int)
    requires keep > 0 && forall u :: u in starts ==> u < t
    requires s == t || s in NewestOf(starts, keep)
    ensures NewerThan(NewestOf(starts, keep) + {t}, s) == NewerThan(starts + {t}, s)
  {
    forall u | u in starts && s < u ensures u !in Surplus(starts, keep) {
      assert NewerThan(starts, u) <= NewerThan(starts, s);
      SmallerSetHasFewer(NewerThan(starts, u), NewerThan(starts, s));
    }
  }

  lemma OneMorePublished(ended: seq<Ended>, e: Ended)
    ensures PublishedStarts(ended + [e]) == PublishedStarts(ended) + if e.published.Some? then {e.start} else {}
  {
    var all := ended + [e];
    forall s | s in PublishedStarts(ended) ensures s in PublishedStarts(all) {
      var i :| 0 <= i < |ended| && ended[i].published.Some? && ended[i].start == s;
      assert all[i] == ended[i];
    }
    assert all[|ended|] == e;
  }

  lemma FinishRetains(cfg: Config, l: Loop, r: FinishResults)
    requires l.seg.Some? && l.seg.value.frames != [] && Works(r.prune) && Retained(cfg, l)
    requires forall s :: s in PublishedStarts(l.h.ended) ==> s < l.seg.value.start
    ensures Retained(cfg, Finish(cfg, l, r))
  {
    FinishShape(cfg, l, r);
    FinishFiles(cfg, l, r);
    OneMorePublished(l.h.ended, Ended(l.seg.value.start, l.seg.value.frames, FinishInfo(l, r)));
    hide Finish, PublishedStarts, Surplus;
    var start, starts := l.seg.value.start, PublishedStarts(l.h.ended);
    var done := AfterComplete(l.files, start, l.seg.value.last, r.complete);
    assert forall s :: s in NewestOf(starts, cfg.keepFiles) ==> s in starts;
    if FinishPublishes(l, r) {
      hide NewestOf;
      assert Listed(done) == Listed(l.files) + {start};
      NewestOfNewest(starts, cfg.keepFiles, start);
      if cfg.keepFiles > 0 {
        PruneUnlistsSurplus(done, cfg.keepFiles, r.prune);
      }
    } else {
      assert start !in Listed(l.files);
      if r.encoderOk && r.writerOk {
        NothingListed(l.files, start, l.seg.value.last, r.complete);
      }
      DiscardKeepsListed(l.files, start, r.removeOk);
      DiscardKeepsListed(done, start, r.removeOk);
      assert starts + {} == starts;
    }
  }

  lemma NothingListed(f: Files, start: int, end: int, r: CompleteResults)
    requires start !in Listed(f) && !CompleteSucceeds(f, start, r)
    ensures Listed(AfterComplete(f, start, end, r)) == Listed(f)
  {
  }

  lemma DiscardKeepsListed(f: Files, start: int, removeOk: bool)
    ensures Listed(AfterDiscard(f, start, removeOk)) == Listed(f)
  {
  }

  lemma Extended(ended: seq<Ended>, e: Ended, later: seq<Ended>)
    requires ended + [e] <= later && StartsAscend(later)
    ensures forall s :: s in PublishedStarts(ended) ==> s < e.start
  {
    assert later[|ended|] == e;
    forall s | s in PublishedStarts(ended) ensures s < e.start {
      var i :| 0 <= i < |ended| && ended[i].published.Some? && ended[i].start == s;
      assert later[i] == ended[i];
    }
  }

  // A segment that ends on the way to a loop whose starts ascend.
  lemma FinishOnTheWay(cfg: Config, l: Loop, r: FinishResults, later: seq<Ended>)
    requires l.seg.Some? && l.seg.value.frames != [] && Works(r.prune) && Retained(cfg, l)
    requires Finish(cfg, l, r).h.ended <= later && StartsAscend(later)
    ensures Retained(cfg, Finish(cfg, l, r))
  {
    FinishShape(cfg, l, r);
    hide Retained, PublishedStarts, StartsAscend, Finish;
    Extended(l.h.ended, Ended(l.seg.value.start, l.seg.value.frames, FinishInfo(l, r)), later);
    FinishRetains(cfg, l, r);
  }

  lemma WriteRetains(cfg: Config, l: Loop, w: Rec, r: FrameResults)
    requires l.seg.Some? && Works(r.finishAfter.prune) && Retained(cfg, l)
    requires StartsAscend(WriteAndRotate(cfg, l, w, r).h.ended)
    ensures Retained(cfg, WriteAndRotate(cfg, l, w, r))
  {
    hide PublishedStarts, NewestOf, StartsAscend;
    var t := Write(l, w, r.writeOk, r.removeOk);
    if r.writeOk {
      if ShouldRotate(cfg, t.seg.value, w.ts, r.bytesAfter) {
        FinishOnTheWay(cfg, t, r.finishAfter, Finish(cfg, t, r.finishAfter).h.ended);
      }
    } else {
      WriteFailedShape(l, w, r.removeOk);
      DiscardKeepsListed(l.files, l.seg.value.start, r.removeOk);
      assert PublishedStarts(l.h.ended) + {} == PublishedStarts(l.h.ended);
      OneMorePublished(l.h.ended, Ended(l.seg.value.start, l.seg.value.frames, None));
    }
  }

  lemma OpenAndWriteRetain(cfg: Config, l: Loop, w: Rec, cancelled: bool, r: FrameResults)
    requires Works(r.finishAfter.prune) && Retained(cfg, l)
    requires StartsAscend(OpenAndWrite(cfg, l, w, cancelled, r).h.ended)
    ensures Retained(cfg, OpenAndWrite(cfg, l, w, cancelled, r))
  {
    hide PublishedStarts, NewestOf, StartsAscend, WriteAndRotate;
    if l.seg.None? {
      var t := Open(l, w.ts, cancelled, r.open);
      if cancelled || !r.open.createOk {
      } else if !r.open.encoderOk {
        StartFailedShape(l, w.ts, r.open.removeOk);
        OpenedShape(l, w.ts);
        DiscardKeepsListed(Opened(l, w.ts).files, w.ts, r.open.removeOk);
        assert PublishedStarts(l.h.ended) + {} == PublishedStarts(l.h.ended);
        OneMorePublished(l.h.ended, Ended(w.ts, [], None));
      } else {
        OpenedShape(l, w.ts);
        WriteRetains(cfg, t, w, r);
      }
    } else {
      WriteRetains(cfg, l, w, r);
    }
  }

  lemma HandleRetains(cfg: Config, l: Loop, item: Item, cancelled: bool, r: FrameResults)
    requires cfg.Valid() && Settled(l) && PrunesWork(Handle(r)) && Retained(cfg, l)
    requires StartsAscend(HandleFrame(cfg, l, item, cancelled, r).h.ended)
    ensures Retained(cfg, HandleFrame(cfg, l, item, cancelled, r))
  {
    hide PublishedStarts, NewestOf, StartsAscend, OpenAndWrite;
    var ts := Timestamp(item.frame, r.now);
    if LooksLikeJpeg(item.frame.payload) && Decide(ts, l.nextKeepAt, cfg.Interval()).keep {
      var o, w := Offered(cfg, l, ts), Rec(item.id, ts);
      if o.seg.Some? && ShouldRotate(cfg, o.seg.value, ts, r.bytesBefore) {
        var f := Finish(cfg, o, r.finishBefore);
        OpenAndWriteMoves(cfg, f, w, cancelled, r);
        FinishOnTheWay(cfg, o, r.finishBefore, OpenAndWrite(cfg, f, w, cancelled, r).h.ended);
        OpenAndWriteRetain(cfg, f, w, cancelled, r);
      } else {
        OpenAndWriteRetain(cfg, o, w, cancelled, r);
      }
    }
  }

  lemma StepRetains(cfg: Config, s: Sys, e: Event)
    requires cfg.Valid() && Settled(s.loop) && PrunesWork(e) && Retained(cfg, s.loop)
    requires StartsAscend(Step(cfg, s, e).loop.h.ended)
    ensures Retained(cfg, Step(cfg, s, e).loop)
  {
    hide PublishedStarts, NewestOf, StartsAscend, HandleFrame, Finish;
    if e.Handle? && s.hand.Some? {
      HandleRetains(cfg, s.loop, s.hand.value, s.cancelled, e.r);
    } else if (e.Tick? || e.Exit?) && s.loop.seg.Some? {
      var t := Finish(cfg, s.loop, e.finish);
      if Step(cfg, s, e).loop == t {
        FinishOnTheWay(cfg, s.loop, e.finish, t.h.ended);
      }
    }
  }

  lemma RunAscends(cfg: Config, events: seq<Event>)
    requires cfg.Valid()
    ensures StartsAscend(RunOf(cfg, events).loop.h.ended) && Settled(RunOf(cfg, events).loop)
  {
    RunKeepsInv(cfg, events);
  }

  lemma {:induction false} RunRetains(cfg: Config, events: seq<Event>)
    requires cfg.Valid()
    requires forall i :: 0 <= i < |events| ==> PrunesWork(events[i])
    ensures Retained(cfg, RunOf(cfg, events).loop)
  {
    if events != [] {
      hide Step, Retained, StartsAscend, PrunesWork;
      RunRetains(cfg, events[..|events| - 1]);
      RunAscends(cfg, events[..|events| - 1]);
      RunAscends(cfg, events);
      StepRetains(cfg, RunOf(cfg, events[..|events| - 1]), events[|events| - 1]);
    }
  }

  // Whatever else fails, after every run in which pruning works List shows exactly the
  // newest keepFiles of all segments published so far, and all of them when keepFiles is
  // not positive.
  lemma ListedAreNewestPublished(cfg: Config, events: seq<Event>, t: int)
    requires cfg.Valid()
    requires forall i :: 0 <= i < |events| ==> PrunesWork(events[i])
    ensures var l := RunOf(cfg, events).loop;
            var published := set i | 0 <= i < |l.h.ended| && l.h.ended[i].published.Some? :: l.h.ended[i].start;
            t in Listed(l.files) <==>
              t in published && (cfg.keepFiles > 0 ==> |set u | u in published && t < u| < cfg.keepFiles)
  {
    RunRetains(cfg, events);
    hide RunOf;
    var published := PublishedStarts(RunOf(cfg, events).loop.h.ended);
    assert NewerThan(published, t) == set u | u in published && t < u;
  }
}
