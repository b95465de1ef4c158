// The recordings of one camera on disk, and the store operations on them.
//
// A recording is identified by its start time: the file names are an injective
// function of it (module Names). The result of every system call is a
// parameter of the operation that makes it.
module SegmentStore {
  import opened Wrappers
  import opened Sets
  import opened Sorting

  datatype SegmentInfo = SegmentInfo(startedAt: int, endedAt: int)

  // The temporary files, the finished .mp4 files, the readable .mp4.json files with
  // the EndedAt they hold, and the target of the latest.mp4 link.
  datatype Files = Files(tmp: set<int>, video: set<int>, meta: map<int, int>, latest: Option<int>)

  const EMPTY: Files := Files({}, {}, map[], None)

  // A recording is listed when its file and its metadata are both there.
  function Listed(f: Files): set<int> {
    set t | t in f.video && t in f.meta
  }

  // A finished file that List does not show.
  predicate IsOrphan(f: Files, t: int) {
    t in f.video && t !in Listed(f)
  }

  datatype CompleteResults = CompleteResults(renameOk: bool, metadataOk: bool, unlinkOk: bool, symlinkOk: bool)

  // What Prune meets: whether the directory can be read, the metadata files that cannot
  // be, and the files whose removal fails.
  datatype PruneResults = PruneResults(readDirOk: bool, unreadable: set<int>, stuckVideo: set<int>, stuckMeta: set<int>)

  // ---- What the operations do to the files.

  function AfterComplete(f: Files, start: int, end: int, r: CompleteResults): Files {
    if !r.renameOk || start !in f.tmp then f
    else
      var renamed := f.(tmp := f.tmp - {start}, video := f.video + {start});
      if !r.metadataOk then renamed.(meta := f.meta - {start})
      else
        var unlinked := if r.unlinkOk then None else f.latest;
        renamed.(meta := f.meta[start := end],
                 latest := if unlinked.None? && r.symlinkOk then Some(start) else unlinked)
  }

  predicate CompleteSucceeds(f: Files, start: int, r: CompleteResults) {
    r.renameOk && start in f.tmp && r.metadataOk
  }

  function AfterDiscard(f: Files, start: int, removeOk: bool): Files {
    if removeOk then f.(tmp := f.tmp - {start}) else f
  }

  function NewerThan(starts: set<int>, t: int): set<int> {
    set u | u in starts && t < u
  }

  // The recordings that have at least keep newer ones.
  function Surplus(starts: set<int>, keep: int): set<int> {
    set t | t in starts && keep <= |NewerThan(starts, t)|
  }

  function AfterPrune(f: Files, keep: int, r: PruneResults): Files {
    if keep <= 0 || !r.readDirOk then f
    else
      Without(f, Surplus(Listed(f) - r.unreadable, keep), r)
  }

  function Without(f: Files, starts: set<int>, r: PruneResults): Files {
    f.(video := f.video - (starts - r.stuckVideo), meta := f.meta - (starts - r.stuckMeta))
  }

  // ---- Orderings of a set of start times.

  ghost predicate StrictlyDescending(s: seq<int>) {
    forall i, j :: 0 <= i < j < |s| ==> s[i] > s[j]
  }

  lemma GreatestExists(s: set<int>)
    requires s != {}
    ensures exists m :: m in s && forall x :: x in s ==> x <= m
  {
    var x := SomeElement(s);
    if s != {x} {
      var rest := s - {x};
      GreatestExists(rest);
      var m :| m in rest && forall y :: y in rest ==> y <= m;
      var top := if x < m then m else x;
      assert top in s;
      forall y | y in s ensures y <= top {
        assert y == x || y in rest;
      }
    }
  }

  // The set as a sequence, newest first.
  ghost function NewestFirst(s: set<int>): (r: seq<int>)
    ensures StrictlyDescending(r)
    ensures forall x :: x in r <==> x in s
    ensures |r| == |s|
    decreases |s|
  {
    if s == {} then []
    else
      GreatestExists(s);
      var m :| m in s && forall x :: x in s ==> x <= m;
      [m] + NewestFirst(s - {m})
  }

  function ToSet(s: seq<int>): set<int> {
    set x | x in s
  }

  lemma EmptyToSet(s: seq<int>)
    ensures ToSet(s) == {} <==> s == []
  {
    assert s != [] ==> s[0] in ToSet(s);
  }

  lemma {:induction false} OnlyOneDescendingOrder(a: seq<int>, b: seq<int>)
    requires StrictlyDescending(a) && StrictlyDescending(b)
    requires ToSet(a) == ToSet(b)
    ensures a == b
  {
    EmptyToSet(a);
    EmptyToSet(b);
    if a != [] && b != [] {
      assert a[0] in ToSet(b) && b[0] in ToSet(a);
      RestOfDescending(a);
      RestOfDescending(b);
      OnlyOneDescendingOrder(a[1..], b[1..]);
      assert a == [a[0]] + a[1..] && b == [b[0]] + b[1..];
    }
  }

  lemma RestOfDescending(s: seq<int>)
    requires StrictlyDescending(s) && s != []
    ensures StrictlyDescending(s[1..]) && s[0] !in s[1..]
    ensures ToSet(s[1..]) == ToSet(s) - {s[0]}
  {
    forall x ensures x in s[1..] <==> x in s && x != s[0] {
      if x in s && x != s[0] {
        var i :| 0 <= i < |s| && s[i] == x;
        assert s[1..][i - 1] == x;
      }
    }
  }

  lemma {:induction false} DistinctElements(s: seq<int>)
    requires StrictlyDescending(s)
    ensures |ToSet(s)| == |s|
  {
    if s != [] {
      RestOfDescending(s);
      DistinctElements(s[1..]);
      assert s[0] in ToSet(s);
    }
  }

  // In the newest-first order a position is the number of newer elements.
  lemma NewerThanIsPrefix(s: set<int>, i: nat)
    requires i < |NewestFirst(s)|
    ensures NewerThan(s, NewestFirst(s)[i]) == ToSet(NewestFirst(s)[..i])
  {
    hide NewestFirst;
    var r := NewestFirst(s);
    forall x | x in s && r[i] < x ensures x in r[..i] {
      var j :| 0 <= j < |r| && r[j] == x;
      assert r[..i][j] == x;
    }
    forall x | x in r[..i] ensures x in s && r[i] < x {
      var j :| 0 <= j < i && r[j] == x;
    }
  }

  lemma NewerThanAt(s: set<int>, i: nat)
    requires i < |NewestFirst(s)|
    ensures |NewerThan(s, NewestFirst(s)[i])| == i
  {
    NewerThanIsPrefix(s, i);
    DistinctElements(NewestFirst(s)[..i]);
  }

  lemma SurplusAt(s: set<int>, keep: nat, i: nat)
    requires i < |NewestFirst(s)|
    ensures NewestFirst(s)[i] in Surplus(s, keep) <==> keep <= i
  {
    NewerThanAt(s, i);
  }

  function KeptOf(n: nat, keep: nat): (k: nat)
    ensures k <= n
  {
    if n <= keep then n else keep
  }

  // A set that holds exactly the elements of r from position n on.
  lemma TailAsSet(r: seq<int>, n: nat, tail: set<int>)
    requires n <= |r| && tail <= ToSet(r)
    requires forall i :: 0 <= i < |r| ==> (r[i] in tail <==> n <= i)
    ensures tail == ToSet(r[n..])
    ensures ToSet(r) - tail == ToSet(r[..n])
  {
    forall x | x in r
      ensures x in tail <==> x in r[n..]
      ensures x !in tail <==> x in r[..n]
    {
      var i :| 0 <= i < |r| && r[i] == x;
      if i < n {
        assert r[..n][i] == x;
      } else {
        assert r[n..][i - n] == x;
      }
    }
  }

  // Everything but the keep newest is surplus.
  lemma SurplusIsTheOldest(s: set<int>, keep: nat)
    ensures Surplus(s, keep) == ToSet(NewestFirst(s)[KeptOf(|s|, keep)..])
    ensures s - Surplus(s, keep) == ToSet(NewestFirst(s)[..KeptOf(|s|, keep)])
    ensures |s - Surplus(s, keep)| == KeptOf(|s|, keep)
  {
    var r := NewestFirst(s);
    forall i | 0 <= i < |r| ensures r[i] in Surplus(s, keep) <==> KeptOf(|s|, keep) <= i {
      SurplusAt(s, keep, i);
    }
    assert s == ToSet(r);
    TailAsSet(r, KeptOf(|s|, keep), Surplus(s, keep));
    DistinctElements(r[..KeptOf(|s|, keep)]);
  }

  // ---- Prune, whatever fails.

  // A recording with fewer than keep newer ones stays listed, even when some metadata
  // could not be read and some removals failed.
  lemma PruneKeepsNewest(f: Files, keep: int, r: PruneResults, t: int)
    requires t in Listed(f)
    requires |NewerThan(Listed(f), t)| < keep || keep <= 0
    ensures t in Listed(AfterPrune(f, keep, r))
  {
    var seen := Listed(f) - r.unreadable;
    SmallerSetHasFewer(NewerThan(seen, t), NewerThan(Listed(f), t));
  }

  lemma PruneUnlistsSurplus(f: Files, keep: int, r: PruneResults)
    requires keep > 0 && r == PruneResults(true, {}, {}, {})
    ensures Listed(AfterPrune(f, keep, r)) == Listed(f) - Surplus(Listed(f), keep)
    ensures var gone := Surplus(Listed(f), keep);
            AfterPrune(f, keep, r) == f.(video := f.video - gone, meta := f.meta - gone)
  {
    hide Surplus;
    assert Listed(f) - r.unreadable == Listed(f);
    assert Surplus(Listed(f), keep) - {} == Surplus(Listed(f), keep);
  }

  // When everything works, exactly the min(n, keep) newest stay listed, the files of the
  // others are gone, and nothing else has changed.
  lemma PruneLeavesNewest(f: Files, keep: int, r: PruneResults)
    requires keep > 0 && r == PruneResults(true, {}, {}, {})
    ensures var n := KeptOf(|Listed(f)|, keep);
            && Listed(AfterPrune(f, keep, r)) == ToSet(NewestFirst(Listed(f))[..n])
            && |Listed(AfterPrune(f, keep, r))| == n
            && var gone := ToSet(NewestFirst(Listed(f))[n..]);
               AfterPrune(f, keep, r) == f.(video := f.video - gone, meta := f.meta - gone)
  {
    PruneUnlistsSurplus(f, keep, r);
    SurplusIsTheOldest(Listed(f), keep);
    hide *;
  }

  // ---- List.

  datatype Filter = Filter(from: Option<int>, to: Option<int>, limit: int)

  predicate InWindow(t: int, filter: Filter) {
    (filter.from.Some? ==> filter.from.value <= t) && (filter.to.Some? ==> t <= filter.to.value)
  }

  // The recordings List considers.
  function Candidates(f: Files, filter: Filter, unreadable: set<int>): set<int> {
    set t | t in Listed(f) - unreadable && InWindow(t, filter)
  }

  // The answer as start times.
  ghost function Answer(f: Files, filter: Filter, unreadable: set<int>): seq<int> {
    var all := NewestFirst(Candidates(f, filter, unreadable));
    if 0 < filter.limit < |all| then all[..filter.limit] else all
  }

  lemma UnfilteredAnswer(f: Files, unreadable: set<int>)
    ensures Answer(f, Filter(None, None, 0), unreadable) == NewestFirst(Listed(f) - unreadable)
  {
    assert Candidates(f, Filter(None, None, 0), unreadable) == Listed(f) - unreadable;
  }

  // The unlimited answer holds the listed recordings that start in the window, its ends
  // included. A positive limit cuts it down to that many, and these are the newest.
  lemma LimitTakesPrefix(f: Files, filter: Filter, unreadable: set<int>)
    ensures var limited := Answer(f, filter, unreadable);
            var all := Answer(f, filter.(limit := 0), unreadable);
            && limited <= all
            && |limited| == (if 0 < filter.limit < |all| then filter.limit else |all|)
            && (forall t, u :: t in limited && u in all && u !in limited ==> u < t)
            && (forall t :: t in all <==>
                  && t in f.video && t in f.meta && t !in unreadable
                  && (filter.from.Some? ==> t >= filter.from.value)
                  && (filter.to.Some? ==> t <= filter.to.value))
  {
    var all := Answer(f, filter.(limit := 0), unreadable);
    var limited := Answer(f, filter, unreadable);
    assert Candidates(f, filter, unreadable) == Candidates(f, filter.(limit := 0), unreadable);
    forall t, u | t in limited && u in all && u !in limited ensures u < t {
      var i :| 0 <= i < |limited| && limited[i] == t;
      var j :| 0 <= j < |all| && all[j] == u;
      assert all[i] == t;
      assert j >= |limited|;
    }
  }

  function Starts(infos: seq<SegmentInfo>): seq<int> {
    seq(|infos|, i requires 0 <= i < |infos| => infos[i].startedAt)
  }

  lemma StartsOfPrefix(infos: seq<SegmentInfo>, n: nat)
    requires n <= |infos|
    ensures Starts(infos[..n]) == Starts(infos)[..n]
  {
  }

  ghost predicate AreInfosOf(infos: seq<SegmentInfo>, f: Files) {
    forall i :: 0 <= i < |infos| ==>
      infos[i].startedAt in f.meta && infos[i].endedAt == f.meta[infos[i].startedAt]
  }

  predicate StartsAfter(a: SegmentInfo, b: SegmentInfo) {
    a.startedAt > b.startedAt
  }

  predicate StartsBefore(a: SegmentInfo, b: SegmentInfo) {
    a.startedAt < b.startedAt
  }

  // ---- A slice of distinct recordings, before and after it is sorted.

  ghost predicate Distinct(infos: seq<SegmentInfo>) {
    forall i, j :: 0 <= i < j < |infos| ==> infos[i].startedAt != infos[j].startedAt
  }

  lemma {:induction false} OnceInDistinct(infos: seq<SegmentInfo>, x: SegmentInfo)
    requires Distinct(infos)
    ensures multiset(infos)[x] <= 1
  {
    if infos != [] {
      OnceInDistinct(infos[1..], x);
      assert infos == [infos[0]] + infos[1..];
    }
  }

  lemma SortedStaysDistinct(a: seq<SegmentInfo>, b: seq<SegmentInfo>)
    requires Distinct(a) && multiset(a) == multiset(b)
    ensures Distinct(b) && |a| == |b|
    ensures ToSet(Starts(a)) == ToSet(Starts(b))
    ensures forall x :: x in b ==> x in a
  {
    assert |a| == |multiset(a)| == |multiset(b)| == |b|;
    forall x ensures x in a <==> x in b {
      assert x in a <==> x in multiset(a);
      assert x in b <==> x in multiset(b);
    }
    forall i, j | 0 <= i < j < |b| ensures b[i].startedAt != b[j].startedAt {
      OnceInDistinct(a, b[i]);
      TwiceInSequence(b, i, j);
      assert b[i] in a && b[j] in a;
    }
    StartsOfSubset(a, b);
    StartsOfSubset(b, a);
  }

  lemma TwiceInSequence(s: seq<SegmentInfo>, i: nat, j: nat)
    requires i < j < |s|
    ensures s[i] == s[j] ==> multiset(s)[s[i]] >= 2
  {
    assert s == s[..j] + [s[j]] + s[j + 1..];
    assert s[..j][i] == s[i];
    assert s[i] in s[..j];
  }

  lemma StartsOfSubset(a: seq<SegmentInfo>, b: seq<SegmentInfo>)
    requires forall x :: x in a ==> x in b
    ensures ToSet(Starts(a)) <= ToSet(Starts(b))
  {
    forall t | t in Starts(a) ensures t in Starts(b) {
      var i :| 0 <= i < |a| && Starts(a)[i] == t;
      assert a[i] in b;
      var j :| 0 <= j < |b| && b[j] == a[i];
      assert Starts(b)[j] == t;
    }
  }

  // The slice List has built once it has looked at all entries but the given ones.
  ghost predicate Collected(infos: seq<SegmentInfo>, f: Files, candidates: set<int>, entries: set<int>) {
    && Distinct(infos)
    && AreInfosOf(infos, f)
    && ToSet(Starts(infos)) == candidates - entries
  }

  lemma InfosOfPrefix(infos: seq<SegmentInfo>, n: nat, f: Files)
    requires n <= |infos| && AreInfosOf(infos, f)
    ensures AreInfosOf(infos[..n], f)
  {
  }

  lemma NothingCollected(f: Files, candidates: set<int>, entries: set<int>)
    requires candidates <= entries
    ensures Collected([], f, candidates, entries)
  {
    assert ToSet(Starts([])) == candidates - entries;
  }

  lemma CollectOne(infos: seq<SegmentInfo>, f: Files, candidates: set<int>, entries: set<int>, t: int)
    requires Collected(infos, f, candidates, entries) && t in entries
    requires t in candidates ==> t in f.meta
    ensures t in candidates ==> Collected(infos + [SegmentInfo(t, f.meta[t])], f, candidates, entries - {t})
    ensures t !in candidates ==> Collected(infos, f, candidates, entries - {t})
  {
    if t in candidates {
      var starts := Starts(infos);
      var info := SegmentInfo(t, f.meta[t]);
      assert forall i :: 0 <= i < |infos| ==> infos[i].startedAt == starts[i] && starts[i] in ToSet(starts);
      assert Starts(infos + [info]) == starts + [t];
      assert ToSet(starts + [t]) == ToSet(starts) + {t};
      assert candidates - (entries - {t}) == (candidates - entries) + {t};
    } else {
      assert candidates - (entries - {t}) == candidates - entries;
    }
  }

  lemma SortedNewestFirst(unsorted: seq<SegmentInfo>, infos: seq<SegmentInfo>, f: Files, candidates: set<int>)
    requires Collected(unsorted, f, candidates, {})
    requires multiset(infos) == multiset(unsorted) && Sorted(infos, StartsAfter)
    ensures Starts(infos) == NewestFirst(candidates)
    ensures AreInfosOf(infos, f)
  {
    SortedStaysDistinct(unsorted, infos);
    forall i | 0 <= i < |infos| ensures infos[i].startedAt in f.meta && infos[i].endedAt == f.meta[infos[i].startedAt] {
      assert infos[i] in unsorted;
    }
    forall i, j | 0 <= i < j < |infos| ensures Starts(infos)[i] > Starts(infos)[j] {
      assert !StartsAfter(infos[j], infos[i]);
    }
    assert candidates - {} == candidates;
    assert ToSet(NewestFirst(candidates)) == candidates;
    OnlyOneDescendingOrder(Starts(infos), NewestFirst(candidates));
  }

  // What Prune removes is the front of the slice it has sorted oldest first.
  lemma SurplusIsTheFront(newestFirst: seq<SegmentInfo>, oldestFirst: seq<SegmentInfo>, seen: set<int>, keep: nat)
    requires Starts(newestFirst) == NewestFirst(seen)
    requires multiset(oldestFirst) == multiset(newestFirst) && Sorted(oldestFirst, StartsBefore)
    ensures |oldestFirst| == |seen|
    ensures Surplus(seen, keep) == ToSet(Starts(oldestFirst)[..|seen| - KeptOf(|seen|, keep)])
  {
    SortedTheOtherWay(newestFirst, oldestFirst);
    SurplusIsTheOldest(seen, keep);
    ReversedPrefix(NewestFirst(seen), KeptOf(|seen|, keep));
    ReversedElements(NewestFirst(seen)[KeptOf(|seen|, keep)..]);
  }

  lemma ReversedPrefix(s: seq<int>, n: nat)
    requires n <= |s|
    ensures Reversed(s)[..|s| - n] == Reversed(s[n..])
  {
  }

  lemma PruneNothing(f: Files, keep: nat, r: PruneResults)
    requires |Listed(f) - r.unreadable| <= keep
    ensures AfterPrune(f, keep, r) == f
  {
    var seen := Listed(f) - r.unreadable;
    forall t | t in seen ensures t !in Surplus(seen, keep) {
      SmallerSetHasFewer(NewerThan(seen, t) + {t}, seen);
    }
    assert Surplus(seen, keep) == {};
  }

  // With the recordings sorted oldest first, pruning removes all but the last keep.
  lemma PruneTakesTheFront(f: Files, keep: nat, r: PruneResults, newestFirst: seq<SegmentInfo>, oldestFirst: seq<SegmentInfo>)
    requires keep > 0 && r.readDirOk
    requires Starts(newestFirst) == Answer(f, Filter(None, None, 0), r.unreadable)
    requires multiset(oldestFirst) == multiset(newestFirst) && Sorted(oldestFirst, StartsBefore)
    ensures |oldestFirst| <= keep ==> AfterPrune(f, keep, r) == f
    ensures |oldestFirst| > keep ==>
              AfterPrune(f, keep, r) == Without(f, ToSet(Starts(oldestFirst[..|oldestFirst| - keep])), r)
  {
    hide Answer, Listed, NewestFirst, ToSet, Surplus, Starts, Without;
    var seen := Listed(f) - r.unreadable;
    UnfilteredAnswer(f, r.unreadable);
    SurplusIsTheFront(newestFirst, oldestFirst, seen, keep);
    if |oldestFirst| <= keep {
      PruneNothing(f, keep, r);
    } else {
      StartsOfPrefix(oldestFirst, |oldestFirst| - keep);
    }
  }

  // ---- The store as an object.

  class Local {
    var tmp: set<int>
    var video: set<int>
    var meta: map<int, int>
    var latest: Option<int>

    ghost function View(): Files
      reads this
    {
      Files(tmp, video, meta, latest)
    }

    constructor ()
      ensures View() == EMPTY
    {
      tmp, video, meta, latest := {}, {}, map[], None;
    }

    // created is false when the context is cancelled or a directory or the file cannot be made.
    method BeginSegment(start: int, created: bool) returns (ok: bool)
      modifies this
      ensures ok == created
      ensures View() == if created then old(View()).(tmp := old(tmp) + {start}) else old(View())
    {
      ok := created;
      if ok {
        tmp := tmp + {start};
      }
    }

    method CompleteSegment(start: int, end: int, r: CompleteResults) returns (ok: bool)
      modifies this
      ensures ok == CompleteSucceeds(old(View()), start, r)
      ensures View() == AfterComplete(old(View()), start, end, r)
    {
      if !r.renameOk || start !in tmp {
        return false;
      }
      tmp, video := tmp - {start}, video + {start};
      if !r.metadataOk {
        meta := meta - {start};
        return false;
      }
      meta := meta[start := end];
      if r.unlinkOk {
        latest := None;
      }
      if latest.None? && r.symlinkOk {
        latest := Some(start);
      }
      return true;
    }

    method DiscardSegment(start: int, removeOk: bool)
      modifies this
      ensures View() == AfterDiscard(old(View()), start, removeOk)
    {
      if removeOk {
        tmp := tmp - {start};
      }
    }

    // The directory entries come in an arbitrary order.
    method List(filter: Filter, unreadable: set<int>) returns (out: seq<SegmentInfo>)
      ensures Starts(out) == Answer(View(), filter, unreadable)
      ensures AreInfosOf(out, View())
    {
      hide Collected, NewestFirst, AreInfosOf;
      out := [];
      ghost var candidates := Candidates(View(), filter, unreadable);
      var entries := video;
      NothingCollected(View(), candidates, entries);
      while entries != {}
        invariant entries <= video
        invariant Collected(out, View(), candidates, entries)
        decreases |entries|
      {
        ghost var _ := SomeElement(entries);
        var t :| t in entries;
        CollectOne(out, View(), candidates, entries, t);
        if t in meta && t !in unreadable && InWindow(t, filter) {
          out := out + [SegmentInfo(t, meta[t])];
        }
        entries := entries - {t};
      }
      var unsorted := out;
      out := SortSlice(unsorted, StartsAfter);
      SortedNewestFirst(unsorted, out, View(), candidates);
      if filter.limit > 0 && |out| > filter.limit {
        StartsOfPrefix(out, filter.limit);
        InfosOfPrefix(out, filter.limit, View());
        out := out[..filter.limit];
      }
    }

    // The removing loop of Prune.
    method RemoveSegments(files: seq<SegmentInfo>, r: PruneResults)
      modifies this
      ensures View() == Without(old(View()), ToSet(Starts(files)), r)
    {
      var i := 0;
      while i < |files|
        invariant 0 <= i <= |files|
        invariant View() == Without(old(View()), ToSet(Starts(files)[..i]), r)
      {
        var t := files[i].startedAt;
        assert ToSet(Starts(files)[..i + 1]) == ToSet(Starts(files)[..i]) + {t} by {
          assert Starts(files)[..i + 1] == Starts(files)[..i] + [t];
        }
        if t !in r.stuckVideo {
          video := video - {t};
        }
        if t !in r.stuckMeta {
          meta := meta - {t};
        }
        i := i + 1;
      }
      assert Starts(files)[..|files|] == Starts(files);
    }

    method Prune(keep: int, r: PruneResults)
      modifies this
      ensures View() == AfterPrune(old(View()), keep, r)
    {
      if keep <= 0 || !r.readDirOk {
        return;
      }
      var newestFirst := List(Filter(None, None, 0), r.unreadable);
      hide *;
      var files := SortSlice(newestFirst, StartsBefore);
      PruneTakesTheFront(View(), keep, r, newestFirst, files);
      if |files| > keep {
        RemoveSegments(files[..|files| - keep], r);
      }
    }
  }

  function Reversed<T>(s: seq<T>): seq<T> {
    seq(|s|, i requires 0 <= i < |s| => s[|s| - 1 - i])
  }

  // Sorting a strictly descending slice the other way round reverses it.
  lemma SortedTheOtherWay(a: seq<SegmentInfo>, b: seq<SegmentInfo>)
    requires StrictlyDescending(Starts(a))
    requires multiset(a) == multiset(b) && Sorted(b, StartsBefore)
    ensures |b| == |a| && Starts(b) == Reversed(Starts(a))
  {
    forall i, j | 0 <= i < j < |a| ensures a[i].startedAt > a[j].startedAt {
      assert Starts(a)[i] > Starts(a)[j];
    }
    SortedStaysDistinct(a, b);
    var c := Reversed(Starts(b));
    forall i, j | 0 <= i < j < |c| ensures c[i] > c[j] {
      assert !StartsBefore(b[|b| - 1 - i], b[|b| - 1 - j]);
    }
    ReversedElements(Starts(b));
    OnlyOneDescendingOrder(Starts(a), c);
    assert Reversed(c) == Starts(b);
  }

  lemma ReversedElements(s: seq<int>)
    ensures ToSet(Reversed(s)) == ToSet(s)
  {
    forall i | 0 <= i < |s| ensures s[i] in Reversed(s) && Reversed(s)[i] in s {
      assert Reversed(s)[|s| - 1 - i] == s[i];
    }
  }
}
