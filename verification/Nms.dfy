// Non-maximum suppression, over the reals.
module Nms {
  import opened Sets
  import opened Sorting

  datatype Detection = Detection(classId: int, confidence: real, x1: real, y1: real, x2: real, y2: real)

  function Max(a: real, b: real): real {
    if a >= b then a else b
  }

  function Min(a: real, b: real): real {
    if a <= b then a else b
  }

  // The decoder lets only boxes of positive width and height through.
  predicate Proper(a: Detection) {
    a.x1 < a.x2 && a.y1 < a.y2
  }

  function Area(a: Detection): real {
    (a.x2 - a.x1) * (a.y2 - a.y1)
  }

  function OverlapX(a: Detection, b: Detection): real {
    Max(0.0, Min(a.x2, b.x2) - Max(a.x1, b.x1))
  }

  function OverlapY(a: Detection, b: Detection): real {
    Max(0.0, Min(a.y2, b.y2) - Max(a.y1, b.y1))
  }

  function Intersection(a: Detection, b: Detection): real {
    OverlapX(a, b) * OverlapY(a, b)
  }

  function Union(a: Detection, b: Detection): real {
    Area(a) + Area(b) - Intersection(a, b) + 0.000001
  }

  // boxIoU. The division is by a positive number for every two proper boxes.
  function Iou(a: Detection, b: Detection): real {
    if Union(a, b) == 0.0 then 0.0 else Intersection(a, b) / Union(a, b)
  }

  lemma ProductsOfSides(w: real, h: real, w': real, h': real)
    requires 0.0 <= w <= w' && 0.0 <= h <= h'
    ensures 0.0 <= w * h <= w' * h'
  {
    assert w * h <= w' * h;
    assert w' * h <= w' * h';
  }

  lemma IntersectionIsInside(a: Detection, b: Detection)
    requires Proper(a) && Proper(b)
    ensures 0.0 <= Intersection(a, b) <= Area(a)
  {
    ProductsOfSides(OverlapX(a, b), OverlapY(a, b), a.x2 - a.x1, a.y2 - a.y1);
  }

  lemma IouIsSymmetric(a: Detection, b: Detection)
    ensures Iou(a, b) == Iou(b, a)
  {
    IntersectionIsSymmetric(a, b);
  }

  lemma IntersectionIsSymmetric(a: Detection, b: Detection)
    ensures Intersection(a, b) == Intersection(b, a)
  {
    assert OverlapX(a, b) == OverlapX(b, a) && OverlapY(a, b) == OverlapY(b, a);
  }

  lemma FractionOfUnion(i: real, a: real, b: real, u: real)
    requires 0.0 <= i <= a && i <= b && u == a + b - i + 0.000001
    ensures u > 0.0 && 0.0 <= i / u < 1.0
  {
    assert i < u;
    assert (i / u) * u == i;
  }

  lemma IouIsAFraction(a: Detection, b: Detection)
    requires Proper(a) && Proper(b)
    ensures Union(a, b) > 0.0 && 0.0 <= Iou(a, b) < 1.0
  {
    IntersectionIsInside(a, b);
    IntersectionIsInside(b, a);
    IntersectionIsSymmetric(a, b);
    FractionOfUnion(Intersection(a, b), Area(a), Area(b), Union(a, b));
  }

  // ---- What the suppression promises.

  // How often d occurs.
  function Times(s: seq<Detection>, d: Detection): nat {
    multiset(s)[d]
  }

  predicate Beats(k: Detection, d: Detection, threshold: real) {
    k.classId == d.classId && k.confidence >= d.confidence && Iou(k, d) > threshold
  }

  ghost predicate NoOverlaps(kept: seq<Detection>, threshold: real) {
    forall i, j :: 0 <= i < j < |kept| && kept[i].classId == kept[j].classId ==> Iou(kept[i], kept[j]) <= threshold
  }

  ghost predicate IsBeaten(kept: seq<Detection>, d: Detection, threshold: real) {
    exists k :: k in kept && Beats(k, d, threshold)
  }

  // kept are some of the detections, no two of a class overlap above the threshold, and
  // every one left out overlaps above it with a kept one of at least its confidence.
  ghost predicate Suppressed(dets: seq<Detection>, kept: seq<Detection>, threshold: real) {
    && multiset(kept) <= multiset(dets)
    && NoOverlaps(kept, threshold)
    && forall d: Detection :: Times(kept, d) < Times(dets, d) ==> IsBeaten(kept, d, threshold)
  }

  // ---- One class, in order of confidence.

  predicate MoreConfident(a: Detection, b: Detection) {
    a.confidence > b.confidence
  }

  // Whether the greedy pass keeps box i: no kept box before it overlaps it.
  predicate Kept(g: seq<Detection>, threshold: real, i: nat)
    requires i < |g|
    decreases i
  {
    forall m :: 0 <= m < i && Kept(g, threshold, m) ==> Iou(g[m], g[i]) <= threshold
  }

  function KeptBoxes(g: seq<Detection>, threshold: real, n: nat): seq<Detection>
    requires n <= |g|
  {
    if n == 0 then []
    else KeptBoxes(g, threshold, n - 1) + if Kept(g, threshold, n - 1) then [g[n - 1]] else []
  }

  lemma {:induction false} KeptIsContained(g: seq<Detection>, threshold: real, n: nat, i: nat)
    requires i < n <= |g| && Kept(g, threshold, i)
    ensures g[i] in KeptBoxes(g, threshold, n)
  {
    if i < n - 1 {
      KeptIsContained(g, threshold, n - 1, i);
    }
  }

  lemma {:induction false} ContainedIsKept(g: seq<Detection>, threshold: real, n: nat, k: nat) returns (i: nat)
    requires n <= |g| && k < |KeptBoxes(g, threshold, n)|
    ensures i < n && Kept(g, threshold, i) && KeptBoxes(g, threshold, n)[k] == g[i]
  {
    if k < |KeptBoxes(g, threshold, n - 1)| {
      i := ContainedIsKept(g, threshold, n - 1, k);
    } else {
      i := n - 1;
    }
  }

  lemma {:induction false} KeptDoNotOverlap(g: seq<Detection>, threshold: real, n: nat)
    requires n <= |g|
    ensures NoOverlaps(KeptBoxes(g, threshold, n), threshold)
  {
    if n > 0 {
      KeptDoNotOverlap(g, threshold, n - 1);
      var before, kept := KeptBoxes(g, threshold, n - 1), KeptBoxes(g, threshold, n);
      forall i, j | 0 <= i < j < |kept| ensures Iou(kept[i], kept[j]) <= threshold || kept[i].classId != kept[j].classId {
        if j == |before| {
          var m := ContainedIsKept(g, threshold, n - 1, i);
          assert kept[i] == g[m];
        }
      }
    }
  }

  lemma {:induction false} KeptCounts(g: seq<Detection>, threshold: real, n: nat, d: Detection)
    requires n <= |g|
    ensures Times(KeptBoxes(g, threshold, n), d) <= Times(g[..n], d)
    ensures Times(KeptBoxes(g, threshold, n), d) < Times(g[..n], d) ==>
              exists i :: 0 <= i < n && g[i] == d && !Kept(g, threshold, i)
  {
    hide Kept, Times;
    if n > 0 {
      KeptCounts(g, threshold, n - 1, d);
      assert g[..n] == g[..n - 1] + [g[n - 1]];
      var before := KeptBoxes(g, threshold, n - 1);
      assert before + [] == before;
      TimesOfOneMore(g[..n - 1], g[n - 1], d);
      TimesOfOneMore(KeptBoxes(g, threshold, n - 1), g[n - 1], d);
      if Times(KeptBoxes(g, threshold, n), d) < Times(g[..n], d) {
        LeftOutWhere(g, threshold, n, d);
      }
    } else {
      assert KeptBoxes(g, threshold, 0) == g[..0];
    }
  }

  lemma TimesOfOneMore(s: seq<Detection>, x: Detection, d: Detection)
    ensures Times(s + [x], d) == Times(s, d) + if x == d then 1 else 0
  {
  }

  // The box left out last is the last one, or it was left out before.
  lemma LeftOutWhere(g: seq<Detection>, threshold: real, n: nat, d: Detection)
    requires 0 < n <= |g|
    requires (g[n - 1] == d && !Kept(g, threshold, n - 1)) ||
             exists i :: 0 <= i < n - 1 && g[i] == d && !Kept(g, threshold, i)
    ensures exists i :: 0 <= i < n && g[i] == d && !Kept(g, threshold, i)
  {
    hide Kept;
  }

  // The greedy pass over one class, most confident first, meets the promise.
  lemma GreedyIsSuppression(g: seq<Detection>, threshold: real)
    requires Sorted(g, MoreConfident)
    requires forall i, j :: 0 <= i < j < |g| ==> g[i].classId == g[j].classId
    ensures Suppressed(g, KeptBoxes(g, threshold, |g|), threshold)
  {
    var kept := KeptBoxes(g, threshold, |g|);
    assert g[..|g|] == g;
    KeptDoNotOverlap(g, threshold, |g|);
    forall d ensures Times(kept, d) <= Times(g, d) {
      KeptCounts(g, threshold, |g|, d);
    }
    FewerOfEach(kept, g);
    forall d | Times(kept, d) < Times(g, d) ensures IsBeaten(kept, d, threshold) {
      KeptCounts(g, threshold, |g|, d);
      var i :| 0 <= i < |g| && g[i] == d && !Kept(g, threshold, i);
      BeatenInGroup(g, threshold, i);
    }
  }

  lemma FewerOfEach(a: seq<Detection>, b: seq<Detection>)
    requires forall d :: Times(a, d) <= Times(b, d)
    ensures multiset(a) <= multiset(b)
  {
    forall d ensures multiset(a)[d] <= multiset(b)[d] {
      assert Times(a, d) <= Times(b, d);
    }
  }

  lemma SameOfEach(a: seq<Detection>, b: seq<Detection>)
    requires forall d :: Times(a, d) == Times(b, d)
    ensures multiset(a) == multiset(b)
  {
    FewerOfEach(a, b);
    FewerOfEach(b, a);
  }

  lemma BeatenInGroup(g: seq<Detection>, threshold: real, i: nat)
    requires Sorted(g, MoreConfident) && i < |g| && !Kept(g, threshold, i)
    requires forall i, j :: 0 <= i < j < |g| ==> g[i].classId == g[j].classId
    ensures IsBeaten(KeptBoxes(g, threshold, |g|), g[i], threshold)
  {
    var m :| 0 <= m < i && Kept(g, threshold, m) && Iou(g[m], g[i]) > threshold;
    KeptIsContained(g, threshold, |g|, m);
    assert !MoreConfident(g[i], g[m]);
    assert Beats(g[m], g[i], threshold);
  }

  // A kept box before i and before k overlaps box k.
  ghost predicate Hit(g: seq<Detection>, threshold: real, i: nat, k: nat)
    requires i <= |g| && k < |g|
  {
    exists m :: 0 <= m < i && m < k && Kept(g, threshold, m) && Iou(g[m], g[k]) > threshold
  }

  lemma HitStep(g: seq<Detection>, threshold: real, i: nat, k: nat)
    requires i < |g| && k < |g|
    ensures Hit(g, threshold, i + 1, k) <==>
            Hit(g, threshold, i, k) || (i < k && Kept(g, threshold, i) && Iou(g[i], g[k]) > threshold)
    ensures Kept(g, threshold, k) <==> !Hit(g, threshold, k, k)
    ensures i >= k ==> (Hit(g, threshold, i, k) <==> Hit(g, threshold, k, k))
  {
  }

  // The inner loop of nms: box i suppresses the later ones it overlaps.
  method SuppressOverlapping(g: seq<Detection>, threshold: real, i: nat, suppressed: array<bool>)
    requires i < |g| == suppressed.Length
    modifies suppressed
    ensures forall k :: 0 <= k < |g| ==>
              suppressed[k] == (old(suppressed[k]) || (i < k && Iou(g[i], g[k]) > threshold))
  {
    for j := i + 1 to |g|
      invariant forall k :: 0 <= k < |g| ==>
                  suppressed[k] == (old(suppressed[k]) || (i < k < j && Iou(g[i], g[k]) > threshold))
    {
      if !suppressed[j] && Iou(g[i], g[j]) > threshold {
        suppressed[j] := true;
      }
    }
  }

  ghost predicate MarksHits(g: seq<Detection>, threshold: real, i: nat, suppressed: seq<bool>)
    requires i <= |g| == |suppressed|
  {
    forall k :: 0 <= k < |g| ==> suppressed[k] == Hit(g, threshold, i, k)
  }

  // The marks after box i, from those before it.
  lemma MarksStep(g: seq<Detection>, threshold: real, i: nat, before: seq<bool>, after: seq<bool>)
    requires i < |g| == |before| == |after| && MarksHits(g, threshold, i, before)
    requires forall k :: 0 <= k < |g| ==>
               after[k] == (before[k] || (!before[i] && i < k && Iou(g[i], g[k]) > threshold))
    ensures MarksHits(g, threshold, i + 1, after)
    ensures before[i] == !Kept(g, threshold, i)
  {
    HitStep(g, threshold, i, i);
    forall k | 0 <= k < |g| ensures after[k] == Hit(g, threshold, i + 1, k) {
      HitStep(g, threshold, i, k);
    }
  }

  // The loop of nms over one sorted class.
  method KeepGreedily(g: seq<Detection>, threshold: real) returns (kept: seq<Detection>)
    ensures kept == KeptBoxes(g, threshold, |g|)
  {
    var suppressed := new bool[|g|](_ => false);
    kept := [];
    assert MarksHits(g, threshold, 0, suppressed[..]);
    hide MarksHits, Hit, Kept, Iou;
    for i := 0 to |g|
      invariant kept == KeptBoxes(g, threshold, i)
      invariant MarksHits(g, threshold, i, suppressed[..])
    {
      ghost var before := suppressed[..];
      if !suppressed[i] {
        kept := kept + [g[i]];
        SuppressOverlapping(g, threshold, i, suppressed);
      }
      MarksStep(g, threshold, i, before, suppressed[..]);
    }
  }

  method SuppressClass(group: seq<Detection>, threshold: real) returns (kept: seq<Detection>)
    requires forall i, j :: 0 <= i < j < |group| ==> group[i].classId == group[j].classId
    ensures Suppressed(group, kept, threshold)
  {
    var g := SortSlice(group, MoreConfident);
    SameClasses(group, g);
    kept := KeepGreedily(g, threshold);
    GreedyIsSuppression(g, threshold);
    SuppressionOfReordered(g, group, kept, threshold);
  }

  lemma SameClasses(a: seq<Detection>, b: seq<Detection>)
    requires multiset(a) == multiset(b)
    requires forall i, j :: 0 <= i < j < |a| ==> a[i].classId == a[j].classId
    ensures forall i, j :: 0 <= i < j < |b| ==> b[i].classId == b[j].classId
  {
    forall i, j | 0 <= i < j < |b| ensures b[i].classId == b[j].classId {
      assert b[i] in multiset(b) && b[j] in multiset(b);
      assert b[i] in a && b[j] in a;
    }
  }

  lemma SuppressionOfReordered(a: seq<Detection>, b: seq<Detection>, kept: seq<Detection>, threshold: real)
    requires multiset(a) == multiset(b) && Suppressed(a, kept, threshold)
    ensures Suppressed(b, kept, threshold)
  {
  }

  // ---- All classes.

  function OfClass(dets: seq<Detection>, c: int): (r: seq<Detection>)
    ensures forall i :: 0 <= i < |r| ==> r[i].classId == c
  {
    if dets == [] then []
    else
      var d := dets[|dets| - 1];
      OfClass(dets[..|dets| - 1], c) + if d.classId == c then [d] else []
  }

  // The detections of all classes that are not still to do.
  function OfClassesDone(dets: seq<Detection>, todo: set<int>): (r: seq<Detection>)
    ensures forall i :: 0 <= i < |r| ==> r[i].classId !in todo
  {
    if dets == [] then []
    else
      var d := dets[|dets| - 1];
      OfClassesDone(dets[..|dets| - 1], todo) + if d.classId !in todo then [d] else []
  }

  lemma {:induction false} OneClassMore(dets: seq<Detection>, todo: set<int>, c: int)
    requires c in todo
    ensures multiset(OfClassesDone(dets, todo - {c})) == multiset(OfClassesDone(dets, todo) + OfClass(dets, c))
  {
    if dets != [] {
      OneClassMore(dets[..|dets| - 1], todo, c);
    }
  }

  lemma {:induction false} AllClassesDone(dets: seq<Detection>)
    ensures OfClassesDone(dets, {}) == dets
  {
    if dets != [] {
      AllClassesDone(dets[..|dets| - 1]);
      assert dets == dets[..|dets| - 1] + [dets[|dets| - 1]];
    }
  }

  lemma {:induction false} NoClassDone(dets: seq<Detection>, todo: set<int>)
    requires forall i :: 0 <= i < |dets| ==> dets[i].classId in todo
    ensures OfClassesDone(dets, todo) == []
  {
    if dets != [] {
      NoClassDone(dets[..|dets| - 1], todo);
    }
  }

  lemma BeatenStaysBeaten(kept: seq<Detection>, more: seq<Detection>, d: Detection, threshold: real)
    requires IsBeaten(kept, d, threshold) && forall k :: k in kept ==> k in more
    ensures IsBeaten(more, d, threshold)
  {
    var k :| k in kept && Beats(k, d, threshold);
    assert k in more;
  }

  // Classes do not touch each other.
  lemma SuppressionOfBoth(a: seq<Detection>, ka: seq<Detection>, b: seq<Detection>, kb: seq<Detection>, threshold: real)
    requires Suppressed(a, ka, threshold) && Suppressed(b, kb, threshold)
    requires forall x, y :: x in a && y in b ==> x.classId != y.classId
    ensures Suppressed(a + b, ka + kb, threshold)
  {
    forall x | x in ka ensures x in a {
      assert x in multiset(ka);
    }
    forall y | y in kb ensures y in b {
      assert y in multiset(kb);
    }
    forall d: Detection | Times(ka + kb, d) < Times(a + b, d) ensures IsBeaten(ka + kb, d, threshold) {
      if Times(ka, d) < Times(a, d) {
        BeatenStaysBeaten(ka, ka + kb, d, threshold);
      } else {
        BeatenStaysBeaten(kb, ka + kb, d, threshold);
      }
    }
  }

  // One class more is done.
  lemma ClassStep(dets: seq<Detection>, todo: set<int>, c: int, result: seq<Detection>, kept: seq<Detection>, threshold: real)
    requires c in todo
    requires Suppressed(OfClassesDone(dets, todo), result, threshold)
    requires Suppressed(OfClass(dets, c), kept, threshold)
    ensures Suppressed(OfClassesDone(dets, todo - {c}), result + kept, threshold)
  {
    var done, group := OfClassesDone(dets, todo), OfClass(dets, c);
    SuppressionOfBoth(done, result, group, kept, threshold);
    OneClassMore(dets, todo, c);
    SuppressionOfReordered(done + group, OfClassesDone(dets, todo - {c}), result + kept, threshold);
  }

  // byClass groups the first n detections.
  ghost predicate Groups(byClass: map<int, seq<Detection>>, dets: seq<Detection>, n: nat)
    requires n <= |dets|
  {
    && (forall c :: (if c in byClass then byClass[c] else []) == OfClass(dets[..n], c))
    && (forall k :: 0 <= k < n ==> dets[k].classId in byClass)
  }

  function Grouped(byClass: map<int, seq<Detection>>, d: Detection): map<int, seq<Detection>> {
    byClass[d.classId := (if d.classId in byClass then byClass[d.classId] else []) + [d]]
  }

  lemma OneMoreOfClass(dets: seq<Detection>, n: nat, c: int)
    requires n < |dets|
    ensures OfClass(dets[..n + 1], c) == OfClass(dets[..n], c) + if dets[n].classId == c then [dets[n]] else []
  {
    assert dets[..n + 1][..n] == dets[..n];
  }

  lemma GroupsOneMore(byClass: map<int, seq<Detection>>, dets: seq<Detection>, n: nat)
    requires n < |dets| && Groups(byClass, dets, n)
    ensures Groups(Grouped(byClass, dets[n]), dets, n + 1)
  {
    hide OfClass;
    var next := Grouped(byClass, dets[n]);
    forall c ensures (if c in next then next[c] else []) == OfClass(dets[..n + 1], c) {
      OneMoreOfClass(dets, n, c);
      assert (if c in byClass then byClass[c] else []) == OfClass(dets[..n], c);
      assert c != dets[n].classId ==> (c in next <==> c in byClass);
    }
  }

  lemma GroupsAll(byClass: map<int, seq<Detection>>, dets: seq<Detection>)
    requires Groups(byClass, dets, |dets|)
    ensures forall c :: c in byClass ==> byClass[c] == OfClass(dets, c)
    ensures forall k :: 0 <= k < |dets| ==> dets[k].classId in byClass
  {
    assert dets[..|dets|] == dets;
    forall c | c in byClass ensures byClass[c] == OfClass(dets, c) {
      assert (if c in byClass then byClass[c] else []) == OfClass(dets[..|dets|], c);
    }
  }

  method GroupByClass(dets: seq<Detection>) returns (byClass: map<int, seq<Detection>>)
    ensures forall c :: c in byClass ==> byClass[c] == OfClass(dets, c)
    ensures forall k :: 0 <= k < |dets| ==> dets[k].classId in byClass
  {
    byClass := map[];
    for i := 0 to |dets|
      invariant Groups(byClass, dets, i)
    {
      GroupsOneMore(byClass, dets, i);
      byClass := Grouped(byClass, dets[i]);
    }
    GroupsAll(byClass, dets);
  }

  // nms: the classes come in an arbitrary order.
  method Suppress(dets: seq<Detection>, threshold: real) returns (result: seq<Detection>)
    ensures Suppressed(dets, result, threshold)
  {
    var byClass := GroupByClass(dets);
    result := [];
    var todo := byClass.Keys;
    NoClassDone(dets, todo);
    while todo != {}
      invariant todo <= byClass.Keys
      invariant Suppressed(OfClassesDone(dets, todo), result, threshold)
      decreases |todo|
    {
      ghost var _ := SomeElement(todo);
      var c :| c in todo;
      var kept := SuppressClass(byClass[c], threshold);
      ClassStep(dets, todo, c, result, kept, threshold);
      result := result + kept;
      todo := todo - {c};
    }
    AllClassesDone(dets);
  }

  // ---- What follows for any result that meets the promise.

  ghost predicate DistinctConfidences(dets: seq<Detection>) {
    forall i, j :: 0 <= i < j < |dets| && dets[i].classId == dets[j].classId ==> dets[i].confidence != dets[j].confidence
  }

  lemma TwoIndices(dets: seq<Detection>, a: Detection, b: Detection)
    requires a in dets && b in dets && a != b
    ensures exists i, j :: 0 <= i < j < |dets| && ((dets[i] == a && dets[j] == b) || (dets[i] == b && dets[j] == a))
  {
    var i :| 0 <= i < |dets| && dets[i] == a;
    var j :| 0 <= j < |dets| && dets[j] == b;
    if i < j {
      assert dets[i] == a && dets[j] == b;
    } else {
      assert dets[j] == b && dets[i] == a;
    }
  }

  lemma {:induction false} TwiceContained(dets: seq<Detection>, a: Detection)
    requires Times(dets, a) >= 2
    ensures exists i, j :: 0 <= i < j < |dets| && dets[i] == a && dets[j] == a
  {
    var n := |dets| - 1;
    assert dets == dets[..n] + [dets[n]];
    if dets[n] == a {
      assert a in dets[..n];
      var i :| 0 <= i < n && dets[..n][i] == a;
      assert dets[i] == a && dets[n] == a;
    } else {
      TwiceContained(dets[..n], a);
      var i, j :| 0 <= i < j < n && dets[..n][i] == a && dets[..n][j] == a;
      assert dets[i] == a && dets[j] == a;
    }
  }

  lemma AtMostOnce(dets: seq<Detection>, a: Detection)
    requires DistinctConfidences(dets)
    ensures Times(dets, a) <= 1
  {
    if Times(dets, a) >= 2 {
      TwiceContained(dets, a);
    }
  }

  function Above(dets: seq<Detection>, d: Detection): set<Detection> {
    set x | x in dets && x.confidence > d.confidence
  }

  // A kept box of the first result that the second leaves out is beaten there by a
  // strictly more confident box, which the first then cannot have kept.
  lemma {:induction false} KeptInBoth(dets: seq<Detection>, k1: seq<Detection>, k2: seq<Detection>, threshold: real, d: Detection)
    requires DistinctConfidences(dets) && Suppressed(dets, k1, threshold) && Suppressed(dets, k2, threshold)
    requires d in k1
    ensures d in k2
    decreases |Above(dets, d)|
  {
    assert d in multiset(k1) && d in multiset(dets);
    if d !in k2 {
      assert Times(k2, d) < Times(dets, d);
      var k :| k in k2 && Beats(k, d, threshold);
      assert k in multiset(k2) && k in multiset(dets);
      assert k != d;
      TwoIndices(dets, k, d);
      assert Above(dets, k) < Above(dets, d) by {
        assert k in Above(dets, d) && k !in Above(dets, k);
      }
      SmallerSetHasFewer(Above(dets, k) + {k}, Above(dets, d));
      KeptInBoth(dets, k2, k1, threshold, k);
      TwoIndices(k1, k, d);
      IouIsSymmetric(k, d);
      assert false;
    }
  }

  // With distinct confidences in each class the result does not depend on the order of
  // the detections, of the classes, or on how sort.Slice arranges anything.
  lemma ResultIsUnique(a: seq<Detection>, b: seq<Detection>, ka: seq<Detection>, kb: seq<Detection>, threshold: real)
    requires multiset(a) == multiset(b) && DistinctConfidences(a)
    requires Suppressed(a, ka, threshold) && Suppressed(b, kb, threshold)
    ensures multiset(ka) == multiset(kb)
  {
    SuppressionOfReordered(b, a, kb, threshold);
    forall d ensures Times(ka, d) == Times(kb, d) {
      AtMostOnce(a, d);
      OnceIfContained(a, ka, d);
      OnceIfContained(a, kb, d);
      if d in ka {
        KeptInBoth(a, ka, kb, threshold, d);
      }
      if d in kb {
        KeptInBoth(a, kb, ka, threshold, d);
      }
    }
    SameOfEach(ka, kb);
  }

  lemma OnceIfContained(dets: seq<Detection>, kept: seq<Detection>, d: Detection)
    requires multiset(kept) <= multiset(dets) && Times(dets, d) <= 1
    ensures Times(kept, d) == if d in kept then 1 else 0
  {
    assert d in kept <==> d in multiset(kept);
  }

  // Running it on its own result changes nothing, ties or not.
  lemma SuppressionIsIdempotent(dets: seq<Detection>, once: seq<Detection>, twice: seq<Detection>, threshold: real)
    requires Suppressed(dets, once, threshold) && Suppressed(once, twice, threshold)
    ensures multiset(twice) == multiset(once)
  {
    forall d ensures Times(twice, d) == Times(once, d) {
      NothingLeftOut(dets, once, twice, threshold, d);
    }
    SameOfEach(twice, once);
  }

  lemma NothingLeftOut(dets: seq<Detection>, once: seq<Detection>, twice: seq<Detection>, threshold: real, d: Detection)
    requires Suppressed(dets, once, threshold) && Suppressed(once, twice, threshold)
    ensures Times(twice, d) == Times(once, d)
  {
    if Times(twice, d) < Times(once, d) {
      var k :| k in twice && Beats(k, d, threshold);
      assert k in multiset(twice) && k in multiset(once) && d in multiset(once);
      if k == d {
        TwiceContained(once, d);
      } else {
        TwoIndices(once, k, d);
        IouIsSymmetric(k, d);
      }
      assert false;
    }
  }
}
