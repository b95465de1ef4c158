// The timelapse decimation of the recorder: which frames of a camera are kept.
//
// A zero time.Time is None; every other instant is a number of nanoseconds.
module Decimation {
  import opened Wrappers
  import opened GoInts

  const SECOND: int := 1_000_000_000

  // The distance between two kept frames, in nanoseconds. The multiplication is
  // an int64 one, so it wraps.
  function KeepEvery(timelapseFactor: int, outputFPS: int): int
    requires outputFPS > 0
  {
    Quo(Wrap64(SECOND * timelapseFactor), outputFPS)
  }

  // The validated configuration only promises two positive numbers. The interval is
  // positive, which the loop below needs, exactly when this inequality holds.
  lemma KeepEveryPositiveIff(timelapseFactor: int, outputFPS: int)
    requires timelapseFactor > 0 && outputFPS > 0
    ensures KeepEvery(timelapseFactor, outputFPS) > 0 <==> outputFPS <= Wrap64(SECOND * timelapseFactor)
    ensures timelapseFactor <= 9_223_372_036 ==>
              (KeepEvery(timelapseFactor, outputFPS) > 0 <==> outputFPS <= SECOND * timelapseFactor)
  {
    var total := Wrap64(SECOND * timelapseFactor);
    if total >= 0 {
      QuotientAtLeast(total, outputFPS, 1);
    } else {
      QuotientAtLeast(-total, outputFPS, 0);
    }
  }

  // The interval is the one whose outputFPS-fold fills timelapseFactor seconds: the largest
  // whole number of nanoseconds that does not overshoot. Where the multiplication wraps, the
  // product is short of k times 2^64, and a negative one is cut towards zero.
  lemma KeepEveryShare(timelapseFactor: int, outputFPS: int, k: int)
    requires outputFPS > 0
    requires var total := 1_000_000_000 * timelapseFactor - k * 0x1_0000_0000_0000_0000;
             -0x8000_0000_0000_0000 <= total < 0x8000_0000_0000_0000
    ensures var total := 1_000_000_000 * timelapseFactor - k * 0x1_0000_0000_0000_0000;
            var d := KeepEvery(timelapseFactor, outputFPS);
            if total >= 0 then d * outputFPS <= total < (d + 1) * outputFPS
            else (d - 1) * outputFPS < total <= d * outputFPS
  {
    var total := 1_000_000_000 * timelapseFactor - k * 0x1_0000_0000_0000_0000;
    WrapsTo(1_000_000_000 * timelapseFactor, total, k);
    QuoBounds(total, outputFPS);
  }

  // Without a wrap: keeping a frame every KeepEvery nanoseconds makes outputFPS frames of
  // timelapseFactor seconds, as closely as whole nanoseconds can.
  lemma KeepEveryFills(timelapseFactor: int, outputFPS: int)
    requires 0 < timelapseFactor <= 9_223_372_036 && outputFPS > 0
    ensures var d := KeepEvery(timelapseFactor, outputFPS);
            d * outputFPS <= 1_000_000_000 * timelapseFactor < (d + 1) * outputFPS
  {
    KeepEveryShare(timelapseFactor, outputFPS, 0);
  }

  datatype Verdict = Verdict(keep: bool, next: Option<int>)

  // What the loop of shouldKeep amounts to.
  function Decide(ts: int, next: Option<int>, interval: int): Verdict
    requires interval > 0
  {
    match next
    case None => Verdict(true, Some(ts + interval))
    case Some(n) =>
      if ts < n then Verdict(false, next)
      else Verdict(true, Some(n + ((ts - n) / interval + 1) * interval))
  }

  // shouldKeep: the pointer parameter is an in- and an out-parameter.
  method ShouldKeep(ts: int, next: Option<int>, interval: int) returns (keep: bool, next': Option<int>)
    requires interval > 0
    ensures Verdict(keep, next') == Decide(ts, next, interval)
  {
    if next.None? {
      return true, Some(ts + interval);
    }
    if ts < next.value {
      return false, next;
    }
    var n := next.value;
    ghost var steps := 0;
    while n <= ts
      invariant steps >= 0 && n == next.value + steps * interval
      invariant steps > 0 ==> n - interval <= ts
      decreases ts - n
    {
      n := n + interval;
      steps := steps + 1;
    }
    assert (steps - 1) * interval == steps * interval - interval;
    QuotientOf(ts - next.value, interval, steps - 1);
    return true, Some(n);
  }

  // n after the given number of rounds of the loop.
  function LoopAt(n: int, interval: int, rounds: nat): int {
    n + rounds * interval
  }

  // With next at or before ts, the loop reaches its exit for an interval of any
  // length exactly when the interval is positive.
  lemma LoopExitsIff(n: int, interval: int, ts: int)
    requires n <= ts
    ensures (exists rounds: nat :: ts < LoopAt(n, interval, rounds)) <==> interval > 0
  {
    if interval > 0 {
      var rounds: nat := ts - n + 1;
      assert rounds * interval >= rounds;
      assert ts < LoopAt(n, interval, rounds);
    } else {
      forall rounds: nat ensures !(ts < LoopAt(n, interval, rounds)) {
        assert rounds * interval <= 0;
      }
    }
  }

  // ---- A run of the decimation over a list of timestamps, in any order.

  // The bucket of the grid anchored at t0 that ts falls into.
  function Bucket(t0: int, interval: int, ts: int): int
    requires interval > 0
  {
    (ts - t0) / interval
  }

  // nextKeepAt after the given frames.
  function NextAfter(ts: seq<int>, interval: int): Option<int>
    requires interval > 0
  {
    if ts == [] then None
    else Decide(ts[|ts| - 1], NextAfter(ts[..|ts| - 1], interval), interval).next
  }

  // Whether frame k of the list is kept.
  predicate Kept(ts: seq<int>, interval: int, k: nat)
    requires interval > 0 && k < |ts|
  {
    Decide(ts[k], NextAfter(ts[..k], interval), interval).keep
  }

  function KeptCount(ts: seq<int>, interval: int): nat
    requires interval > 0
  {
    if ts == [] then 0
    else
      KeptCount(ts[..|ts| - 1], interval) + if Kept(ts, interval, |ts| - 1) then 1 else 0
  }

  // The furthest bucket any frame so far has fallen into.
  function FurthestBucket(ts: seq<int>, interval: int): (b: int)
    requires interval > 0 && ts != []
    ensures forall k :: 0 <= k < |ts| ==> Bucket(ts[0], interval, ts[k]) <= b
    ensures exists k :: 0 <= k < |ts| && Bucket(ts[0], interval, ts[k]) == b
  {
    var last := Bucket(ts[0], interval, ts[|ts| - 1]);
    if |ts| == 1 then last
    else
      var before := ts[..|ts| - 1];
      var b := FurthestBucket(before, interval);
      assert forall k :: 0 <= k < |before| ==> before[k] == ts[k];
      if b < last then last else b
  }

  // One decision on the grid, from any earlier point of the grid.
  lemma DecideOnGrid(t0: int, interval: int, b: int, ts: int)
    requires interval > 0
    ensures var v := Decide(ts, Some(t0 + (b + 1) * interval), interval);
            && (v.keep <==> b < Bucket(t0, interval, ts))
            && v.next == Some(t0 + ((if v.keep then Bucket(t0, interval, ts) else b) + 1) * interval)
  {
    var n := t0 + (b + 1) * interval;
    QuotientAtLeast(ts - t0, interval, b + 1);
    if n <= ts {
      var q := Bucket(t0, interval, ts);
      assert ts - t0 == q * interval + (ts - t0) % interval;
      var d := q - (b + 1);
      assert d * interval == q * interval - (b + 1) * interval;
      assert (d + 1) * interval == d * interval + interval;
      QuotientOf(ts - n, interval, d);
      assert (d + 1) * interval + (b + 1) * interval == (q + 1) * interval;
    }
  }

  // nextKeepAt in closed form: the end of the furthest bucket reached.
  lemma {:induction false} NextAfterIsGrid(ts: seq<int>, interval: int)
    requires interval > 0 && ts != []
    ensures NextAfter(ts, interval) == Some(ts[0] + (FurthestBucket(ts, interval) + 1) * interval)
  {
    var before := ts[..|ts| - 1];
    if before == [] {
      assert NextAfter(before, interval) == None;
    } else {
      NextAfterIsGrid(before, interval);
      DecideOnGrid(ts[0], interval, FurthestBucket(before, interval), ts[|ts| - 1]);
    }
  }

  // A frame is kept exactly when it opens a bucket beyond every earlier frame's.
  // No order of the timestamps is assumed.
  lemma KeptIffNewBucket(ts: seq<int>, interval: int, k: nat)
    requires interval > 0 && k < |ts|
    ensures Kept(ts, interval, k) <==>
            forall j :: 0 <= j < k ==> Bucket(ts[0], interval, ts[j]) < Bucket(ts[0], interval, ts[k])
  {
    var before := ts[..k];
    if k > 0 {
      NextAfterIsGrid(before, interval);
      var b := FurthestBucket(before, interval);
      DecideOnGrid(ts[0], interval, b, ts[k]);
      var m :| 0 <= m < k && Bucket(before[0], interval, before[m]) == b;
      assert Bucket(ts[0], interval, ts[m]) == b;
      forall j | 0 <= j < k ensures Bucket(ts[0], interval, ts[j]) <= b {
        assert before[j] == ts[j];
      }
    }
  }

  // After a kept frame the next one may be kept from the end of its bucket on.
  lemma NextAfterKept(ts: seq<int>, interval: int)
    requires interval > 0 && ts != [] && Kept(ts, interval, |ts| - 1)
    ensures NextAfter(ts, interval) == Some(ts[0] + (Bucket(ts[0], interval, ts[|ts| - 1]) + 1) * interval)
  {
    var last := |ts| - 1;
    NextAfterIsGrid(ts, interval);
    KeptIffNewBucket(ts, interval, last);
    var m :| 0 <= m < |ts| && Bucket(ts[0], interval, ts[m]) == FurthestBucket(ts, interval);
  }

  predicate Nondecreasing(ts: seq<int>) {
    forall i, j :: 0 <= i <= j < |ts| ==> ts[i] <= ts[j]
  }

  lemma BucketMonotone(t0: int, interval: int, a: int, b: int)
    requires interval > 0 && a <= b
    ensures Bucket(t0, interval, a) <= Bucket(t0, interval, b)
  {
    QuotientAtLeast(a - t0, interval, Bucket(t0, interval, a));
    QuotientAtLeast(b - t0, interval, Bucket(t0, interval, a));
  }

  // In time order, what is kept is exactly the first frame of each bucket.
  lemma KeptIsFirstOfBucket(ts: seq<int>, interval: int, k: nat)
    requires interval > 0 && k < |ts| && Nondecreasing(ts)
    ensures Kept(ts, interval, k) <==>
            k == 0 || Bucket(ts[0], interval, ts[k - 1]) != Bucket(ts[0], interval, ts[k])
  {
    KeptIffNewBucket(ts, interval, k);
    if k > 0 {
      BucketMonotone(ts[0], interval, ts[k - 1], ts[k]);
      forall j | 0 <= j < k ensures Bucket(ts[0], interval, ts[j]) <= Bucket(ts[0], interval, ts[k - 1]) {
        BucketMonotone(ts[0], interval, ts[j], ts[k - 1]);
      }
    }
  }

  ghost predicate BucketHit(ts: seq<int>, interval: int, b: int)
    requires interval > 0 && ts != []
  {
    exists k :: 0 <= k < |ts| && Bucket(ts[0], interval, ts[k]) == b
  }

  // Every bucket up to the last frame's holds a frame.
  ghost predicate EveryBucketHit(ts: seq<int>, interval: int)
    requires interval > 0 && ts != []
  {
    forall b :: 0 <= b <= Bucket(ts[0], interval, ts[|ts| - 1]) ==> BucketHit(ts, interval, b)
  }

  lemma NoBucketSkipped(ts: seq<int>, interval: int, k: nat)
    requires interval > 0 && ts != [] && Nondecreasing(ts) && EveryBucketHit(ts, interval)
    requires 0 < k < |ts|
    ensures Bucket(ts[0], interval, ts[k]) <= Bucket(ts[0], interval, ts[k - 1]) + 1
  {
    var t0, b := ts[0], Bucket(ts[0], interval, ts[k - 1]) + 1;
    if b < Bucket(t0, interval, ts[k]) {
      BucketMonotone(t0, interval, t0, ts[k - 1]);
      BucketMonotone(t0, interval, ts[k], ts[|ts| - 1]);
      assert BucketHit(ts, interval, b);
      var m :| 0 <= m < |ts| && Bucket(t0, interval, ts[m]) == b;
      if m < k {
        BucketMonotone(t0, interval, ts[m], ts[k - 1]);
      } else {
        BucketMonotone(t0, interval, ts[k], ts[m]);
      }
    }
  }

  lemma {:induction false} KeptCountOfPrefix(ts: seq<int>, interval: int, n: nat)
    requires interval > 0 && Nondecreasing(ts) && 0 < n <= |ts| && EveryBucketHit(ts, interval)
    ensures KeptCount(ts[..n], interval) == Bucket(ts[0], interval, ts[n - 1]) + 1
  {
    var p := ts[..n];
    assert p[..n - 1] == ts[..n - 1];
    assert Nondecreasing(p);
    KeptIsFirstOfBucket(p, interval, n - 1);
    if n > 1 {
      KeptCountOfPrefix(ts, interval, n - 1);
      BucketMonotone(ts[0], interval, ts[n - 2], ts[n - 1]);
      NoBucketSkipped(ts, interval, n - 1);
    }
  }

  // A camera that never misses a bucket gets one kept frame per bucket of its footage.
  lemma KeptCountWhenDense(ts: seq<int>, interval: int)
    requires interval > 0 && ts != [] && Nondecreasing(ts) && EveryBucketHit(ts, interval)
    ensures KeptCount(ts, interval) == (ts[|ts| - 1] - ts[0]) / interval + 1
  {
    KeptCountOfPrefix(ts, interval, |ts|);
    assert ts[..|ts|] == ts;
  }

  // How far a timestamp lies into its bucket.
  function Phase(t0: int, interval: int, ts: int): int
    requires interval > 0
  {
    (ts - t0) % interval
  }

  // Two kept frames are an interval apart exactly when a whole bucket lies between them
  // or the later one lies at least as far into its bucket as the earlier one. Two kept
  // frames never share a bucket, so only frames of neighbouring buckets can be closer.
  lemma KeptAnIntervalApartIff(ts: seq<int>, interval: int, j: nat, k: nat)
    requires interval > 0 && j < k < |ts|
    requires Kept(ts, interval, j) && Kept(ts, interval, k)
    ensures ts[k] - ts[j] >= interval <==>
            || Bucket(ts[0], interval, ts[k]) > Bucket(ts[0], interval, ts[j]) + 1
            || Phase(ts[0], interval, ts[k]) >= Phase(ts[0], interval, ts[j])
    ensures Bucket(ts[0], interval, ts[k]) > Bucket(ts[0], interval, ts[j]) && ts[k] > ts[j]
  {
    hide Kept;
    KeptIffNewBucket(ts, interval, k);
    Decomposed(ts[0], interval, ts[j]);
    Decomposed(ts[0], interval, ts[k]);
    hide Bucket, Phase;
    Spacing(ts[j] - ts[0], Bucket(ts[0], interval, ts[j]), Phase(ts[0], interval, ts[j]),
            ts[k] - ts[0], Bucket(ts[0], interval, ts[k]), Phase(ts[0], interval, ts[k]), interval);
  }

  lemma Decomposed(t0: int, interval: int, ts: int)
    requires interval > 0
    ensures ts - t0 == Bucket(t0, interval, ts) * interval + Phase(t0, interval, ts)
    ensures 0 <= Phase(t0, interval, ts) < interval
  {
  }

  lemma Spacing(x: int, q: int, p: int, y: int, s: int, r: int, d: int)
    requires x == q * d + p && y == s * d + r && q < s
    requires 0 <= p < d && 0 <= r < d
    ensures y - x >= d <==> s > q + 1 || r >= p
    ensures y > x
  {
    assert (s - q) * d == s * d - q * d;
    if s > q + 1 {
      MulAtLeast(s - q, 2, d);
    }
  }

  lemma MulAtLeast(a: int, b: int, d: int)
    requires a >= b && d > 0
    ensures a * d >= b * d
  {
  }

  // The grid does not move with the kept frames, so two of them can be almost two
  // intervals apart or as close as one nanosecond.
  lemma KeptFramesCanBeAdjacent(interval: int)
    requires interval > 1
    ensures var ts := [0, interval + interval - 1, interval + interval];
            Kept(ts, interval, 1) && Kept(ts, interval, 2)
  {
    var ts := [0, interval + interval - 1, interval + interval];
    KeptIffNewBucket(ts, interval, 1);
    KeptIffNewBucket(ts, interval, 2);
    QuotientOf(0, interval, 0);
    QuotientOf(interval + interval - 1, interval, 1);
    QuotientOf(interval + interval, interval, 2);
  }

  // ---- How much footage the kept frames stand for.

  // The number of kept frames with from <= timestamp < to.
  function KeptWithin(ts: seq<int>, interval: int, from: int, to: int): nat
    requires interval > 0
  {
    if ts == [] then 0
    else
      var n := |ts| - 1;
      KeptWithin(ts[..n], interval, from, to) + if Kept(ts, interval, n) && from <= ts[n] < to then 1 else 0
  }

  lemma {:induction false} KeptWithinAdds(ts: seq<int>, interval: int, a: int, b: int, c: int)
    requires interval > 0 && a <= b <= c
    ensures KeptWithin(ts, interval, a, c) == KeptWithin(ts, interval, a, b) + KeptWithin(ts, interval, b, c)
  {
    if ts != [] {
      KeptWithinAdds(ts[..|ts| - 1], interval, a, b, c);
    }
  }

  lemma {:induction false} KeptInFirstBuckets(ts: seq<int>, interval: int, n: nat, b: nat)
    requires interval > 0 && Nondecreasing(ts) && 0 < n <= |ts| && EveryBucketHit(ts, interval)
    ensures var buckets := Bucket(ts[0], interval, ts[n - 1]) + 1;
            KeptWithin(ts[..n], interval, ts[0], ts[0] + b * interval) == if buckets <= b then buckets else b
  {
    var p := ts[..n];
    assert p[..n - 1] == ts[..n - 1];
    assert Nondecreasing(p);
    KeptIsFirstOfBucket(p, interval, n - 1);
    QuotientAtLeast(ts[n - 1] - ts[0], interval, b);
    if n > 1 {
      hide Kept;
      KeptInFirstBuckets(ts, interval, n - 1, b);
      BucketMonotone(ts[0], interval, ts[n - 2], ts[n - 1]);
      BucketMonotone(ts[0], interval, ts[0], ts[n - 2]);
      NoBucketSkipped(ts, interval, n - 1);
    }
  }

  // When the rate divides the factor, footage in time order with a frame in every bucket
  // keeps exactly outputFPS frames of every timelapseFactor seconds, counted from the
  // beginning of any bucket: they play for one second.
  lemma RateOfKeptFrames(ts: seq<int>, timelapseFactor: int, outputFPS: int, b: nat)
    requires 0 < timelapseFactor <= 9_223_372_036 && 0 < outputFPS
    requires (1_000_000_000 * timelapseFactor) % outputFPS == 0
    requires KeepEvery(timelapseFactor, outputFPS) > 0
    requires var d := KeepEvery(timelapseFactor, outputFPS);
             && ts != [] && Nondecreasing(ts) && EveryBucketHit(ts, d)
             && ts[0] + (b + outputFPS - 1) * d <= ts[|ts| - 1]
    ensures var d := KeepEvery(timelapseFactor, outputFPS);
            var from := ts[0] + b * d;
            KeptWithin(ts, d, from, from + 1_000_000_000 * timelapseFactor) == outputFPS
  {
    var d := KeepEvery(timelapseFactor, outputFPS);
    KeepEveryDivides(timelapseFactor, outputFPS);
    assert ts[..|ts|] == ts;
    var from, e := ts[0] + b * d, b + outputFPS;
    assert e * d == b * d + outputFPS * d;
    MulAtLeast(b, 0, d);
    KeptInFirstBuckets(ts, d, |ts|, b);
    KeptInFirstBuckets(ts, d, |ts|, e);
    QuotientAtLeast(ts[|ts| - 1] - ts[0], d, e - 1);
    KeptWithinAdds(ts, d, ts[0], from, from + outputFPS * d);
  }

  lemma KeepEveryDivides(timelapseFactor: int, outputFPS: int)
    requires 0 < timelapseFactor <= 9_223_372_036 && 0 < outputFPS
    requires (1_000_000_000 * timelapseFactor) % outputFPS == 0
    ensures outputFPS * KeepEvery(timelapseFactor, outputFPS) == 1_000_000_000 * timelapseFactor
  {
    var total := 1_000_000_000 * timelapseFactor;
    assert total == (total / outputFPS) * outputFPS;
  }
}
