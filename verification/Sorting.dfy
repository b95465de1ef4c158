// sort.Slice: the callers rely on nothing but this contract.
module Sorting {

  // `before` is usable as a comparison: asymmetric, and incomparability is transitive.
  ghost predicate IsOrder<T(!new)>(before: (T, T) -> bool) {
    && (forall a, b :: before(a, b) ==> !before(b, a))
    && (forall a, b, c :: before(a, c) ==> before(a, b) || before(b, c))
  }

  ghost predicate Sorted<T>(s: seq<T>, before: (T, T) -> bool) {
    forall i, j :: 0 <= i < j < |s| ==> !before(s[j], s[i])
  }

  // Inserting x before the first element it comes before keeps a slice sorted.
  lemma InsertKeepsSorted<T(!new)>(r: seq<T>, k: nat, x: T, before: (T, T) -> bool)
    requires IsOrder(before) && Sorted(r, before) && k <= |r|
    requires forall j :: 0 <= j < k ==> !before(x, r[j])
    requires k < |r| ==> before(x, r[k])
    ensures Sorted(r[..k] + [x] + r[k..], before)
  {
    forall m | k <= m < |r| ensures !before(r[m], x) {
      assert m > k ==> !before(r[m], r[k]);
    }
  }

  method SortSlice<T(!new)>(s: seq<T>, before: (T, T) -> bool) returns (r: seq<T>)
    requires IsOrder(before)
    ensures Sorted(r, before)
    ensures multiset(r) == multiset(s)
  {
    r := [];
    for i := 0 to |s|
      invariant Sorted(r, before)
      invariant multiset(r) == multiset(s[..i])
    {
      var k := 0;
      while k < |r| && !before(s[i], r[k])
        invariant 0 <= k <= |r|
        invariant forall j :: 0 <= j < k ==> !before(s[i], r[j])
      {
        k := k + 1;
      }
      InsertKeepsSorted(r, k, s[i], before);
      assert r == r[..k] + r[k..];
      assert s[..i + 1] == s[..i] + [s[i]];
      r := r[..k] + [s[i]] + r[k..];
    }
    assert s[..|s|] == s;
  }
}
