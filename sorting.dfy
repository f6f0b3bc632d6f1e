/**
 * `sort.Slice(data, less)` with `less(i, j) = data[i].Start.Before(data[j].Start)`:
 * the rates are reordered in place by ascending start instant. Go's
 * `sort.Slice` is not stable, so nothing is promised about the relative
 * order of rates that start at the same instant.
 */
module RateSort {
  import opened Rates

  /** Non-decreasing by start instant. */
  ghost predicate SortedByStart(s: seq<Rate>) {
    forall i, j :: 0 <= i < j < |s| ==> s[i].start <= s[j].start
  }

  /** Exchanges two elements; everything else stays where it is. */
  method Swap(a: array<Rate>, i: int, j: int)
    requires 0 <= i < a.Length && 0 <= j < a.Length
    modifies a
    ensures a[i] == old(a[j]) && a[j] == old(a[i])
    ensures forall k :: 0 <= k < a.Length && k != i && k != j ==> a[k] == old(a[k])
    ensures multiset(a[..]) == multiset(old(a[..]))
  {
    a[i], a[j] := a[j], a[i];
  }

  /** Index of an earliest-starting rate in `a[from..]`. */
  method EarliestFrom(a: array<Rate>, from: int) returns (m: int)
    requires 0 <= from < a.Length
    ensures from <= m < a.Length
    ensures forall l :: from <= l < a.Length ==> a[m].start <= a[l].start
  {
    m := from;
    var j := from + 1;
    while j < a.Length
      invariant from <= m < a.Length && from < j <= a.Length
      invariant forall l :: from <= l < j ==> a[m].start <= a[l].start
    {
      if a[j].start < a[m].start {
        m := j;
      }
      j := j + 1;
    }
  }

  /**
   * The in-place sort, written as a selection sort: afterwards `a` is sorted
   * by start instant and holds the same rates as before.
   */
  method SortByStart(a: array<Rate>)
    modifies a
    ensures SortedByStart(a[..])
    ensures multiset(a[..]) == multiset(old(a[..]))
  {
    var i := 0;
    while i < a.Length
      invariant 0 <= i <= a.Length
      invariant forall k, l :: 0 <= k < l < i ==> a[k].start <= a[l].start
      invariant forall k, l :: 0 <= k < i <= l < a.Length ==> a[k].start <= a[l].start
      invariant multiset(a[..]) == multiset(old(a[..]))
    {
      var m := EarliestFrom(a, i);
      Swap(a, i, m);
      i := i + 1;
    }
  }
}
