/** Sorting of list items: Hoare's quicksort on an array of items, and the sorted copy of a list. */
module ListSorting {
  import opened Sequences

  /** What sorting relies on: the comparator orders all items, ties allowed. As in C, only signs matter. */
  ghost predicate TotalPreorder<T(!new)>(compare: (T, T) -> int) {
    && (forall x, y :: compare(x, y) < 0 <==> compare(y, x) > 0)
    && (forall x, y, z :: compare(x, y) <= 0 && compare(y, z) <= 0 ==> compare(x, z) <= 0)
  }

  ghost predicate Sorted<T>(items: seq<T>, compare: (T, T) -> int) {
    forall i, j :: 0 <= i < j < |items| ==> compare(items[i], items[j]) <= 0
  }

  ghost predicate AllUpTo<T>(items: seq<T>, pivot: T, compare: (T, T) -> int) {
    forall i :: 0 <= i < |items| ==> compare(items[i], pivot) <= 0
  }

  ghost predicate AllFrom<T>(items: seq<T>, pivot: T, compare: (T, T) -> int) {
    forall i :: 0 <= i < |items| ==> compare(items[i], pivot) >= 0
  }

  method Swap<T>(items: array<T>, i: nat, j: nat)
    requires i < j < items.Length
    modifies items
    ensures items[..] == old(items[..])[i := old(items[j])][j := old(items[i])]
    ensures multiset(items[..]) == old(multiset(items[..]))
  {
    var tmp := items[i];
    items[i] := items[j];
    items[j] := tmp;
  }

  /** Where a partition stands: everything up to `i` is not above the pivot, everything from `j` on not below. */
  ghost predicate Split<T>(items: seq<T>, lower: nat, upper: nat, i: int, j: int, pivot: T, compare: (T, T) -> int) {
    && lower - 1 <= i < j <= upper + 1 <= |items|
    && (forall k :: lower <= k <= i ==> compare(items[k], pivot) <= 0)
    && (forall k :: j <= k <= upper ==> compare(items[k], pivot) >= 0)
  }

  /**
   Splits `items[lower..upper + 1]` around the item found at `lower`: afterwards no item up to the returned
   index comes after one beyond it, and both parts are non-empty.
   */
  method Partition<T>(items: array<T>, lower: nat, upper: nat, compare: (T, T) -> int) returns (split: nat)
    requires lower < upper < items.Length && compare(items[lower], items[lower]) == 0
    modifies items
    ensures lower <= split < upper
    ensures forall k :: lower <= k <= split ==> compare(items[k], old(items[lower])) <= 0
    ensures forall k :: split < k <= upper ==> compare(items[k], old(items[lower])) >= 0
    ensures items[..lower] == old(items[..lower]) && items[upper + 1..] == old(items[upper + 1..])
    ensures multiset(items[..]) == old(multiset(items[..]))
  {
    var pivot := items[lower];
    var i: int := lower - 1;
    var j: int := upper + 1;
    while true
      invariant Split(items[..], lower, upper, i, j, pivot, compare)
      invariant if i < lower then j == upper + 1 && items[lower] == pivot else j <= upper
      invariant items[..lower] == old(items[..lower]) && items[upper + 1..] == old(items[upper + 1..])
      invariant multiset(items[..]) == old(multiset(items[..]))
      decreases j - i
    {
      // the items at these two places stop the scans
      ghost var bottom, top := if i < lower then lower else i, if i < lower then lower else j;
      i := ScanUp(items, i + 1, top, pivot, compare);
      j := ScanDown(items, j - 1, bottom, pivot, compare);
      if i >= j {
        return j;
      }
      Swap(items, i, j);
    }
  }

  /** Moves up from `from` to the first item not below the pivot; `stop` is one such item. */
  method ScanUp<T>(items: array<T>, from: nat, ghost stop: nat, pivot: T, compare: (T, T) -> int) returns (i: nat)
    requires from <= stop < items.Length && compare(items[stop], pivot) >= 0
    ensures from <= i <= stop && compare(items[i], pivot) >= 0
    ensures forall k :: from <= k < i ==> compare(items[k], pivot) < 0
  {
    i := from;
    while compare(items[i], pivot) < 0
      invariant from <= i <= stop
      invariant forall k :: from <= k < i ==> compare(items[k], pivot) < 0
      decreases stop - i
    {
      i := i + 1;
    }
  }

  /** Moves down from `from` to the first item not above the pivot; `stop` is one such item. */
  method ScanDown<T>(items: array<T>, from: nat, ghost stop: nat, pivot: T, compare: (T, T) -> int) returns (j: nat)
    requires stop <= from < items.Length && compare(items[stop], pivot) <= 0
    ensures stop <= j <= from && compare(items[j], pivot) <= 0
    ensures forall k :: j < k <= from ==> compare(items[k], pivot) > 0
  {
    j := from;
    while compare(items[j], pivot) > 0
      invariant stop <= j <= from
      invariant forall k :: j < k <= from ==> compare(items[k], pivot) > 0
      decreases j - stop
    {
      j := j - 1;
    }
  }

  /** If only the middle of a sequence changed, its parts outside kept their items, so the middle did too. */
  lemma {:induction false} MiddleKeepsItems<T(!new)>(before: seq<T>, after: seq<T>, from: nat, to: nat)
    requires from <= to <= |before| == |after|
    requires before[..from] == after[..from] && before[to..] == after[to..]
    requires multiset(before) == multiset(after)
    ensures multiset(before[from..to]) == multiset(after[from..to])
  {
    assert before == before[..from] + before[from..to] + before[to..];
    assert after == after[..from] + after[from..to] + after[to..];
    forall x: T
      ensures multiset(before[from..to])[x] == multiset(after[from..to])[x]
    {
      assert multiset(before)[x] ==
             multiset(before[..from])[x] + multiset(before[from..to])[x] + multiset(before[to..])[x];
      assert multiset(after)[x] == multiset(after[..from])[x] + multiset(after[from..to])[x] + multiset(after[to..])[x];
    }
  }

  lemma {:induction false} BoundsSurvivePermutation<T>(before: seq<T>, after: seq<T>, pivot: T, compare: (T, T) -> int)
    requires multiset(before) == multiset(after)
    ensures AllUpTo(before, pivot, compare) ==> AllUpTo(after, pivot, compare)
    ensures AllFrom(before, pivot, compare) ==> AllFrom(after, pivot, compare)
  {
    forall i | 0 <= i < |after|
      ensures after[i] in before
    {
      assert after[i] in multiset(after);
    }
  }

  lemma {:induction false} SortedAround<T(!new)>(left: seq<T>, right: seq<T>, pivot: T, compare: (T, T) -> int)
    requires TotalPreorder(compare) && Sorted(left, compare) && Sorted(right, compare)
    requires AllUpTo(left, pivot, compare) && AllFrom(right, pivot, compare)
    ensures Sorted(left + right, compare)
  {
    var all := left + right;
    forall i, j | 0 <= i < j < |all|
      ensures compare(all[i], all[j]) <= 0
    {
      if i < |left| <= j {
        assert compare(all[i], pivot) <= 0 && compare(pivot, all[j]) <= 0;
      }
    }
  }

  /** Sorts `items[lower..upper + 1]` in place and leaves everything else alone. */
  method QuickSort<T(!new)>(items: array<T>, lower: int, upper: int, compare: (T, T) -> int)
    requires TotalPreorder(compare) && upper < items.Length
    modifies items
    ensures lower < 0 || upper < lower ==> items[..] == old(items[..])
    ensures 0 <= lower <= upper ==> Sorted(items[lower..upper + 1], compare)
    ensures 0 <= lower <= upper ==> multiset(items[lower..upper + 1]) == multiset(old(items[lower..upper + 1]))
    ensures 0 <= lower <= upper ==>
              items[..lower] == old(items[..lower]) && items[upper + 1..] == old(items[upper + 1..])
    ensures multiset(items[..]) == multiset(old(items[..]))
    decreases upper - lower
  {
    if lower < 0 || upper < 0 || lower >= upper {
      return;
    }
    ghost var original := items[..];
    ghost var pivot := items[lower];
    var split := Partition(items, lower, upper, compare);
    ghost var parted := items[..];
    QuickSort(items, lower, split, compare);
    ghost var halfSorted := items[..];
    QuickSort(items, split + 1, upper, compare);
    SortedHalves(original, parted, halfSorted, items[..], lower, split, upper, pivot, compare);
  }

  lemma {:induction false} SortedHalves<T(!new)>(
    original: seq<T>, parted: seq<T>, halfSorted: seq<T>, sorted: seq<T>,
    lower: nat, split: nat, upper: nat, pivot: T, compare: (T, T) -> int)
    requires TotalPreorder(compare)
    requires lower <= split < upper < |original| == |parted| == |halfSorted| == |sorted|
    requires AllUpTo(parted[lower..split + 1], pivot, compare) && AllFrom(parted[split + 1..upper + 1], pivot, compare)
    requires original[..lower] == parted[..lower] == halfSorted[..lower]
    requires original[upper + 1..] == parted[upper + 1..] && parted[split + 1..] == halfSorted[split + 1..]
    requires multiset(original) == multiset(parted) == multiset(halfSorted) == multiset(sorted)
    requires Sorted(halfSorted[lower..split + 1], compare)
    requires multiset(parted[lower..split + 1]) == multiset(halfSorted[lower..split + 1])
    requires halfSorted[..split + 1] == sorted[..split + 1] && halfSorted[upper + 1..] == sorted[upper + 1..]
    requires Sorted(sorted[split + 1..upper + 1], compare)
    requires multiset(halfSorted[split + 1..upper + 1]) == multiset(sorted[split + 1..upper + 1])
    ensures sorted[..lower] == original[..lower] && sorted[upper + 1..] == original[upper + 1..]
    ensures Sorted(sorted[lower..upper + 1], compare)
    ensures multiset(sorted[lower..upper + 1]) == multiset(original[lower..upper + 1])
  {
    SortedInside(parted, halfSorted, sorted, lower, split, upper, pivot, compare);
    SameBefore(halfSorted, sorted, split + 1, lower, lower);
    SameBehind(parted, halfSorted, split + 1, upper + 1, upper + 1);
    MiddleKeepsItems(original, sorted, lower, upper + 1);
  }

  lemma {:induction false} SortedInside<T(!new)>(
    parted: seq<T>, halfSorted: seq<T>, sorted: seq<T>, lower: nat, split: nat, upper: nat, pivot: T,
    compare: (T, T) -> int)
    requires TotalPreorder(compare)
    requires lower <= split < upper < |parted| == |halfSorted| == |sorted|
    requires AllUpTo(parted[lower..split + 1], pivot, compare) && AllFrom(parted[split + 1..upper + 1], pivot, compare)
    requires parted[split + 1..] == halfSorted[split + 1..] && halfSorted[..split + 1] == sorted[..split + 1]
    requires Sorted(halfSorted[lower..split + 1], compare) && Sorted(sorted[split + 1..upper + 1], compare)
    requires multiset(parted[lower..split + 1]) == multiset(halfSorted[lower..split + 1])
    requires multiset(halfSorted[split + 1..upper + 1]) == multiset(sorted[split + 1..upper + 1])
    ensures Sorted(sorted[lower..upper + 1], compare)
  {
    SameBefore(halfSorted, sorted, split + 1, lower, split + 1);
    SameBehind(parted, halfSorted, split + 1, split + 1, upper + 1);
    TwoSortedParts(
      parted[lower..split + 1], parted[split + 1..upper + 1], sorted[lower..split + 1], sorted[split + 1..upper + 1],
      pivot, compare);
    Joined(sorted, lower, split + 1, upper + 1);
  }

  lemma {:induction false} TwoSortedParts<T(!new)>(
    lowParted: seq<T>, highParted: seq<T>, low: seq<T>, high: seq<T>, pivot: T, compare: (T, T) -> int)
    requires TotalPreorder(compare) && Sorted(low, compare) && Sorted(high, compare)
    requires AllUpTo(lowParted, pivot, compare) && AllFrom(highParted, pivot, compare)
    requires multiset(lowParted) == multiset(low) && multiset(highParted) == multiset(high)
    ensures Sorted(low + high, compare)
  {
    BoundsSurvivePermutation(lowParted, low, pivot, compare);
    BoundsSurvivePermutation(highParted, high, pivot, compare);
    SortedAround(low, high, pivot, compare);
  }

  lemma {:induction false} SameBefore<T>(a: seq<T>, b: seq<T>, m: nat, i: nat, j: nat)
    requires i <= j <= m <= |a| == |b| && a[..m] == b[..m]
    ensures a[i..j] == b[i..j] && a[..i] == b[..i]
  {
    assert a[..m][i..j] == a[i..j] && b[..m][i..j] == b[i..j];
    assert a[..m][..i] == a[..i] && b[..m][..i] == b[..i];
  }

  lemma {:induction false} SameBehind<T>(a: seq<T>, b: seq<T>, m: nat, i: nat, j: nat)
    requires m <= i <= j <= |a| == |b| && a[m..] == b[m..]
    ensures a[i..j] == b[i..j] && a[i..] == b[i..]
  {
    assert a[m..][i - m..j - m] == a[i..j] && b[m..][i - m..j - m] == b[i..j];
    assert a[m..][i - m..] == a[i..] && b[m..][i - m..] == b[i..];
  }

  /** A tracking list, as the values it holds from head to tail. */
  class List<T> {
    var values: seq<T>

    constructor ()
      ensures values == []
    {
      values := [];
    }

    method Append(value: T, itemAvailable: bool) returns (ok: bool)
      modifies this
      ensures ok <==> itemAvailable
      ensures values == old(values) + if ok then [value] else []
    {
      if itemAvailable {
        values := values + [value];
      }
      return itemAvailable;
    }
  }

  /**
   A new list with the same values in sorted order; the original is not touched. The last three parameters
   tell which allocations succeed: the list itself, the array to sort in, and how many list items.
   */
  method CopyListSorted<T(!new,0)>(
    original: List<T>, compare: (T, T) -> int, listAvailable: bool, arrayAvailable: bool, itemsAvailable: nat)
    returns (out: List?<T>)
    requires TotalPreorder(compare)
    ensures out != null <==>
            listAvailable && (original.values == [] || (arrayAvailable && |original.values| <= itemsAvailable))
    ensures out != null ==>
              fresh(out) && Sorted(out.values, compare) && multiset(out.values) == multiset(original.values)
  {
    if !listAvailable {
      return null;
    }
    var copy := new List<T>();
    if |original.values| == 0 {
      return copy;
    }
    if !arrayAvailable {
      return null;
    }
    var items := CollectSorted(original, compare);
    ghost var sorted := items[..];
    for i := 0 to items.Length
      invariant fresh(copy) && copy.values == sorted[..i] && items[..] == sorted && i <= itemsAvailable
    {
      var ok := copy.Append(items[i], i < itemsAvailable);
      if !ok {
        return null;
      }
    }
    assert copy.values == sorted;
    return copy;
  }

  /** The items of a non-empty list, collected in an array and sorted there. */
  method CollectSorted<T(!new,0)>(original: List<T>, compare: (T, T) -> int) returns (items: array<T>)
    requires TotalPreorder(compare) && original.values != []
    ensures fresh(items) && items.Length == |original.values|
    ensures Sorted(items[..], compare) && multiset(items[..]) == multiset(original.values)
  {
    items := CollectItems(original);
    QuickSort(items, 0, items.Length - 1, compare);
    assert items[..] == items[0..items.Length - 1 + 1];
  }

  /** Collects the items of a list in an array. */
  method CollectItems<T(0)>(original: List<T>) returns (items: array<T>)
    ensures fresh(items) && items[..] == original.values
  {
    var size := |original.values|;
    items := new T[size];
    for offset := 0 to size
      invariant items[..offset] == original.values[..offset]
    {
      items[offset] := original.values[offset];
    }
    assert items[..] == items[..size] && original.values[..size] == original.values;
  }
}
