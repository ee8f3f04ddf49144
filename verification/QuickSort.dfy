/**
 The demo quicksort: a partition whose inner scans have no bounds check, and the
 recursion over the two segments it leaves.
 */
module QuickSort {
  // b is a rearranged within [lo, hi) and equal to a elsewhere.
  ghost predicate Permuted(a: seq<int>, b: seq<int>, lo: nat, hi: nat) {
    && lo <= hi <= |a| && |a| == |b|
    && a[..lo] == b[..lo] && a[hi..] == b[hi..]
    && multiset(a[lo..hi]) == multiset(b[lo..hi])
  }

  function Swapped(a: seq<int>, i: nat, j: nat): (b: seq<int>)
    requires i < |a| && j < |a|
    ensures |b| == |a|
  {
    a[i := a[j]][j := a[i]]
  }

  lemma SwapPermutes(a: seq<int>, i: nat, j: nat, lo: nat, hi: nat)
    requires lo <= i <= j < hi <= |a|
    ensures Permuted(a, Swapped(a, i, j), lo, hi)
  {
    var b := Swapped(a, i, j);
    var s, t := a[lo..hi], b[lo..hi];
    assert t == s[i - lo := s[j - lo]][j - lo := s[i - lo]];
  }

  lemma PermutedTransitive(a: seq<int>, b: seq<int>, c: seq<int>, lo: nat, hi: nat)
    requires Permuted(a, b, lo, hi) && Permuted(b, c, lo, hi)
    ensures Permuted(a, c, lo, hi)
  {
  }

  lemma PermutedWiden(a: seq<int>, b: seq<int>, lo: nat, hi: nat, lo': nat, hi': nat)
    requires Permuted(a, b, lo, hi) && lo' <= lo && hi <= hi' <= |a|
    ensures Permuted(a, b, lo', hi')
  {
    var x, z := a[lo'..lo], a[hi..hi'];
    assert x == a[..lo][lo'..] == b[..lo][lo'..] == b[lo'..lo];
    assert z == a[hi..][..hi' - hi] == b[hi..][..hi' - hi] == b[hi..hi'];
    assert a[lo'..hi'] == x + a[lo..hi] + z;
    assert b[lo'..hi'] == x + b[lo..hi] + z;
    assert a[..lo'] == a[..lo][..lo'] && b[..lo'] == b[..lo][..lo'];
    assert a[hi'..] == a[hi..][hi' - hi..] && b[hi'..] == b[hi..][hi' - hi..];
  }

  ghost predicate AtMost(a: seq<int>, lo: int, hi: int, p: int)
    requires 0 <= lo && hi <= |a|
  {
    forall k :: lo <= k < hi ==> a[k] <= p
  }

  ghost predicate AtLeast(a: seq<int>, lo: int, hi: int, p: int)
    requires 0 <= lo && hi <= |a|
  {
    forall k :: lo <= k < hi ==> p <= a[k]
  }

  // Rearranging a segment, or another one, keeps its bounds.
  lemma BoundsStay(a: seq<int>, b: seq<int>, lo: nat, hi: nat, p: int)
    requires Permuted(a, b, lo, hi)
    ensures AtMost(a, lo, hi, p) ==> AtMost(b, lo, hi, p)
    ensures AtLeast(a, lo, hi, p) ==> AtLeast(b, lo, hi, p)
  {
    forall k | lo <= k < hi
      ensures b[k] in multiset(a[lo..hi])
    {
      assert b[lo..hi][k - lo] == b[k];
      assert b[k] in multiset(b[lo..hi]);
    }
  }

  lemma Elsewhere(a: seq<int>, b: seq<int>, lo: nat, hi: nat)
    requires Permuted(a, b, lo, hi)
    ensures forall k :: 0 <= k < lo || hi <= k < |a| ==> a[k] == b[k]
  {
    forall k | 0 <= k < lo || hi <= k < |a|
      ensures a[k] == b[k]
    {
      if k < lo {
        assert a[k] == a[..lo][k] == b[..lo][k];
      } else {
        assert a[k] == a[hi..][k - hi] == b[hi..][k - hi];
      }
    }
  }

  ghost predicate Sorted(a: seq<int>, lo: int, hi: int)
    requires 0 <= lo && hi <= |a|
  {
    forall i, j :: lo <= i < j < hi ==> a[i] <= a[j]
  }

  // ---------------------------------------------------------------- 32-bit indices

  function ToInt(n: int): int {
    var r := n % 0x1_0000_0000;
    if r < 0x8000_0000 then r else r - 0x1_0000_0000
  }

  // Division truncates towards zero.
  function Halve(n: int): int {
    if n >= 0 then n / 2 else -((-n) / 2)
  }

  function Middle(left: int, right: int): int {
    Halve(ToInt(left + right))
  }

  /** The index sum may exceed 32 bits; the middle lies in the segment exactly when it does not. */
  lemma MiddleExactly(left: int, right: int)
    requires 0 <= left <= right < 0x8000_0000
    ensures left <= Middle(left, right) <= right <==> left + right < 0x8000_0000
    ensures left < right && left + right < 0x8000_0000 ==> Middle(left, right) < right
    ensures left + right < 0x8000_0000 ==> 2 * Middle(left, right) <= left + right <= 2 * Middle(left, right) + 1
    ensures left + right >= 0x8000_0000 ==> Middle(left, right) < 0
  {
  }

  // ---------------------------------------------------------------- the algorithm

  ghost predicate AllBelow(a: seq<int>, lo: int, hi: int, p: int)
    requires 0 <= lo && hi <= |a|
  {
    forall k :: lo <= k < hi ==> a[k] < p
  }

  ghost predicate AllAbove(a: seq<int>, lo: int, hi: int, p: int)
    requires 0 <= lo && hi <= |a|
  {
    forall k :: lo <= k < hi ==> p < a[k]
  }

  // The scans test no bounds: an element that stops them is known to lie ahead.
  method ScanUp(arr: array<int>, from: int, pivot: int, ghost a: seq<int>, ghost stop: int) returns (i: int)
    requires a == arr[..] && 0 <= from <= stop < |a| && pivot <= a[stop]
    ensures from <= i <= stop && pivot <= a[i] && AllBelow(a, from, i, pivot)
  {
    i := from;
    while arr[i] < pivot
      invariant from <= i <= stop && AllBelow(a, from, i, pivot)
      decreases stop - i
    {
      i := i + 1;
    }
  }

  method ScanDown(arr: array<int>, from: int, pivot: int, ghost a: seq<int>, ghost stop: int) returns (j: int)
    requires a == arr[..] && 0 <= stop <= from < |a| && a[stop] <= pivot
    ensures stop <= j <= from && a[j] <= pivot && AllAbove(a, j + 1, from + 1, pivot)
  {
    j := from;
    while arr[j] > pivot
      invariant stop <= j <= from && AllAbove(a, j + 1, from + 1, pivot)
      decreases j
    {
      j := j - 1;
    }
  }

  method Swap(arr: array<int>, i: int, j: int, ghost was: seq<int>, ghost lo: nat, ghost hi: nat)
    requires lo <= i <= j < hi <= arr.Length && was == arr[..]
    modifies arr
    ensures arr[..] == Swapped(was, i, j)
    ensures Permuted(was, arr[..], lo, hi)
  {
    SwapPermutes(was, i, j, lo, hi);
    var tmp := arr[i];
    arr[i] := arr[j];
    arr[j] := tmp;
    assert arr[..] == Swapped(was, i, j);
  }

  // Everything before i is at most the pivot and everything behind j at least the pivot.
  ghost predicate Split(a: seq<int>, left: int, i: int, j: int, right: int, pivot: int)
    requires 0 <= left && right < |a|
  {
    && left <= i <= right + 1 && left - 1 <= j <= right
    && AtMost(a, left, i, pivot) && AtLeast(a, j + 1, right + 1, pivot)
  }

  lemma SplitSwap(a: seq<int>, left: int, i0: int, i: int, j: int, j0: int, right: int, pivot: int)
    requires 0 <= left && right < |a| && Split(a, left, i0, j0, right, pivot)
    requires i0 <= i <= j <= j0 && a[j] <= pivot <= a[i]
    requires AllBelow(a, i0, i, pivot) && AllAbove(a, j + 1, j0 + 1, pivot)
    ensures Split(Swapped(a, i, j), left, i + 1, j - 1, right, pivot)
  {
  }

  lemma SplitEnd(a: seq<int>, left: int, i0: int, i: int, j: int, j0: int, right: int, pivot: int)
    requires 0 <= left && right < |a| && Split(a, left, i0, j0, right, pivot)
    requires i0 <= i <= right + 1 && left - 1 <= j <= j0
    requires AllBelow(a, i0, i, pivot) && AllAbove(a, j + 1, j0 + 1, pivot)
    ensures Split(a, left, i, j, right, pivot)
  {
  }

  lemma SplitDone(a: seq<int>, left: int, i: int, j: int, right: int, pivot: int)
    requires 0 <= left && right < |a| && Split(a, left, i, j, right, pivot) && j < i
    ensures AtMost(a, left, i, pivot) && AtLeast(a, i, right + 1, pivot)
  {
  }

  // One pass: both scans, and the exchange if they have not crossed.
  method Pass(arr: array<int>, left: int, right: int, i0: int, j0: int, pivot: int, ghost up: int, ghost down: int,
              ghost was: seq<int>)
    returns (i: int, j: int, exchanged: bool)
    requires 0 <= left <= i0 <= j0 <= right < arr.Length && was == arr[..]
    requires i0 <= up <= right && up <= j0 + 1 && left <= down <= j0 && i0 - 1 <= down
    requires Split(was, left, i0, j0, right, pivot) && pivot <= was[up] && was[down] <= pivot
    modifies arr
    ensures exchanged ==> i0 < i <= up + 1 && down - 1 <= j < j0 && i <= j0 + 1
    ensures !exchanged ==> i0 <= i <= up && down <= j <= j0 && j < i
    ensures Split(arr[..], left, i, j, right, pivot) && Permuted(was, arr[..], left, right + 1)
  {
    hide Permuted;
    hide Split;
    hide Swapped;
    hide AllBelow;
    hide AllAbove;
    i := ScanUp(arr, i0, pivot, was, up);
    j := ScanDown(arr, j0, pivot, was, down);
    exchanged := i <= j;
    if i <= j {
      SplitSwap(was, left, i0, i, j, j0, right, pivot);
      Swap(arr, i, j, was, left, right + 1);
      i := i + 1;
      j := j - 1;
    } else {
      SplitEnd(was, left, i0, i, j, j0, right, pivot);
      Reflexive(was, left, right + 1);
    }
  }

  // The pivot can be read exactly in a segment that is not empty and whose sum does not overflow.
  lemma PivotExactly(length: nat, left: int, right: int)
    requires Segment(length, left, right)
    ensures 0 <= Middle(left, right) < length <==> left <= right && left + right < 0x8000_0000
    ensures left <= right && left + right < 0x8000_0000 ==> left <= Middle(left, right) <= right
    ensures left < right && left + right < 0x8000_0000 ==> Middle(left, right) < right
  {
    if left <= right { MiddleExactly(left, right); }
  }

  // A segment of an array, or all of an empty one.
  predicate Segment(length: nat, left: int, right: int) {
    length < 0x8000_0000 && (0 <= left <= right < length || (length == 0 && left == 0 && right == -1))
  }

  /** Splits a segment, or answers false where reading the pivot throws: exactly when the
      segment is empty or its index sum overflows. Then nothing was changed. */
  method Partition(arr: array<int>, left: int, right: int) returns (ok: bool, index: int)
    requires Segment(arr.Length, left, right)
    modifies arr
    ensures ok <==> left <= right && left + right < 0x8000_0000
    ensures !ok ==> arr[..] == old(arr[..])
    ensures ok ==> left < index && (left < right ==> index <= right) && index <= right + 1
    ensures ok ==> Permuted(old(arr[..]), arr[..], left, right + 1)
    ensures ok ==> exists p :: AtMost(arr[..], left, index, p) && AtLeast(arr[..], index, right + 1, p)
  {
    var mid := Middle(left, right);
    PivotExactly(arr.Length, left, right);
    ok := 0 <= mid < arr.Length;
    index := left;
    if ok {
      index := PartitionAround(arr, left, right, mid);
    }
  }

  method PartitionAround(arr: array<int>, left: int, right: int, mid: int) returns (index: int)
    requires 0 <= left <= mid <= right < arr.Length && (left < right ==> mid < right)
    modifies arr
    ensures left < index && (left < right ==> index <= right) && index <= right + 1
    ensures Permuted(old(arr[..]), arr[..], left, right + 1)
    ensures exists p :: AtMost(arr[..], left, index, p) && AtLeast(arr[..], index, right + 1, p)
  {
    hide Permuted;
    hide Middle;
    hide AtMost;
    hide AtLeast;
    hide Split;
    ghost var start := arr[..];
    ghost var now := start;
    var i, j := left, right;
    var pivot := arr[mid];
    ghost var first := true;
    Reflexive(now, left, right + 1);
    NothingSplit(now, left, right, pivot);
    while i <= j
      invariant now == arr[..] && left <= i <= right + 1 && left - 1 <= j <= right
      invariant Split(now, left, i, j, right, pivot)
      invariant first ==> i == left && j == right && now[mid] == pivot
      invariant !first ==> left < i && j < right && (left < right ==> i <= right)
      invariant Permuted(start, now, left, right + 1)
      decreases j - i + 2
    {
      ghost var was := now;
      Sentinels(was, left, i, j, right, pivot);
      var more;
      i, j, more := Pass(arr, left, right, i, j, pivot, if first then mid else j + 1, if first then mid else i - 1, was);
      now := arr[..];
      PermutedTransitive(start, was, now, left, right + 1);
      first := first && !more;
    }
    SplitDone(now, left, i, j, right, pivot);
    return i;
  }

  lemma NothingSplit(a: seq<int>, left: int, right: int, pivot: int)
    requires 0 <= left <= right < |a|
    ensures Split(a, left, left, right, right, pivot)
  {
  }

  // Elements already on their side stop the scans.
  lemma Sentinels(a: seq<int>, left: int, i: int, j: int, right: int, pivot: int)
    requires 0 <= left && right < |a| && Split(a, left, i, j, right, pivot)
    ensures j < right ==> pivot <= a[j + 1]
    ensures left < i ==> a[i - 1] <= pivot
  {
  }

  /** The segment ends up sorted, or reading a pivot threw; in both cases it holds the same
      elements as before, and nothing outside it changes. Nothing is thrown when the sum of the
      bounds does not overflow and the segment ends at 2^30 at the latest: recursion moves the
      left bound up to the right one. */
  method Sort(arr: array<int>, left: int, right: int) returns (ok: bool)
    requires Segment(arr.Length, left, right)
    modifies arr
    ensures left <= right && left + right < 0x8000_0000 && right <= 0x4000_0000 ==> ok
    ensures left > right || left + right >= 0x8000_0000 ==> !ok && arr[..] == old(arr[..])
    ensures ok ==> Sorted(arr[..], left, right + 1)
    ensures Permuted(old(arr[..]), arr[..], left, right + 1)
    decreases right - left + 1, 1
  {
    hide Permuted;
    hide Sorted;
    hide AtMost;
    hide AtLeast;
    ghost var a0 := arr[..];
    var index;
    Reflexive(a0, left, right + 1);
    ok, index := Partition(arr, left, right);
    if ok {
      ok := SortParts(arr, left, index, right, a0);
    }
  }

  // Both parts of a partition, the left one first.
  method SortParts(arr: array<int>, left: int, index: int, right: int, ghost a0: seq<int>) returns (ok: bool)
    requires 0 <= left <= right < arr.Length < 0x8000_0000 && left < index <= right + 1 && (left < right ==> index <= right)
    requires Permuted(a0, arr[..], left, right + 1)
    requires exists p :: AtMost(arr[..], left, index, p) && AtLeast(arr[..], index, right + 1, p)
    modifies arr
    ensures right <= 0x4000_0000 ==> ok
    ensures ok ==> Sorted(arr[..], left, right + 1)
    ensures Permuted(a0, arr[..], left, right + 1)
    decreases right - left + 1, 0
  {
    hide Permuted;
    hide Sorted;
    hide AtMost;
    hide AtLeast;
    ghost var a1 := arr[..];
    ok := SortPart(arr, left, index - 1, a0, left, right + 1);
    if ok {
      ghost var a2 := arr[..];
      ok := SortPart(arr, index, right, a0, left, right + 1);
      if ok { SortedParts(a0, a1, a2, arr[..], left, index, right + 1); }
    }
  }

  // One of the two parts of a partition; a part of one element stays as it is.
  method SortPart(arr: array<int>, from: int, last: int, ghost a0: seq<int>, ghost lo: nat, ghost hi: nat) returns (ok: bool)
    requires 0 <= lo <= from <= last + 1 <= hi <= arr.Length < 0x8000_0000 && Permuted(a0, arr[..], lo, hi)
    modifies arr
    ensures last <= 0x4000_0000 ==> ok
    ensures ok ==> Sorted(arr[..], from, last + 1)
    ensures Permuted(old(arr[..]), arr[..], from, last + 1) && Permuted(a0, arr[..], lo, hi)
    decreases if from < last then last - from + 1 else 0, 2
  {
    hide Permuted;
    hide Sorted;
    ghost var a1 := arr[..];
    ok := true;
    Reflexive(a1, from, last + 1);
    ShortSorted(a1, from, last + 1);
    if from < last {
      ok := Sort(arr, from, last);
    }
    PartPermuted(a0, a1, arr[..], lo, from, last + 1, hi);
  }

  // Rearranging a part rearranges the whole.
  lemma PartPermuted(a: seq<int>, b: seq<int>, c: seq<int>, lo: nat, from: nat, last: nat, hi: nat)
    requires Permuted(a, b, lo, hi) && Permuted(b, c, from, last) && lo <= from && last <= hi <= |b|
    ensures Permuted(a, c, lo, hi)
  {
    PermutedWiden(b, c, from, last, lo, hi);
    PermutedTransitive(a, b, c, lo, hi);
  }

  lemma ShortSorted(a: seq<int>, lo: nat, hi: nat)
    requires lo <= hi <= |a|
    ensures hi <= lo + 1 ==> Sorted(a, lo, hi)
  {
  }

  // Sorting the two parts of a partition one after the other sorts the whole.
  lemma SortedParts(a0: seq<int>, a1: seq<int>, a2: seq<int>, a3: seq<int>, lo: nat, mid: nat, hi: nat)
    requires lo <= mid <= hi
    requires Permuted(a0, a1, lo, hi) && Permuted(a1, a2, lo, mid) && Permuted(a2, a3, mid, hi)
    requires exists p :: AtMost(a1, lo, mid, p) && AtLeast(a1, mid, hi, p)
    requires Sorted(a2, lo, mid) && Sorted(a3, mid, hi)
    ensures Sorted(a3, lo, hi) && Permuted(a0, a3, lo, hi)
  {
    var p :| AtMost(a1, lo, mid, p) && AtLeast(a1, mid, hi, p);
    BoundsStay(a1, a2, lo, mid, p);
    Elsewhere(a1, a2, lo, mid);
    BoundsStay(a2, a3, mid, hi, p);
    Elsewhere(a2, a3, mid, hi);
    assert AtMost(a3, lo, mid, p) && AtLeast(a3, mid, hi, p);
    PermutedWiden(a1, a2, lo, mid, lo, hi);
    PermutedWiden(a2, a3, mid, hi, lo, hi);
    PermutedTransitive(a1, a2, a3, lo, hi);
    PermutedTransitive(a0, a1, a3, lo, hi);
  }

  lemma Reflexive(a: seq<int>, lo: nat, hi: nat)
    requires lo <= hi <= |a|
    ensures Permuted(a, a, lo, hi)
  {
  }

  /** An array ends up sorted, or a pivot could not be read; never for 1 to 2^30 + 1 elements,
      always for the empty array. In both cases it holds the same elements as before. */
  method SortArray(arr: array<int>) returns (ok: bool)
    requires arr.Length < 0x8000_0000
    modifies arr
    ensures 0 < arr.Length <= 0x4000_0001 ==> ok
    ensures arr.Length == 0 ==> !ok
    ensures ok ==> Sorted(arr[..], 0, arr.Length)
    ensures multiset(arr[..]) == multiset(old(arr[..]))
  {
    ok := Sort(arr, 0, arr.Length - 1);
    assert arr[..][0..arr.Length] == arr[..] && old(arr[..])[0..arr.Length] == old(arr[..]);
  }
}
