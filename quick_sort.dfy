/** In-place quicksort of an array of events by start time, with the Lomuto
    partition: the last element of the range is the pivot, elements starting
    strictly earlier are swapped to the front, and the pivot is swapped in
    after them. */
module QuickSort {
  import opened Events

  /** Cells of `after` outside [lo, hi) are those of `before`. */
  ghost predicate SameOutside(before: seq<Event>, after: seq<Event>, lo: int, hi: int) {
    |before| == |after| &&
    forall k :: 0 <= k < |before| && !(lo <= k < hi) ==> after[k] == before[k]
  }

  /** Equal multisets stay equal when the same parts are taken off both. */
  lemma {:induction false} CancelParts(prefix: multiset<Event>, x: multiset<Event>, y: multiset<Event>, suffix: multiset<Event>)
    requires prefix + x + suffix == prefix + y + suffix
    ensures x == y
  {
    forall e ensures x[e] == y[e] {
      assert (prefix + x + suffix)[e] == (prefix + y + suffix)[e];
    }
  }

  /** A sequence is its three slices around [lo, hi). */
  lemma {:induction false} SplitAt(s: seq<Event>, lo: int, hi: int)
    requires 0 <= lo <= hi <= |s|
    ensures multiset(s) == multiset(s[..lo]) + multiset(s[lo..hi]) + multiset(s[hi..])
  {
    assert s == s[..lo] + s[lo..hi] + s[hi..];
  }

  /** A permutation of the whole sequence that leaves everything outside
      [lo, hi) in place permutes [lo, hi). */
  lemma {:induction false} PermutedSegment(before: seq<Event>, after: seq<Event>, lo: int, hi: int)
    requires 0 <= lo <= hi <= |before|
    requires multiset(after) == multiset(before) && SameOutside(before, after, lo, hi)
    ensures multiset(after[lo..hi]) == multiset(before[lo..hi])
  {
    assert after[..lo] == before[..lo];
    assert after[hi..] == before[hi..];
    SplitAt(before, lo, hi);
    SplitAt(after, lo, hi);
    CancelParts(multiset(before[..lo]), multiset(after[lo..hi]), multiset(before[lo..hi]), multiset(before[hi..]));
  }

  /** Each event in [lo, hi) after such a permutation was somewhere in
      [lo, hi) before it. */
  lemma {:induction false} CameFromSegment(before: seq<Event>, after: seq<Event>, lo: int, hi: int)
    requires 0 <= lo <= hi <= |before|
    requires multiset(after) == multiset(before) && SameOutside(before, after, lo, hi)
    ensures forall k :: lo <= k < hi ==> exists j :: lo <= j < hi && after[k] == before[j]
  {
    PermutedSegment(before, after, lo, hi);
    forall k | lo <= k < hi ensures exists j :: lo <= j < hi && after[k] == before[j] {
      assert after[k] == after[lo..hi][k - lo];
      assert after[k] in multiset(before[lo..hi]);
      var i :| 0 <= i < hi - lo && before[lo..hi][i] == after[k];
      var j := lo + i;
      assert lo <= j < hi && after[k] == before[j];
    }
  }

  lemma {:induction false} StaysBelow(before: seq<Event>, after: seq<Event>, lo: int, hi: int, bound: int)
    requires 0 <= lo <= hi <= |before|
    requires multiset(after) == multiset(before) && SameOutside(before, after, lo, hi)
    requires forall k :: lo <= k < hi ==> before[k].when.start < bound
    ensures forall k :: lo <= k < hi ==> after[k].when.start < bound
  {
    CameFromSegment(before, after, lo, hi);
  }

  lemma {:induction false} StaysAtLeast(before: seq<Event>, after: seq<Event>, lo: int, hi: int, bound: int)
    requires 0 <= lo <= hi <= |before|
    requires multiset(after) == multiset(before) && SameOutside(before, after, lo, hi)
    requires forall k :: lo <= k < hi ==> before[k].when.start >= bound
    ensures forall k :: lo <= k < hi ==> after[k].when.start >= bound
  {
    CameFromSegment(before, after, lo, hi);
  }

  /** Exchanges two cells, as the source does through a temporary. */
  method Swap(eventsArray: array<Event>, i: int, j: int)
    requires 0 <= i < eventsArray.Length && 0 <= j < eventsArray.Length
    modifies eventsArray
    ensures eventsArray[i] == old(eventsArray[j]) && eventsArray[j] == old(eventsArray[i])
    ensures forall k :: 0 <= k < eventsArray.Length && k != i && k != j ==> eventsArray[k] == old(eventsArray[k])
    ensures multiset(eventsArray[..]) == multiset(old(eventsArray[..]))
  {
    var temporaryEvent := eventsArray[i];
    eventsArray[i] := eventsArray[j];
    eventsArray[j] := temporaryEvent;
  }

  /** Partitions eventsArray[low..pivot] around the start of the event at
      `pivot` and returns where that event ends up: everything before it in
      the range starts strictly earlier, everything after it no earlier.
      Called with low > pivot, it only exchanges the two cells and returns
      `low`. */
  method Partition(eventsArray: array<Event>, low: int, pivot: int) returns (smallerIndex: int)
    requires 0 <= low < eventsArray.Length && 0 <= pivot < eventsArray.Length
    modifies eventsArray
    ensures low <= smallerIndex < eventsArray.Length && eventsArray[smallerIndex] == old(eventsArray[pivot])
    ensures multiset(eventsArray[..]) == multiset(old(eventsArray[..]))
    ensures low <= pivot ==> smallerIndex <= pivot
    ensures low <= pivot ==>
      forall k :: low <= k < smallerIndex ==> eventsArray[k].when.start < eventsArray[smallerIndex].when.start
    ensures low <= pivot ==>
      forall k :: smallerIndex < k <= pivot ==> eventsArray[k].when.start >= eventsArray[smallerIndex].when.start
    ensures low <= pivot ==> SameOutside(old(eventsArray[..]), eventsArray[..], low, pivot + 1)
    ensures pivot < low ==> smallerIndex == low && eventsArray[pivot] == old(eventsArray[low])
    ensures pivot < low ==>
      forall k :: 0 <= k < eventsArray.Length && k != low && k != pivot ==> eventsArray[k] == old(eventsArray[k])
  {
    ghost var pivotStart := eventsArray[pivot].when.start;
    smallerIndex := low - 1;
    var index := low;
    while index < pivot
      invariant low <= index && (index <= pivot || index == low)
      invariant low - 1 <= smallerIndex < index
      invariant eventsArray[pivot] == old(eventsArray[pivot])
      invariant forall k :: low <= k <= smallerIndex ==> eventsArray[k].when.start < pivotStart
      invariant forall k :: smallerIndex < k < index ==> eventsArray[k].when.start >= pivotStart
      invariant multiset(eventsArray[..]) == multiset(old(eventsArray[..]))
      invariant forall k :: 0 <= k < eventsArray.Length && !(low <= k < pivot) ==> eventsArray[k] == old(eventsArray[k])
    {
      if eventsArray[index].when.start < eventsArray[pivot].when.start {
        smallerIndex := smallerIndex + 1;
        Swap(eventsArray, index, smallerIndex);
      }
      index := index + 1;
    }
    smallerIndex := smallerIndex + 1;
    Swap(eventsArray, pivot, smallerIndex);
  }

  /** Sorts eventsArray[low..pivot] by start time in place; nothing happens
      when low >= pivot. */
  method Sort(eventsArray: array<Event>, low: int, pivot: int)
    requires low < pivot ==> 0 <= low && pivot < eventsArray.Length
    modifies eventsArray
    ensures multiset(eventsArray[..]) == multiset(old(eventsArray[..]))
    ensures SameOutside(old(eventsArray[..]), eventsArray[..], low, pivot + 1)
    ensures forall i, j :: low <= i < j <= pivot ==> eventsArray[i].when.start <= eventsArray[j].when.start
    decreases pivot - low
  {
    if low < pivot {
      var pivotIndex := Partition(eventsArray, low, pivot);
      ghost var partitioned := eventsArray[..];
      ghost var pivotStart := eventsArray[pivotIndex].when.start;

      Sort(eventsArray, low, pivotIndex - 1);
      ghost var left := eventsArray[..];
      StaysBelow(partitioned, left, low, pivotIndex, pivotStart);

      Sort(eventsArray, pivotIndex + 1, pivot);
      StaysAtLeast(left, eventsArray[..], pivotIndex + 1, pivot + 1, pivotStart);
      assert forall k :: low <= k < pivotIndex ==> eventsArray[k] == left[k];
    }
  }
}
