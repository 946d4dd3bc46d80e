/** Quick sort with a median-of-three pivot, whose left recursion includes the pivot. */
module QuickSort {
  import opened Partitioning

  predicate SortedRange(a: seq<int>, lo: nat, hi: nat) {
    hi <= |a| && forall i, j :: lo <= i < j < hi ==> a[i] <= a[j]
  }

  /** The last element of the range is larger than all the others. */
  predicate StrictMaxAtEnd(a: seq<int>, begin: nat, end: int) {
    begin <= end < |a| && forall k :: begin <= k < end ==> a[k] < a[end]
  }

  /** `median_of_three_pivot`: moves its choice to `begin` and returns it. */
  method MedianOfThreePivot(nums: array<int>, begin: nat, end: nat) returns (pivot: int)
    requires begin < end < nums.Length
    modifies nums
    ensures Permuted(old(nums[..]), nums[..], begin, end + 1)
    ensures pivot == nums[begin]
    ensures StrictMaxAtEnd(old(nums[..]), begin, end) ==> nums[end] == old(nums[end]) > pivot
  {
    hide Permuted;
    var mid := (begin + end) / 2;
    var pos := begin;
    if nums[begin] <= nums[mid] && nums[mid] <= nums[end] {
      pos := mid;
    } else if nums[begin] <= nums[end] && nums[end] <= nums[mid] {
      pos := end;
    }
    ghost var a := nums[..];
    Swap(nums, pos, begin, begin, end + 1);
    pivot := nums[begin];
  }

  /** `partition`: a range whose strict maximum is last is always split before its end. */
  method Partition(nums: array<int>, begin: nat, end: nat) returns (pos: nat)
    requires begin < end < nums.Length
    modifies nums
    ensures Permuted(old(nums[..]), nums[..], begin, end + 1)
    ensures Separated(nums[..], begin, pos, end + 1)
    ensures StrictMaxAtEnd(old(nums[..]), begin, end) ==> pos < end
  {
    hide Permuted;
    ghost var a := nums[..];
    var pivot := MedianOfThreePivot(nums, begin, end);
    ghost var b := nums[..];
    pos := Sweep(nums, begin, end);
    PermutedTrans(a, b, nums[..], begin, end + 1);
  }

  lemma SortedAround(c: seq<int>, begin: nat, pos: nat, end: nat, x: int)
    requires begin <= pos <= end && SortedRange(c, begin, pos + 1) && SortedRange(c, pos + 1, end + 1)
    requires forall k :: begin <= k < pos + 1 ==> c[k] <= x
    requires forall k :: pos + 1 <= k < end + 1 ==> c[k] >= x
    ensures SortedRange(c, begin, end + 1)
  {}

  lemma SortedKept(b: seq<int>, c: seq<int>, lo: nat, hi: nat)
    requires SortedRange(b, lo, hi) && |c| == |b| && forall k :: lo <= k < hi ==> c[k] == b[k]
    ensures SortedRange(c, lo, hi)
  {}

  /** Rearranging the two parts of a separated range keeps them on their sides of the pivot. */
  lemma PartsStayApart(a: seq<int>, b: seq<int>, c: seq<int>, begin: nat, pos: nat, end: nat)
    requires Separated(a, begin, pos, end + 1) && Permuted(a, b, begin, pos + 1) && Permuted(b, c, pos + 1, end + 1)
    ensures |a| == |b| == |c| && end < |c|
    ensures forall k :: begin <= k < pos + 1 ==> b[k] == c[k] <= a[pos]
    ensures forall k :: pos + 1 <= k < end + 1 ==> c[k] >= a[pos]
  {
    hide Permuted;
    OutsideKept(a, b, begin, pos + 1);
    OutsideKept(b, c, pos + 1, end + 1);
    var x := a[pos];
    UpperKept(a, b, begin, pos + 1, x);
    LowerKept(b, c, pos + 1, end + 1, x);
  }

  /** The two sorted parts of a separated range make it sorted. */
  lemma PartsMakeSorted(a: seq<int>, b: seq<int>, c: seq<int>, begin: nat, pos: nat, end: nat)
    requires Separated(a, begin, pos, end + 1)
    requires Permuted(a, b, begin, pos + 1) && SortedRange(b, begin, pos + 1)
    requires Permuted(b, c, pos + 1, end + 1) && SortedRange(c, pos + 1, end + 1)
    ensures SortedRange(c, begin, end + 1) && Permuted(a, c, begin, end + 1)
  {
    assert begin <= pos <= end < |a|;
    hide *;
    PartsStayApart(a, b, c, begin, pos, end);
    SortedKept(b, c, begin, pos + 1);
    SortedAround(c, begin, pos, end, a[pos]);
    PermutedJoin(a, b, c, begin, pos + 1, end + 1);
  }

  /**
    The recursive `qsort`. When the pivot lands at the end the left call has the same range, but then the
    range has its strict maximum last, and that call splits it before the end.
   */
  method QSort(nums: array<int>, begin: nat, end: int)
    requires begin <= end + 1 <= nums.Length
    modifies nums
    ensures SortedRange(nums[..], begin, end + 1) && Permuted(old(nums[..]), nums[..], begin, end + 1)
    decreases end + 1 - begin, if StrictMaxAtEnd(nums[..], begin, end) then 0 else 1
  {
    hide Permuted;
    PermutedSelf(nums[..], begin, end + 1);
    if begin < end {
      ghost var a := nums[..];
      var pos := Partition(nums, begin, end);
      ghost var b := nums[..];
      QSort(nums, begin, pos);
      ghost var c := nums[..];
      QSort(nums, pos + 1, end);
      PartsMakeSorted(b, c, nums[..], begin, pos, end);
      PermutedTrans(a, b, nums[..], begin, end + 1);
    }
  }

  /** `qsort` on a non-empty vector; on an empty one `size() - 1` wraps around. */
  method Sort(nums: array<int>)
    requires nums.Length > 0
    modifies nums
    ensures SortedRange(nums[..], 0, nums.Length) && multiset(nums[..]) == multiset(old(nums[..]))
  {
    ghost var a := nums[..];
    QSort(nums, 0, nums.Length - 1);
    assert a[0..nums.Length] == a && nums[..][0..nums.Length] == nums[..];
  }
}
