/** Rearranging part of an array around a pivot, as the sort and the selection do. */
module Partitioning {

  /** `b` is `a` with only the elements from `lo` up to `hi` rearranged. */
  ghost predicate Permuted(a: seq<int>, b: seq<int>, lo: nat, hi: nat) {
    && |a| == |b| && lo <= hi <= |a|
    && a[..lo] == b[..lo] && a[hi..] == b[hi..]
    && multiset(a[lo..hi]) == multiset(b[lo..hi])
  }

  lemma PermutedTrans(a: seq<int>, b: seq<int>, c: seq<int>, lo: nat, hi: nat)
    requires Permuted(a, b, lo, hi) && Permuted(b, c, lo, hi)
    ensures Permuted(a, c, lo, hi)
  {}

  lemma PermutedSelf(a: seq<int>, lo: nat, hi: nat)
    requires lo <= hi <= |a|
    ensures Permuted(a, a, lo, hi)
  {}

  lemma OutsideKept(a: seq<int>, b: seq<int>, lo: nat, hi: nat)
    requires Permuted(a, b, lo, hi)
    ensures |a| == |b| && hi <= |a|
    ensures forall k :: 0 <= k < lo || hi <= k < |a| ==> a[k] == b[k]
  {
    assert forall k :: 0 <= k < lo ==> a[k] == a[..lo][k] && b[k] == b[..lo][k];
    assert forall k :: hi <= k < |a| ==> a[k] == a[hi..][k - hi] && b[k] == b[hi..][k - hi];
  }

  lemma Split3(a: seq<int>, lo: nat, lo': nat, hi': nat, hi: nat)
    requires lo <= lo' <= hi' <= hi <= |a|
    ensures multiset(a[lo..hi]) == multiset(a[lo..lo']) + multiset(a[lo'..hi']) + multiset(a[hi'..hi])
  {
    assert a[lo..hi] == a[lo..lo'] + a[lo'..hi'] + a[hi'..hi];
  }

  /** Rearranging a part of the range rearranges the range. */
  lemma PermutedWiden(a: seq<int>, b: seq<int>, lo': nat, hi': nat, lo: nat, hi: nat)
    requires Permuted(a, b, lo', hi') && lo <= lo' && hi' <= hi <= |a|
    ensures Permuted(a, b, lo, hi)
  {
    assert a[..lo'][..lo] == a[..lo] && b[..lo'][..lo] == b[..lo];
    assert a[hi'..][hi - hi'..] == a[hi..] && b[hi'..][hi - hi'..] == b[hi..];
    assert a[..lo'][lo..] == a[lo..lo'] && b[..lo'][lo..] == b[lo..lo'];
    assert a[hi'..][..hi - hi'] == a[hi'..hi] && b[hi'..][..hi - hi'] == b[hi'..hi];
    Split3(a, lo, lo', hi', hi);
    Split3(b, lo, lo', hi', hi);
  }

  lemma SwapPermutes(a: seq<int>, i: nat, j: nat, lo: nat, hi: nat)
    requires lo <= i < hi <= |a| && lo <= j < hi
    ensures Permuted(a, a[i := a[j]][j := a[i]], lo, hi)
  {
    var b := a[i := a[j]][j := a[i]];
    assert b[lo..hi] == a[lo..hi][i - lo := a[j]][j - lo := a[i]];
  }

  /** Every element of the rearranged part was in that part before. */
  lemma CameFrom(a: seq<int>, b: seq<int>, lo: nat, hi: nat, k: nat) returns (j: nat)
    requires Permuted(a, b, lo, hi) && lo <= k < hi
    ensures lo <= j < hi && a[j] == b[k]
  {
    assert b[lo..hi][k - lo] in multiset(b[lo..hi]);
    assert b[k] in a[lo..hi];
    var m :| 0 <= m < hi - lo && a[lo..hi][m] == b[k];
    j := lo + m;
  }

  /** A bound on the part survives rearranging it. */
  lemma UpperKept(a: seq<int>, b: seq<int>, lo: nat, hi: nat, x: int)
    requires Permuted(a, b, lo, hi) && forall k :: lo <= k < hi ==> a[k] <= x
    ensures forall k :: lo <= k < hi ==> b[k] <= x
  {
    forall k | lo <= k < hi
      ensures b[k] <= x
    {
      var j := CameFrom(a, b, lo, hi, k);
    }
  }

  lemma LowerKept(a: seq<int>, b: seq<int>, lo: nat, hi: nat, x: int)
    requires Permuted(a, b, lo, hi) && forall k :: lo <= k < hi ==> a[k] >= x
    ensures forall k :: lo <= k < hi ==> b[k] >= x
  {
    forall k | lo <= k < hi
      ensures b[k] >= x
    {
      var j := CameFrom(a, b, lo, hi, k);
    }
  }

  /** Rearranging two neighbouring parts rearranges the whole. */
  lemma PermutedJoin(a: seq<int>, b: seq<int>, c: seq<int>, lo: nat, mid: nat, hi: nat)
    requires lo <= mid <= hi <= |a| && Permuted(a, b, lo, mid) && Permuted(b, c, mid, hi)
    ensures Permuted(a, c, lo, hi)
  {
    hide Permuted;
    OutsideKept(a, b, lo, mid);
    PermutedWiden(a, b, lo, mid, lo, hi);
    PermutedWiden(b, c, mid, hi, lo, hi);
    PermutedTrans(a, b, c, lo, hi);
  }

  /** `pos` separates the smaller elements of `lo..hi` from the others, and holds the pivot. */
  predicate Separated(a: seq<int>, lo: nat, pos: nat, hi: nat)
  {
    && lo <= pos < hi <= |a|
    && (forall k :: lo <= k < pos ==> a[k] < a[pos])
    && (forall k :: pos < k < hi ==> a[k] >= a[pos])
  }

  method Swap(nums: array<int>, i: nat, j: nat, ghost lo: nat, ghost hi: nat)
    requires lo <= i < hi <= nums.Length && lo <= j < hi
    modifies nums
    ensures nums[i] == old(nums[j]) && nums[j] == old(nums[i])
    ensures forall k :: 0 <= k < nums.Length && k != i && k != j ==> nums[k] == old(nums[k])
    ensures Permuted(old(nums[..]), nums[..], lo, hi)
  {
    hide Permuted;
    ghost var a := nums[..];
    SwapPermutes(a, i, j, lo, hi);
    nums[i], nums[j] := nums[j], nums[i];
    assert nums[..] == a[i := a[j]][j := a[i]];
  }

  /** How far the sweep is: smaller elements up to `pos`, others up to `cur`, the rest as in `a`. */
  predicate Swept(a: seq<int>, s: seq<int>, begin: nat, pos: nat, cur: nat, end: nat) {
    && |s| == |a| && begin <= pos <= end < |a| && begin <= cur <= end + 1 && (pos < cur || pos == cur == begin)
    && s[begin] == a[begin]
    && (forall k :: begin < k <= pos ==> s[k] < s[begin])
    && (forall k :: pos < k < cur ==> s[k] >= s[begin])
    && (forall k :: cur <= k <= end ==> s[k] == a[k])
    && (begin < end && a[end] >= a[begin] ==> pos < end)
  }

  lemma SweptSwap(a: seq<int>, s: seq<int>, t: seq<int>, begin: nat, pos: nat, cur: nat, end: nat)
    requires Swept(a, s, begin, pos, cur, end) && cur <= end && s[cur] < s[begin]
    requires |t| == |s| && t[pos + 1] == s[cur] && t[cur] == s[pos + 1]
    requires forall k :: 0 <= k < |s| && k != pos + 1 && k != cur ==> t[k] == s[k]
    ensures Swept(a, t, begin, pos + 1, cur + 1, end)
  {}

  lemma SweptOn(a: seq<int>, s: seq<int>, begin: nat, pos: nat, cur: nat, end: nat)
    requires Swept(a, s, begin, pos, cur, end) && cur <= end && s[cur] >= s[begin]
    ensures Swept(a, s, begin, pos, cur + 1, end)
  {}

  lemma SweptAll(a: seq<int>, s: seq<int>, t: seq<int>, begin: nat, pos: nat, end: nat)
    requires Swept(a, s, begin, pos, end + 1, end)
    requires |t| == |s| && t[pos] == s[begin] && t[begin] == s[pos]
    requires forall k :: 0 <= k < |s| && k != pos && k != begin ==> t[k] == s[k]
    ensures Separated(t, begin, pos, end + 1) && t[pos] == a[begin]
    ensures a[end] >= a[begin] && begin < end ==> pos < end
  {}

  /** A smaller element moves to the front part. */
  method SwapForward(nums: array<int>, ghost a: seq<int>, begin: nat, pos: nat, cur: nat, end: nat)
    requires Swept(a, nums[..], begin, pos, cur, end) && cur <= end && nums[cur] < nums[begin]
    requires Permuted(a, nums[..], begin, end + 1)
    modifies nums
    ensures Swept(a, nums[..], begin, pos + 1, cur + 1, end) && Permuted(a, nums[..], begin, end + 1)
    ensures nums[begin] == old(nums[begin])
  {
    hide Permuted;
    ghost var was := nums[..];
    Swap(nums, pos + 1, cur, begin, end + 1);
    SweptSwap(a, was, nums[..], begin, pos, cur, end);
    PermutedTrans(a, was, nums[..], begin, end + 1);
  }

  /** The loop of `partition` and `randomized_partition`, with the pivot at `begin`. */
  method Sweep(nums: array<int>, begin: nat, end: nat) returns (pos: nat)
    requires begin <= end < nums.Length
    modifies nums
    ensures Permuted(old(nums[..]), nums[..], begin, end + 1)
    ensures Separated(nums[..], begin, pos, end + 1) && nums[pos] == old(nums[begin])
    ensures old(nums[end]) >= old(nums[begin]) && begin < end ==> pos < end
  {
    ghost var a := nums[..];
    PermutedSelf(a, begin, end + 1);
    pos := begin;
    var cur, pivot := begin, nums[begin];
    assert Swept(a, nums[..], begin, pos, cur, end);
    hide Permuted, Separated, Swept;
    while cur <= end
      invariant begin <= pos <= cur <= end + 1 && nums[begin] == pivot
      invariant Swept(a, nums[..], begin, pos, cur, end) && Permuted(a, nums[..], begin, end + 1)
    {
      if nums[cur] < pivot {
        SwapForward(nums, a, begin, pos, cur, end);
        pos := pos + 1;
      } else {
        SweptOn(a, nums[..], begin, pos, cur, end);
      }
      cur := cur + 1;
    }
    ghost var was := nums[..];
    Swap(nums, pos, begin, begin, end + 1);
    SweptAll(a, was, nums[..], begin, pos, end);
    PermutedTrans(a, was, nums[..], begin, end + 1);
  }
}
