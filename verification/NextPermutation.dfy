/** Rearranging an array into the next one in lexicographic order. */
module NextPermutation {

  /** Lexicographic order on sequences of the same length. */
  predicate Less(a: seq<int>, b: seq<int>)
    requires |a| == |b|
  {
    a != [] && (a[0] < b[0] || (a[0] == b[0] && Less(a[1..], b[1..])))
  }

  predicate AtMost(a: seq<int>, b: seq<int>)
    requires |a| == |b|
  {
    a == b || Less(a, b)
  }

  predicate Ascending(a: seq<int>) { forall i, j :: 0 <= i < j < |a| ==> a[i] <= a[j] }

  predicate Descending(a: seq<int>) { forall i, j :: 0 <= i < j < |a| ==> a[i] >= a[j] }

  ghost predicate Rearranges(p: seq<int>, a: seq<int>) { multiset(p) == multiset(a) }

  lemma SameSize(p: seq<int>, a: seq<int>)
    requires Rearranges(p, a)
    ensures |p| == |a|
  {
    assert |multiset(p)| == |p| && |multiset(a)| == |a|;
  }

  lemma TailsRearrange(p: seq<int>, a: seq<int>)
    requires Rearranges(p, a) && p != [] && a != [] && p[0] == a[0]
    ensures Rearranges(p[1..], a[1..])
  {
    assert p == [p[0]] + p[1..] && a == [a[0]] + a[1..];
    assert multiset(p[1..]) == multiset(p) - multiset{p[0]};
    assert multiset(a[1..]) == multiset(a) - multiset{a[0]};
  }

  /** The ascending arrangement comes first. */
  lemma {:induction false} AscendingIsLeast(a: seq<int>, p: seq<int>)
    requires Ascending(a) && Rearranges(p, a)
    ensures |p| == |a| && AtMost(a, p)
  {
    SameSize(p, a);
    if a != [] {
      assert p[0] in multiset(p);
      assert p[0] in a;
      if p[0] == a[0] {
        TailsRearrange(p, a);
        AscendingIsLeast(a[1..], p[1..]);
        assert p == [p[0]] + p[1..] && a == [a[0]] + a[1..];
      }
    }
  }

  /** Nothing comes after the descending arrangement. */
  lemma {:induction false} DescendingIsGreatest(a: seq<int>, p: seq<int>)
    requires Descending(a) && Rearranges(p, a)
    ensures |p| == |a| && !Less(a, p)
  {
    SameSize(p, a);
    if a != [] {
      assert p[0] in multiset(p);
      assert p[0] in a;
      if p[0] == a[0] {
        TailsRearrange(p, a);
        DescendingIsGreatest(a[1..], p[1..]);
      }
    }
  }

  /** `r` keeps `a` up to `k`, puts there the least later element that is larger, and orders the rest. */
  ghost predicate StepsUpAt(a: seq<int>, r: seq<int>, k: nat) {
    && |r| == |a| && k < |a| && Rearranges(r, a)
    && r[..k] == a[..k]
    && Descending(a[k + 1..])
    && a[k] < r[k] && r[k] in a[k + 1..]
    && (forall j :: k < j < |a| && a[j] > a[k] ==> r[k] <= a[j])
    && Ascending(r[k + 1..])
  }

  lemma TailsStepUp(a: seq<int>, r: seq<int>, k: nat)
    requires StepsUpAt(a, r, k) && k > 0
    ensures a[0] == r[0] && StepsUpAt(a[1..], r[1..], k - 1)
  {
    assert a[0] == a[..k][0] && r[0] == r[..k][0];
    TailsRearrange(r, a);
    assert a[1..][..k - 1] == a[..k][1..] && r[1..][..k - 1] == r[..k][1..];
    assert a[1..][k..] == a[k + 1..] && r[1..][k..] == r[k + 1..];
  }

  lemma PlaceOfFirst(a: seq<int>, p: seq<int>) returns (j: nat)
    requires Rearranges(p, a) && p != []
    ensures j < |a| && a[j] == p[0]
  {
    assert p[0] in multiset(p);
    assert p[0] in a;
    j :| 0 <= j < |a| && a[j] == p[0];
  }

  lemma StepUpAtFront(a: seq<int>, r: seq<int>, p: seq<int>)
    requires StepsUpAt(a, r, 0) && Rearranges(p, a) && |p| == |a| && Less(a, p)
    ensures AtMost(r, p)
  {
    var j := PlaceOfFirst(a, p);
    if p[0] == a[0] {
      TailsRearrange(p, a);
      DescendingIsGreatest(a[1..], p[1..]);
    } else if p[0] == r[0] {
      TailsRearrange(p, r);
      AscendingIsLeast(r[1..], p[1..]);
      assert p == [p[0]] + p[1..] && r == [r[0]] + r[1..];
    }
  }

  /** Such an `r` is the least rearrangement above `a`. */
  lemma {:induction false} StepUpIsLeast(a: seq<int>, r: seq<int>, k: nat, p: seq<int>)
    requires StepsUpAt(a, r, k) && Rearranges(p, a) && |p| == |a| && Less(a, p)
    ensures AtMost(r, p)
    decreases k
  {
    if k == 0 {
      StepUpAtFront(a, r, p);
    } else {
      TailsStepUp(a, r, k);
      hide StepsUpAt;
      if p[0] == a[0] {
        TailsRearrange(p, a);
        hide Rearranges;
        StepUpIsLeast(a[1..], r[1..], k - 1, p[1..]);
        AtMostCons(r, p);
      }
    }
  }

  lemma AtMostCons(r: seq<int>, p: seq<int>)
    requires r != [] && |r| == |p| && r[0] == p[0] && AtMost(r[1..], p[1..])
    ensures AtMost(r, p)
  {
    assert p == [p[0]] + p[1..] && r == [r[0]] + r[1..];
  }

  lemma {:induction false} StepUpIsAbove(a: seq<int>, r: seq<int>, k: nat)
    requires StepsUpAt(a, r, k)
    ensures Less(a, r)
    decreases k
  {
    if k > 0 {
      TailsStepUp(a, r, k);
      StepUpIsAbove(a[1..], r[1..], k - 1);
    }
  }

  /** What the header comment of the source promises. */
  ghost predicate IsNext(a: seq<int>, r: seq<int>) {
    && |r| == |a| && Rearranges(r, a)
    && if exists p :: Rearranges(p, a) && |p| == |a| && Less(a, p) then
         Less(a, r) && forall p :: Rearranges(p, a) && |p| == |a| && Less(a, p) ==> AtMost(r, p)
       else Ascending(r)
  }

  lemma StepUpIsNext(a: seq<int>, r: seq<int>, k: nat)
    requires StepsUpAt(a, r, k)
    ensures IsNext(a, r)
  {
    StepUpIsAbove(a, r, k);
    forall p | Rearranges(p, a) && |p| == |a| && Less(a, p)
      ensures AtMost(r, p)
    {
      StepUpIsLeast(a, r, k, p);
    }
  }

  lemma WrapIsNext(a: seq<int>, r: seq<int>)
    requires Descending(a) && multiset(r) == multiset(a) && Ascending(r)
    ensures IsNext(a, r)
  {
    SameSize(r, a);
    forall p | Rearranges(p, a)
      ensures |p| == |a| && !Less(a, p)
    {
      DescendingIsGreatest(a, p);
    }
  }

  // ---------------------------------------------------------------- in place

  /** `r` is `s` with the part from `lo` on turned round. */
  ghost predicate TurnedFrom(r: seq<int>, s: seq<int>, lo: nat) {
    && |r| == |s| && lo <= |s| && multiset(r) == multiset(s)
    && (forall k :: 0 <= k < lo ==> r[k] == s[k])
    && (forall k :: lo <= k < |s| ==> r[k] == s[lo + |s| - 1 - k])
  }

  /** `std::reverse` on the part of the array from `lo` on. */
  method Reverse(nums: array<int>, lo: nat)
    requires lo <= nums.Length
    modifies nums
    ensures TurnedFrom(nums[..], old(nums[..]), lo)
  {
    var i, j := lo, nums.Length;
    while i < j
      invariant lo <= i <= nums.Length && i + j == lo + nums.Length
      invariant i <= j + 1
      invariant forall k :: 0 <= k < lo || i <= k < j ==> nums[k] == old(nums[k])
      invariant forall k :: lo <= k < i || j <= k < nums.Length ==> nums[k] == old(nums[lo + nums.Length - 1 - k])
      invariant multiset(nums[..]) == multiset(old(nums[..]))
    {
      j := j - 1;
      nums[i], nums[j] := nums[j], nums[i];
      i := i + 1;
    }
  }

  ghost predicate DescendingFrom(a: seq<int>, pos: nat) { forall i, j :: pos <= i < j < |a| ==> a[i] >= a[j] }

  /** `itr` is the last place of an element larger than the one before `pos`. */
  ghost predicate LastLarger(a: seq<int>, pos: nat, itr: nat) {
    && 0 < pos <= itr < |a| && a[itr] > a[pos - 1]
    && forall k :: itr < k < |a| ==> a[k] <= a[pos - 1]
  }

  /** The first loop: where the longest descending end begins. */
  method FindDescent(nums: array<int>) returns (pos: nat)
    requires nums.Length > 0
    ensures pos < nums.Length && (pos > 0 ==> nums[pos - 1] < nums[pos]) && DescendingFrom(nums[..], pos)
  {
    pos := nums.Length - 1;
    while pos > 0 && nums[pos - 1] >= nums[pos]
      invariant 0 <= pos < nums.Length
      invariant forall i, j :: pos <= i < j < nums.Length ==> nums[i] >= nums[j]
    {
      pos := pos - 1;
    }
  }

  /** The second loop. */
  method FindLarger(nums: array<int>, pos: nat) returns (itr: nat)
    requires 0 < pos < nums.Length && nums[pos - 1] < nums[pos]
    ensures LastLarger(nums[..], pos, itr)
  {
    itr := nums.Length - 1;
    while nums[itr] <= nums[pos - 1]
      invariant pos <= itr < nums.Length
      invariant forall k :: itr < k < nums.Length ==> nums[k] <= nums[pos - 1]
      decreases itr
    {
      itr := itr - 1;
    }
  }

  /** `nextPermutation`; the source's pointer arithmetic needs a non-empty vector. */
  method NextPermutation(nums: array<int>)
    requires nums.Length > 0
    modifies nums
    ensures IsNext(old(nums[..]), nums[..])
  {
    hide StepsUpAt, IsNext, Rearranges, DescendingFrom, TurnedFrom;
    ghost var a := nums[..];
    var pos := FindDescent(nums);
    if pos > 0 {
      var itr := FindLarger(nums, pos);
      nums[pos - 1], nums[itr] := nums[itr], nums[pos - 1];
      ghost var swapped := nums[..];
      assert swapped == a[pos - 1 := a[itr]][itr := a[pos - 1]];
      Reverse(nums, pos);
      SwapAndReverse(a, swapped, nums[..], pos, itr);
      StepUpIsNext(a, nums[..], pos - 1);
    } else {
      Reverse(nums, 0);
      ReversedIsNext(a, nums[..]);
    }
  }

  lemma ReversedIsNext(a: seq<int>, r: seq<int>)
    requires DescendingFrom(a, 0) && TurnedFrom(r, a, 0)
    ensures IsNext(a, r)
  {
    hide IsNext;
    WrapIsNext(a, r);
  }

  /** Turned round, the end ascends although the pivot was put in it. */
  lemma EndAscends(a: seq<int>, s: seq<int>, r: seq<int>, pos: nat, itr: nat)
    requires DescendingFrom(a, pos) && LastLarger(a, pos, itr)
    requires s == a[pos - 1 := a[itr]][itr := a[pos - 1]] && TurnedFrom(r, s, pos)
    ensures Ascending(r[pos..])
  {
    assert DescendingFrom(s, pos);
    forall i, j | 0 <= i < j < |r[pos..]|
      ensures r[pos..][i] <= r[pos..][j]
    {
      assert r[pos + i] == s[|a| - 1 - i] && r[pos + j] == s[|a| - 1 - j];
    }
  }

  lemma SwapAndReverse(a: seq<int>, s: seq<int>, r: seq<int>, pos: nat, itr: nat)
    requires DescendingFrom(a, pos) && LastLarger(a, pos, itr)
    requires s == a[pos - 1 := a[itr]][itr := a[pos - 1]] && TurnedFrom(r, s, pos)
    ensures StepsUpAt(a, r, pos - 1)
  {
    EndAscends(a, s, r, pos, itr);
    hide Ascending;
    var k := pos - 1;
    assert multiset(s) == multiset(a);
    assert r[k] == a[itr] && r[..k] == a[..k];
    assert a[pos..][itr - pos] == a[itr];
  }
}
