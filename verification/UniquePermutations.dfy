/** All distinct arrangements of a vector that may hold duplicates. */
module UniquePermutations {

  /** `x` arranges the elements of `a` and agrees with it before `index`. */
  ghost predicate Arranges(x: seq<int>, a: seq<int>, index: nat) {
    |x| == |a| && multiset(x) == multiset(a) && index <= |a| && x[..index] == a[..index]
  }

  ghost predicate NoDuplicates(xs: seq<seq<int>>) { forall i, j :: 0 <= i < j < |xs| ==> xs[i] != xs[j] }

  /** `xs` lists the arrangements of `a` that keep its first `index` elements, each once. */
  ghost predicate ListsAll(xs: seq<seq<int>>, a: seq<int>, index: nat) {
    NoDuplicates(xs) && forall x :: x in xs <==> Arranges(x, a, index)
  }

  /** ... restricted to those with an element of `s` at `index`. */
  ghost predicate ListsSome(xs: seq<seq<int>>, a: seq<int>, index: nat, s: set<int>)
    requires index < |a|
  {
    NoDuplicates(xs) && forall x :: x in xs <==> Arranges(x, a, index) && x[index] in s
  }

  /** The vector with the elements at `i` and `index` exchanged. */
  function Swapped(a: seq<int>, index: nat, i: nat): seq<int>
    requires index < |a| && i < |a|
  {
    a[index := a[i]][i := a[index]]
  }

  lemma SwappedArranges(a: seq<int>, index: nat, i: nat, x: seq<int>)
    requires index <= i < |a|
    ensures Arranges(x, Swapped(a, index, i), index + 1) <==> Arranges(x, a, index) && x[index] == a[i]
  {
    var b := Swapped(a, index, i);
    assert multiset(b) == multiset(a);
    assert b[..index + 1] == a[..index] + [a[i]];
    if |x| == |a| {
      assert x[..index + 1] == x[..index] + [x[index]];
    }
  }

  /** With at most one element left to place there is one arrangement. */
  lemma OnlyOne(a: seq<int>, index: nat, x: seq<int>)
    requires index <= |a| <= index + 1
    ensures Arranges(x, a, index) <==> x == a
  {
    if Arranges(x, a, index) && |a| == index + 1 {
      assert x == x[..index] + [x[index]] && a == a[..index] + [a[index]];
      assert multiset(x) == multiset(x[..index]) + multiset{x[index]};
      assert multiset(a) == multiset(a[..index]) + multiset{a[index]};
      assert x[index] in multiset(a) - multiset(a[..index]);
    }
  }

  /** Adding the arrangements with one more element at `index`. */
  lemma ExtendList(xs: seq<seq<int>>, ys: seq<seq<int>>, a: seq<int>, index: nat, i: nat, s: set<int>)
    requires index <= i < |a| && a[i] !in s
    requires ListsSome(xs, a, index, s) && ListsAll(ys, Swapped(a, index, i), index + 1)
    ensures ListsSome(xs + ys, a, index, s + {a[i]})
  {
    forall x
      ensures x in xs + ys <==> Arranges(x, a, index) && x[index] in s + {a[i]}
    {
      SwappedArranges(a, index, i, x);
    }
    forall j, k | 0 <= j < k < |xs + ys|
      ensures (xs + ys)[j] != (xs + ys)[k]
    {
      if j < |xs| <= k {
        assert xs[j] in xs;
        assert ys[k - |xs|] in ys;
        SwappedArranges(a, index, i, ys[k - |xs|]);
      }
    }
  }

  /** When `s` holds every element from `index` on, nothing is left out. */
  lemma ListComplete(xs: seq<seq<int>>, a: seq<int>, index: nat, s: set<int>)
    requires index < |a| && ListsSome(xs, a, index, s)
    requires forall k :: index <= k < |a| ==> a[k] in s
    ensures ListsAll(xs, a, index)
  {
    forall x | Arranges(x, a, index)
      ensures x[index] in s
    {
      assert x == x[..index] + x[index..] && a == a[..index] + a[index..];
      assert multiset(x[index..]) == multiset(x) - multiset(x[..index]);
      assert multiset(a[index..]) == multiset(a) - multiset(a[..index]);
      assert x[index..][0] in multiset(x[index..]);
      assert x[index] in a[index..];
    }
  }

  lemma SingleList(a: seq<int>, index: nat)
    requires index <= |a| <= index + 1
    ensures ListsAll([a], a, index)
  {
    forall x
      ensures x in [a] <==> Arranges(x, a, index)
    {
      OnlyOne(a, index, x);
    }
  }

  lemma EmptyList(a: seq<int>, index: nat)
    requires index < |a|
    ensures ListsSome([], a, index, {})
  {}

  /** `permuteUniqueImpl`: appends the arrangements of the rest, and leaves `nums` as it was. */
  method PermuteUniqueImpl(nums: array<int>, index: nat, permutations: seq<seq<int>>) returns (all: seq<seq<int>>)
    requires index <= nums.Length
    modifies nums
    ensures nums[..] == old(nums[..])
    ensures permutations <= all && ListsAll(all[|permutations|..], old(nums[..]), index)
    decreases nums.Length - index
  {
    hide ListsAll, ListsSome;
    ghost var a := nums[..];
    var lens := nums.Length;
    if index >= lens - 1 {
      all := permutations + [nums[..]];
      assert all[|permutations|..] == [a];
      SingleList(a, index);
      return;
    }
    all := permutations;
    var s: set<int> := {};
    ghost var added: seq<seq<int>> := [];
    EmptyList(a, index);
    for i := index to lens
      invariant nums[..] == a
      invariant all == permutations + added && ListsSome(added, a, index, s)
      invariant forall k :: index <= k < i ==> a[k] in s
    {
      if nums[i] in s {
        continue;
      }
      ghost var seen := s;
      s := s + {nums[i]};
      nums[i], nums[index] := nums[index], nums[i];
      assert nums[..] == Swapped(a, index, i);
      ghost var before := all;
      all := PermuteUniqueImpl(nums, index + 1, all);
      nums[i], nums[index] := nums[index], nums[i];
      assert nums[..] == a;
      ghost var ys := all[|before|..];
      ExtendList(added, ys, a, index, i, seen);
      assert all == permutations + (added + ys);
      added := added + ys;
    }
    ListComplete(added, a, index, s);
    assert all[|permutations|..] == added;
  }

  /** `permuteUnique`: every distinct arrangement of `nums`, exactly once. */
  method PermuteUnique(nums: array<int>) returns (permutations: seq<seq<int>>)
    modifies nums
    ensures nums[..] == old(nums[..])
    ensures NoDuplicates(permutations)
    ensures forall x :: x in permutations <==> multiset(x) == multiset(nums[..])
  {
    permutations := PermuteUniqueImpl(nums, 0, []);
    ghost var a := nums[..];
    assert permutations[0..] == permutations;
    forall x
      ensures x in permutations <==> multiset(x) == multiset(a)
    {
      assert x in permutations <==> Arranges(x, a, 0);
      assert |multiset(x)| == |x| && |multiset(a)| == |a|;
      assert x[..0] == a[..0];
    }
  }
}
