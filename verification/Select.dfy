/** Selecting the k-th smallest element, by repeated partitioning and with a heap. */
module Select {
  import opened Partitioning

  // ---------------------------------------------------------------- the k-th smallest

  /** How many elements are smaller than `v`. */
  function Below(a: seq<int>, v: int): nat {
    if a == [] then 0 else Below(a[..|a| - 1], v) + (if a[|a| - 1] < v then 1 else 0)
  }

  /** How many elements are not larger than `v`. */
  function NotAbove(a: seq<int>, v: int): nat {
    if a == [] then 0 else NotAbove(a[..|a| - 1], v) + (if a[|a| - 1] <= v then 1 else 0)
  }

  /** `v` is the k-th smallest: fewer than k elements are smaller, and at least k are not larger. */
  ghost predicate IsKth(a: seq<int>, k: nat, v: int) { v in a && Below(a, v) < k <= NotAbove(a, v) }

  lemma {:induction false} CountsAdd(a: seq<int>, b: seq<int>, v: int)
    ensures Below(a + b, v) == Below(a, v) + Below(b, v) && NotAbove(a + b, v) == NotAbove(a, v) + NotAbove(b, v)
  {
    if b == [] {
      assert a + b == a;
    } else {
      CountsAdd(a, b[..|b| - 1], v);
      assert (a + b)[..|a + b| - 1] == a + b[..|b| - 1];
    }
  }

  lemma CountOne(x: int, v: int)
    ensures Below([x], v) == (if x < v then 1 else 0) && NotAbove([x], v) == if x <= v then 1 else 0
  {
    assert [x][..0] == [];
  }

  lemma RemoveOne(a: seq<int>, b: seq<int>) returns (j: nat)
    requires multiset(a) == multiset(b) && a != []
    ensures j < |b| && b[j] == a[|a| - 1] && multiset(a[..|a| - 1]) == multiset(b[..j] + b[j + 1..])
  {
    var x := a[|a| - 1];
    assert a == a[..|a| - 1] + [x];
    assert x in multiset(b);
    j :| 0 <= j < |b| && b[j] == x;
    assert b == b[..j] + [x] + b[j + 1..];
    var before, after := multiset(a[..|a| - 1]), multiset(b[..j] + b[j + 1..]);
    assert multiset(a) == before + multiset{x} && multiset(b) == after + multiset{x};
    assert before == before + multiset{x} - multiset{x} == after + multiset{x} - multiset{x} == after;
  }

  /** Rearranging changes no count. */
  lemma {:induction false} CountsPermute(a: seq<int>, b: seq<int>, v: int)
    requires multiset(a) == multiset(b)
    ensures Below(a, v) == Below(b, v) && NotAbove(a, v) == NotAbove(b, v)
    decreases |a|
  {
    if a == [] {
      assert |multiset(b)| == 0;
    } else {
      var j := RemoveOne(a, b);
      CountsPermute(a[..|a| - 1], b[..j] + b[j + 1..], v);
      assert b == b[..j] + ([b[j]] + b[j + 1..]);
      CountsAdd(b[..j], [b[j]] + b[j + 1..], v);
      CountsAdd([b[j]], b[j + 1..], v);
      CountsAdd(b[..j], b[j + 1..], v);
      CountOne(b[j], v);
    }
  }

  lemma KthPermutes(a: seq<int>, b: seq<int>, k: nat, v: int)
    requires multiset(a) == multiset(b) && IsKth(a, k, v)
    ensures IsKth(b, k, v)
  {
    CountsPermute(a, b, v);
    assert v in multiset(a);
  }

  lemma {:induction false} CountsGrow(a: seq<int>, v: int, w: int)
    requires v < w
    ensures NotAbove(a, v) <= Below(a, w)
  {
    if a != [] {
      CountsGrow(a[..|a| - 1], v, w);
    }
  }

  /** There is only one k-th smallest, so two correct selections agree. */
  lemma KthUnique(a: seq<int>, k: nat, v: int, w: int)
    requires IsKth(a, k, v) && IsKth(a, k, w)
    ensures v == w
  {
    if v < w {
      CountsGrow(a, v, w);
    } else if w < v {
      CountsGrow(a, w, v);
    }
  }

  lemma {:induction false} CountAll(a: seq<int>, v: int)
    ensures (forall i :: 0 <= i < |a| ==> a[i] <= v) ==> NotAbove(a, v) == |a|
    ensures (forall i :: 0 <= i < |a| ==> a[i] >= v) ==> Below(a, v) == 0
    ensures Below(a, v) <= |a|
  {
    if a != [] {
      CountAll(a[..|a| - 1], v);
    }
  }

  /** An element with nothing larger before it and nothing smaller after it is in its sorted place. */
  lemma InPlace(a: seq<int>, m: nat)
    requires m < |a|
    requires forall i :: 0 <= i < m ==> a[i] <= a[m]
    requires forall i :: m < i < |a| ==> a[i] >= a[m]
    ensures IsKth(a, m + 1, a[m])
  {
    var v := a[m];
    assert a == a[..m] + ([v] + a[m + 1..]);
    CountsAdd(a[..m], [v] + a[m + 1..], v);
    CountsAdd([v], a[m + 1..], v);
    CountOne(v, v);
    CountAll(a[..m], v);
    CountAll(a[m + 1..], v);
  }

  /** Whatever way the elements are sorted, the k-th of them is the k-th smallest. */
  lemma KthOfSorted(a: seq<int>, sorted: seq<int>, k: nat, v: int)
    requires multiset(a) == multiset(sorted) && Ascends(sorted) && 1 <= k <= |sorted|
    ensures IsKth(a, k, v) <==> v == sorted[k - 1]
  {
    InPlace(sorted, k - 1);
    KthPermutes(sorted, a, k, sorted[k - 1]);
    hide IsKth;
    if IsKth(a, k, v) {
      KthUnique(a, k, v, sorted[k - 1]);
    }
  }

  // ---------------------------------------------------------------- by partitioning

  /** `random_pivot`: whatever element the random number picks. */
  method RandomPivot(nums: array<int>, begin: nat, end: nat)
    requires begin <= end < nums.Length
    modifies nums
    ensures Permuted(old(nums[..]), nums[..], begin, end + 1)
  {
    hide Permuted;
    PermutedSelf(nums[..], begin, end + 1);
    if begin < end {
      var pos: nat :| begin <= pos <= end;
      Swap(nums, pos, begin, begin, end + 1);
    }
  }

  /** `randomized_partition`. */
  method RandomizedPartition(nums: array<int>, begin: nat, end: nat) returns (pos: nat)
    requires begin <= end < nums.Length
    modifies nums
    ensures Permuted(old(nums[..]), nums[..], begin, end + 1)
    ensures Separated(nums[..], begin, pos, end + 1)
  {
    hide Permuted;
    ghost var a := nums[..];
    RandomPivot(nums, begin, end);
    ghost var b := nums[..];
    pos := Sweep(nums, begin, end);
    PermutedTrans(a, b, nums[..], begin, end + 1);
  }

  /** Nothing before `lo` is larger, and nothing from `hi` on smaller, than anything between. */
  predicate Fenced(a: seq<int>, lo: nat, hi: nat) {
    && lo <= hi <= |a|
    && (forall i, j :: 0 <= i < lo <= j < hi ==> a[i] <= a[j])
    && (forall i, j :: lo <= j < hi <= i < |a| ==> a[j] <= a[i])
  }

  lemma FencedPermuted(a: seq<int>, b: seq<int>, lo: nat, hi: nat)
    requires Fenced(a, lo, hi) && Permuted(a, b, lo, hi)
    ensures Fenced(b, lo, hi)
  {
    hide Permuted;
    OutsideKept(a, b, lo, hi);
    forall i, j | 0 <= i < lo <= j < hi
      ensures b[i] <= b[j]
    {
      var m := CameFrom(a, b, lo, hi, j);
    }
    forall i, j | lo <= j < hi <= i < |a|
      ensures b[j] <= b[i]
    {
      var m := CameFrom(a, b, lo, hi, j);
    }
  }

  lemma FencedParts(a: seq<int>, lo: nat, pos: nat, hi: nat)
    requires Fenced(a, lo, hi) && Separated(a, lo, pos, hi)
    ensures Fenced(a, lo, pos) && Fenced(a, pos + 1, hi)
    ensures forall i :: 0 <= i < pos ==> a[i] <= a[pos]
    ensures forall i :: pos < i < |a| ==> a[i] >= a[pos]
  {}

  lemma WholeMultiset(a: seq<int>, b: seq<int>, lo: nat, hi: nat)
    requires Permuted(a, b, lo, hi)
    ensures multiset(a) == multiset(b)
  {
    PermutedWiden(a, b, lo, hi, 0, |a|);
    assert a[0..|a|] == a && b[0..|b|] == b;
  }

  /** The loop of `randomized_select`; `k` counts from `begin`. */
  method RandomizedSelectRange(nums: array<int>, first: nat, last: nat, rank: nat) returns (r: int)
    requires first <= last < nums.Length && 1 <= rank <= last - first + 1
    requires Fenced(nums[..], first, last + 1)
    modifies nums
    ensures multiset(nums[..]) == multiset(old(nums[..]))
    ensures IsKth(old(nums[..]), first + rank, r)
  {
    hide Permuted, Fenced, Separated, IsKth;
    var begin, end, k := first, last, rank;
    ghost var a := nums[..];
    var pos := begin;
    while begin <= end
      invariant 0 <= begin <= end < nums.Length && 1 <= k <= end - begin + 1 && begin + k == first + rank
      invariant Fenced(nums[..], begin, end + 1) && multiset(nums[..]) == multiset(a)
      decreases end - begin
    {
      ghost var was := nums[..];
      pos := RandomizedPartition(nums, begin, end);
      FencedPermuted(was, nums[..], begin, end + 1);
      WholeMultiset(was, nums[..], begin, end + 1);
      FencedParts(nums[..], begin, pos, end + 1);
      SeparatedPlace(nums[..], begin, pos, end + 1);
      var ordinal := pos - begin + 1;
      if k == ordinal {
        InPlace(nums[..], pos);
        break;
      } else if k < ordinal {
        end := pos - 1;
      } else {
        begin := pos + 1;
        k := k - ordinal;
      }
    }
    r := nums[pos];
    KthPermutes(nums[..], a, first + rank, r);
  }

  lemma SeparatedPlace(a: seq<int>, lo: nat, pos: nat, hi: nat)
    requires Separated(a, lo, pos, hi)
    ensures lo <= pos < hi <= |a|
  {}

  /** `randomized_select`, which answers 0 when there is nothing to select. */
  method RandomizedSelect(nums: array<int>, k: nat) returns (r: int)
    modifies nums
    ensures multiset(nums[..]) == multiset(old(nums[..]))
    ensures if nums.Length == 0 || k == 0 then r == 0
            else IsKth(old(nums[..]), if k > nums.Length then nums.Length else k, r)
  {
    if nums.Length == 0 || k == 0 {
      return 0;
    }
    r := RandomizedSelectRange(nums, 0, nums.Length - 1, if k > nums.Length then nums.Length else k);
  }

  // ---------------------------------------------------------------- with a heap

  predicate Ascends(h: seq<int>) { forall i, j :: 0 <= i < j < |h| ==> h[i] <= h[j] }

  /** Pushing onto the heap, which is kept as its elements in order, the top last. */
  function Push(h: seq<int>, x: int): (r: seq<int>)
    requires Ascends(h)
    ensures Ascends(r) && |r| == |h| + 1 && multiset(r) == multiset(h) + multiset{x}
    ensures r[|h|] == if h == [] || x >= h[|h| - 1] then x else h[|h| - 1]
  {
    if h == [] || x >= h[|h| - 1] then h + [x]
    else
      assert h == h[..|h| - 1] + [h[|h| - 1]];
      Push(h[..|h| - 1], x) + [h[|h| - 1]]
  }

  /** The heap holds the smallest elements of `seen`, `rest` the others. */
  ghost predicate Holds(h: seq<int>, rest: seq<int>, seen: seq<int>, k: nat) {
    && Ascends(h) && multiset(seen) == multiset(h + rest)
    && |h| == (if |seen| <= k then |seen| else k)
    && (rest != [] ==> h != []) && forall i :: 0 <= i < |rest| ==> rest[i] >= h[|h| - 1]
  }

  lemma TopIsKth(h: seq<int>, rest: seq<int>, seen: seq<int>, k: nat)
    requires Holds(h, rest, seen, k) && k >= 1 && seen != []
    ensures IsKth(seen, if k > |seen| then |seen| else k, h[|h| - 1])
  {
    assert |multiset(seen)| == |seen| && |multiset(h + rest)| == |h + rest|;
    InPlace(h + rest, |h| - 1);
    KthPermutes(h + rest, seen, |h|, h[|h| - 1]);
  }

  lemma PushMore(h: seq<int>, rest: seq<int>, seen: seq<int>, k: nat, x: int)
    requires Holds(h, rest, seen, k) && |seen| < k
    ensures Holds(Push(h, x), rest, seen + [x], k)
  {
    assert |multiset(seen)| == |seen| && |multiset(h + rest)| == |h + rest|;
    assert rest == [];
    assert h + rest == h && Push(h, x) + rest == Push(h, x);
  }

  lemma ReplaceElements(init: seq<int>, top: int, h': seq<int>, rest: seq<int>, seen: seq<int>, x: int)
    requires multiset(seen) == multiset(init + [top] + rest) && multiset(h') == multiset(init) + multiset{x}
    ensures multiset(seen + [x]) == multiset(h' + (rest + [top]))
  {
    var m := multiset(init) + multiset(rest);
    assert multiset(seen + [x]) == multiset(seen) + multiset{x};
    assert multiset(h' + (rest + [top])) == m + multiset{x} + multiset{top};
  }

  lemma Replace(h: seq<int>, rest: seq<int>, seen: seq<int>, k: nat, x: int)
    requires Holds(h, rest, seen, k) && 1 <= k <= |seen| && x < h[|h| - 1]
    ensures Holds(Push(h[..|h| - 1], x), rest + [h[|h| - 1]], seen + [x], k)
  {
    var init, top := h[..|h| - 1], h[|h| - 1];
    assert h == init + [top];
    BelowTop(init, top);
    hide *;
    Replaced(init, top, Push(init, x), rest, seen, x, k);
  }

  lemma Replaced(init: seq<int>, top: int, h': seq<int>, rest: seq<int>, seen: seq<int>, x: int, k: nat)
    requires Holds(init + [top], rest, seen, k) && k <= |seen|
    requires Ascends(h') && |h'| == |init| + 1 && multiset(h') == multiset(init) + multiset{x} && h'[|init|] <= top
    ensures Holds(h', rest + [top], seen + [x], k)
  {
    hide Ascends;
    ReplaceElements(init, top, h', rest, seen, x);
    assert (init + [top])[|init|] == top;
  }

  lemma BelowTop(init: seq<int>, top: int)
    requires Ascends(init + [top])
    ensures Ascends(init) && (init != [] ==> init[|init| - 1] <= top)
  {
    var h := init + [top];
    assert forall i :: 0 <= i < |init| ==> h[i] == init[i];
    assert h[|init|] == top;
  }

  lemma Discard(h: seq<int>, rest: seq<int>, seen: seq<int>, k: nat, x: int)
    requires Holds(h, rest, seen, k) && 1 <= k <= |seen| && x >= h[|h| - 1]
    ensures Holds(h, rest + [x], seen + [x], k)
  {
    assert h + (rest + [x]) == h + rest + [x];
  }

  /** `heap_select`. */
  method HeapSelect(nums: array<int>, k: nat) returns (r: int)
    ensures if nums.Length == 0 || k == 0 then r == 0
            else IsKth(nums[..], if k > nums.Length then nums.Length else k, r)
  {
    hide Holds, IsKth;
    if nums.Length == 0 || k == 0 {
      return 0;
    }
    var heap: seq<int>, ordinal := [], 1;
    ghost var rest: seq<int> := [];
    assert nums[..0] == [];
    StartHolds(k);
    for i := 0 to nums.Length
      invariant ordinal == i + 1 && Holds(heap, rest, nums[..i], k)
    {
      var elem := nums[i];
      assert nums[..i + 1] == nums[..i] + [elem];
      HeapShape(heap, rest, nums[..i], k);
      if ordinal <= k {
        PushMore(heap, rest, nums[..i], k, elem);
        heap := Push(heap, elem);
      } else if elem < heap[|heap| - 1] {
        Replace(heap, rest, nums[..i], k, elem);
        rest := rest + [heap[|heap| - 1]];
        heap := Push(heap[..|heap| - 1], elem);
      } else {
        Discard(heap, rest, nums[..i], k, elem);
        rest := rest + [elem];
      }
      ordinal := ordinal + 1;
    }
    assert nums[..nums.Length] == nums[..];
    HeapShape(heap, rest, nums[..], k);
    TopIsKth(heap, rest, nums[..], k);
    r := heap[|heap| - 1];
  }

  lemma StartHolds(k: nat)
    ensures Holds([], [], [], k)
  {}

  lemma HeapShape(h: seq<int>, rest: seq<int>, seen: seq<int>, k: nat)
    requires Holds(h, rest, seen, k)
    ensures Ascends(h) && |h| == if |seen| <= k then |seen| else k
  {}

  /** The two selections agree, however the pivots are picked. */
  lemma SelectionsAgree(a: seq<int>, k: nat, r: int, s: int)
    requires if a == [] || k == 0 then r == 0 else IsKth(a, if k > |a| then |a| else k, r)
    requires if a == [] || k == 0 then s == 0 else IsKth(a, if k > |a| then |a| else k, s)
    ensures r == s
  {
    if a != [] && k != 0 {
      KthUnique(a, if k > |a| then |a| else k, r, s);
    }
  }
}
