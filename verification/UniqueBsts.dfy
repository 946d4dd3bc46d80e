/** All binary search trees on consecutive keys, and two ways to count them. */
module UniqueBsts {
  import opened BinaryTree

  // ---------------------------------------------------------------- the trees

  ghost predicate SearchTree(t: Tree<int>) {
    match t
    case Nil => true
    case Node(l, v, r) =>
      && SearchTree(l) && SearchTree(r)
      && (forall k :: k in Inorder(l) ==> k < v) && (forall k :: k in Inorder(r) ==> v < k)
  }

  /** A search tree whose keys are `lo` to `hi`. */
  ghost predicate IsBst(t: Tree<int>, lo: int, hi: int) {
    SearchTree(t) && forall k :: k in Inorder(t) <==> lo <= k <= hi
  }

  lemma BstNode(l: Tree<int>, v: int, r: Tree<int>, lo: int, hi: int)
    ensures IsBst(Node(l, v, r), lo, hi) <==> lo <= v <= hi && IsBst(l, lo, v - 1) && IsBst(r, v + 1, hi)
  {
    var t := Node(l, v, r);
    assert forall k :: k in Inorder(t) <==> k in Inorder(l) || k == v || k in Inorder(r);
    if IsBst(t, lo, hi) {
      assert v in Inorder(t);
    }
  }

  ghost predicate Distinct<T>(s: seq<T>) { forall i, j :: 0 <= i < j < |s| ==> s[i] != s[j] }

  /** `ts` holds the search trees on `lo` to `hi`, each once. */
  ghost predicate ListsBsts(ts: seq<Tree<int>>, lo: int, hi: int) {
    Distinct(ts) && forall t :: t in ts <==> IsBst(t, lo, hi)
  }

  /** ... those with a root of at most `i`. */
  ghost predicate ListsRoots(ts: seq<Tree<int>>, lo: int, hi: int, i: int) {
    Distinct(ts) && forall t :: t in ts <==> t.Node? && t.val <= i && IsBst(t, lo, hi)
  }

  // ---------------------------------------------------------------- the order of generation

  function Row(l: Tree<int>, v: int, rs: seq<Tree<int>>): (ts: seq<Tree<int>>)
    ensures |ts| == |rs| && forall k :: 0 <= k < |rs| ==> ts[k] == Node(l, v, rs[k])
  {
    seq(|rs|, k requires 0 <= k < |rs| => Node(l, v, rs[k]))
  }

  /** Every left tree with every right tree. */
  function Products(ls: seq<Tree<int>>, v: int, rs: seq<Tree<int>>): seq<Tree<int>> {
    if ls == [] then [] else Products(ls[..|ls| - 1], v, rs) + Row(ls[|ls| - 1], v, rs)
  }

  lemma DistinctSum<T>(a: seq<T>, b: seq<T>)
    requires Distinct(a) && Distinct(b) && forall x :: x in a ==> x !in b
    ensures Distinct(a + b)
  {
    forall i, j | 0 <= i < j < |a + b| ensures (a + b)[i] != (a + b)[j] {
      if i < |a| <= j {
        assert a[i] in a && b[j - |a|] in b;
      }
    }
  }

  lemma RowHolds(l: Tree<int>, v: int, rs: seq<Tree<int>>)
    requires Distinct(rs)
    ensures Distinct(Row(l, v, rs))
    ensures forall t :: t in Row(l, v, rs) <==> t.Node? && t.left == l && t.val == v && t.right in rs
  {
    forall t: Tree<int> | t.Node? && t.left == l && t.val == v && t.right in rs ensures t in Row(l, v, rs) {
      var k :| 0 <= k < |rs| && rs[k] == t.right;
      assert Row(l, v, rs)[k] == t;
    }
  }

  lemma {:induction false} ProductsHold(ls: seq<Tree<int>>, v: int, rs: seq<Tree<int>>)
    requires Distinct(ls) && Distinct(rs)
    ensures Distinct(Products(ls, v, rs)) && |Products(ls, v, rs)| == |ls| * |rs|
    ensures forall t :: t in Products(ls, v, rs) <==> t.Node? && t.left in ls && t.val == v && t.right in rs
  {
    if ls != [] {
      var front, l := ls[..|ls| - 1], ls[|ls| - 1];
      assert ls == front + [l] && l !in front;
      ProductsHold(front, v, rs);
      RowHolds(l, v, rs);
      DistinctSum(Products(front, v, rs), Row(l, v, rs));
      Distribute(|front|, |rs|);
    }
  }

  lemma Distribute(a: nat, b: nat)
    ensures a * b + b == (a + 1) * b
  {}

  /** Adding the trees with root `i`. */
  lemma NextRoot(ts: seq<Tree<int>>, ls: seq<Tree<int>>, rs: seq<Tree<int>>, lo: int, hi: int, i: int)
    requires lo <= i <= hi && ListsRoots(ts, lo, hi, i - 1)
    requires ListsBsts(ls, lo, i - 1) && ListsBsts(rs, i + 1, hi)
    ensures ListsRoots(ts + Products(ls, i, rs), lo, hi, i)
  {
    hide IsBst, Products;
    var more := Products(ls, i, rs);
    ProductsHold(ls, i, rs);
    DistinctSum(ts, more);
    forall t: Tree<int> ensures t in ts + more <==> t.Node? && t.val <= i && IsBst(t, lo, hi) {
      if t.Node? {
        BstNode(t.left, t.val, t.right, lo, hi);
      }
    }
  }

  lemma NoRoot(lo: int, hi: int)
    ensures ListsRoots([], lo, hi, lo - 1)
  {
    hide IsBst;
    forall t: Tree<int> | t.Node? && t.val <= lo - 1 ensures !IsBst(t, lo, hi) {
      BstNode(t.left, t.val, t.right, lo, hi);
    }
  }

  lemma EveryRoot(ts: seq<Tree<int>>, lo: int, hi: int)
    requires lo <= hi && ListsRoots(ts, lo, hi, hi)
    ensures ListsBsts(ts, lo, hi)
  {
    forall t: Tree<int> | IsBst(t, lo, hi) ensures t.Node? && t.val <= hi {
      assert lo in Inorder(t);
      BstNode(t.left, t.val, t.right, lo, hi);
    }
  }

  lemma NoKeys(lo: int, hi: int)
    requires lo > hi
    ensures ListsBsts([Nil], lo, hi)
  {
    forall t: Tree<int> ensures t in [Nil] <==> IsBst(t, lo, hi) {
      if t.Node? {
        BstNode(t.left, t.val, t.right, lo, hi);
      }
    }
  }

  // ---------------------------------------------------------------- how many

  /** The number of search trees on `n` keys, by the place of the root. */
  function Count(n: nat): nat
    decreases n, n + 1
  {
    if n == 0 then 1 else CountUpTo(n, n)
  }

  function CountUpTo(n: nat, i: nat): nat
    requires i <= n
    decreases n, i
  {
    if i == 0 then 0 else CountUpTo(n, i - 1) + Count(n - i) * Count(i - 1)
  }

  /** The list `generateTreesImpl` makes, and its part with roots of at most `i`. */
  function Trees(lo: int, hi: int): seq<Tree<int>>
    decreases hi - lo, hi - lo + 2
  {
    if lo > hi then [Nil] else TreesUpTo(lo, hi, hi)
  }

  function TreesUpTo(lo: int, hi: int, i: int): seq<Tree<int>>
    requires lo - 1 <= i <= hi
    decreases hi - lo, i - lo + 1
  {
    if i < lo then [] else TreesUpTo(lo, hi, i - 1) + Products(Trees(lo, i - 1), i, Trees(i + 1, hi))
  }

  lemma SizeOfProducts(ls: seq<Tree<int>>, rs: seq<Tree<int>>, lo: int, hi: int, i: int)
    requires lo <= i <= hi && ListsBsts(ls, lo, i - 1) && ListsBsts(rs, i + 1, hi)
    requires |ls| == Count(i - lo) && |rs| == Count(hi - i)
    ensures CountUpTo(hi - lo + 1, i - lo) + |Products(ls, i, rs)| == CountUpTo(hi - lo + 1, i - lo + 1)
  {
    ProductsHold(ls, i, rs);
    var n, j := hi - lo + 1, i - lo + 1;
    assert CountUpTo(n, j) == CountUpTo(n, j - 1) + Count(n - j) * Count(j - 1);
  }

  /** The two inner loops. */
  method Combine(trees0: seq<Tree<int>>, ltrees: seq<Tree<int>>, i: int, rtrees: seq<Tree<int>>)
    returns (trees: seq<Tree<int>>)
    ensures trees == trees0 + Products(ltrees, i, rtrees)
  {
    trees := trees0;
    for a := 0 to |ltrees|
      invariant trees == trees0 + Products(ltrees[..a], i, rtrees)
    {
      ghost var before := trees;
      for b := 0 to |rtrees|
        invariant trees == before + Row(ltrees[a], i, rtrees[..b])
      {
        var root := Node(ltrees[a], i, rtrees[b]);
        assert Row(ltrees[a], i, rtrees[..b + 1]) == Row(ltrees[a], i, rtrees[..b]) + [root];
        trees := trees + [root];
      }
      assert rtrees[..|rtrees|] == rtrees;
      assert ltrees[..a + 1][..a] == ltrees[..a];
    }
    assert ltrees[..|ltrees|] == ltrees;
  }

  /** The list holds exactly the search trees of the range, each once, and is as long as the recurrence says. */
  lemma {:induction false} TreesAreListed(lo: int, hi: int)
    ensures ListsBsts(Trees(lo, hi), lo, hi)
    ensures |Trees(lo, hi)| == Count(if lo > hi then 0 else hi - lo + 1)
    decreases hi - lo, hi - lo + 2
  {
    if lo > hi {
      NoKeys(lo, hi);
    } else {
      RootsAreListed(lo, hi, hi);
      EveryRoot(Trees(lo, hi), lo, hi);
    }
  }

  lemma {:induction false} RootsAreListed(lo: int, hi: int, i: int)
    requires lo - 1 <= i <= hi
    ensures ListsRoots(TreesUpTo(lo, hi, i), lo, hi, i)
    ensures |TreesUpTo(lo, hi, i)| == CountUpTo(hi - lo + 1, i - lo + 1)
    decreases hi - lo, i - lo + 1
  {
    hide ListsBsts, ListsRoots, Products, Trees;
    if i < lo {
      NoRoot(lo, hi);
    } else {
      RootsAreListed(lo, hi, i - 1);
      TreesAreListed(lo, i - 1);
      TreesAreListed(i + 1, hi);
      NextRoot(TreesUpTo(lo, hi, i - 1), Trees(lo, i - 1), Trees(i + 1, hi), lo, hi, i);
      SizeOfProducts(Trees(lo, i - 1), Trees(i + 1, hi), lo, hi, i);
    }
  }

  /** `generateTreesImpl`. */
  method GenerateTreesImpl(begin: int, end: int) returns (trees: seq<Tree<int>>)
    ensures trees == Trees(begin, end)
    ensures ListsBsts(trees, begin, end)
    ensures |trees| == Count(if begin > end then 0 else end - begin + 1)
    decreases end - begin
  {
    TreesAreListed(begin, end);
    hide ListsBsts, Count, Products;
    if begin > end {
      return [Nil];
    }
    trees := [];
    for i := begin to end + 1
      invariant trees == TreesUpTo(begin, end, i - 1)
    {
      var ltrees := GenerateTreesImpl(begin, i - 1);
      var rtrees := GenerateTreesImpl(i + 1, end);
      trees := Combine(trees, ltrees, i, rtrees);
    }
  }

  /** `generateTrees`: for `n < 1` the list is empty, and so lacks the tree without keys. */
  method GenerateTrees(n: int) returns (trees: seq<Tree<int>>)
    ensures ListsBsts(trees, 1, n) <==> n >= 1
    ensures |trees| == if n >= 1 then NumTreesOf(n) else 0
  {
    if n < 1 {
      NoKeys(1, n);
      assert Tree<int>.Nil in [Tree<int>.Nil];
      return [];
    }
    trees := GenerateTreesImpl(1, n);
  }

  /** What `numTrees` returns: a negative argument comes back unchanged. */
  function NumTreesOf(n: int): int { if n < 0 then n else Count(n) }

  lemma {:induction false} DistinctSize<T>(s: seq<T>, m: set<T>)
    requires Distinct(s) && forall x :: x in s <==> x in m
    ensures |s| == |m|
  {
    if s == [] {
      assert m == {};
    } else {
      var front, x := s[..|s| - 1], s[|s| - 1];
      assert s == front + [x];
      DistinctSize(front, m - {x});
    }
  }

  /** However the search trees on 1 to `n` are listed, `numTrees` is their number exactly when `n` is not negative. */
  lemma NumTreesExactly(n: int, ts: seq<Tree<int>>)
    requires ListsBsts(ts, 1, n)
    ensures |ts| == NumTreesOf(n) <==> n >= 0
  {
    TreesAreListed(1, n);
    var us := Trees(1, n);
    var m := set t | t in ts;
    DistinctSize(ts, m);
    DistinctSize(us, m);
  }

  lemma SmallCounts()
    ensures Count(1) == 1 && Count(2) == 2
  {
    assert CountUpTo(1, 1) == CountUpTo(1, 0) + Count(0) * Count(0);
    assert CountUpTo(2, 1) == CountUpTo(2, 0) + Count(1) * Count(0);
    assert CountUpTo(2, 2) == CountUpTo(2, 1) + Count(0) * Count(1);
  }

  /** `numTrees`. */
  method NumTrees(n: int) returns (res: int)
    ensures res == NumTreesOf(n)
    decreases n
  {
    SmallCounts();
    if n == 0 {
      return 1;
    } else if n <= 2 {
      return n;
    }
    res := 0;
    for i := 1 to n + 1
      invariant res == CountUpTo(n, i - 1)
    {
      var a := NumTrees(n - i);
      var b := NumTrees(i - 1);
      res := res + a * b;
    }
  }

  // ---------------------------------------------------------------- the memoised count

  /** Each entry up to `n` is either not filled in or right. */
  ghost predicate Sound(dp: seq<int>, n: int) {
    && |dp| >= 2 && dp[0] == 1 && dp[1] == 1
    && forall k :: 0 <= k <= n && k < |dp| ==> dp[k] == 0 || dp[k] == Count(k)
  }

  /** `numTreesDPImpl`. */
  method NumTreesDPImpl(n: nat, dp: array<int>) returns (res: int)
    requires n < dp.Length && Sound(dp[..], n)
    modifies dp
    ensures res == dp[n] == Count(n) && Sound(dp[..], n)
    ensures forall k :: n < k < dp.Length ==> dp[k] == old(dp[k])
    decreases n
  {
    SmallCounts();
    if dp[n] != 0 {
      return dp[n];
    }
    for i := 1 to n + 1
      invariant Sound(dp[..], n - 1) && dp[n] == CountUpTo(n, i - 1)
      invariant forall k :: n < k < dp.Length ==> dp[k] == old(dp[k])
    {
      assert Sound(dp[..], n - i) && Sound(dp[..], i - 1);
      var a := NumTreesDPImpl(n - i, dp);
      var b := NumTreesDPImpl(i - 1, dp);
      dp[n] := dp[n] + a * b;
    }
    return dp[n];
  }

  /** `numTreesDP`; the source writes `dp[1]`, so there has to be one. */
  method NumTreesDP(n: int) returns (res: int)
    requires n >= 1
    ensures res == NumTreesOf(n)
  {
    SmallCounts();
    var dp := new int[n + 1](_ => 0);
    dp[0], dp[1] := 1, 1;
    res := NumTreesDPImpl(n, dp);
  }
}
