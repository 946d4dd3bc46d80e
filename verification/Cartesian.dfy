/** Cartesian trees: the maximum at the root, the inner order the order of the sequence. */
module Cartesian {
  import opened BinaryTree

  predicate AllBelow(s: seq<int>, v: int) { forall i :: 0 <= i < |s| ==> s[i] < v }

  predicate AllAtMost(s: seq<int>, v: int) { forall i :: 0 <= i < |s| ==> s[i] <= v }

  /** Each node is larger than what is left of it, and not smaller than what is right of it. */
  predicate HeapOrdered(t: Tree<int>) {
    match t
    case Nil => true
    case Node(l, v, r) => AllBelow(Inorder(l), v) && AllAtMost(Inorder(r), v) && HeapOrdered(l) && HeapOrdered(r)
  }

  /** `t` is a maximum tree of `s`; of equal maxima the first is the root. */
  predicate IsCartesian(t: Tree<int>, s: seq<int>) { Inorder(t) == s && HeapOrdered(t) }

  lemma SplitSame(a: seq<int>, v: int, b: seq<int>, a': seq<int>, v': int, b': seq<int>)
    requires a + ([v] + b) == a' + ([v'] + b') && |a| <= |a'|
    requires AllAtMost(b, v) && AllBelow(a', v')
    ensures a == a' && v == v' && b == b'
  {
    var s := a + ([v] + b);
    assert s[|a|] == v && s[|a'|] == v';
    assert forall k :: 0 <= k < |a'| ==> s[k] == a'[k];
    assert forall k :: |a| < k < |s| ==> s[k] == b[k - |a| - 1];
    assert |a| < |a'| ==> v < v';
    assert |a| < |a'| ==> v' <= v;
    assert a == s[..|a|] && a' == s[..|a'|];
    assert b == s[|a| + 1..] && b' == s[|a'| + 1..];
  }

  /** Where a root splits the inorder sequence. */
  lemma SplitAt(l: Tree<int>, v: int, r: Tree<int>, l': Tree<int>, v': int, r': Tree<int>)
    requires HeapOrdered(Node(l, v, r)) && HeapOrdered(Node(l', v', r'))
    requires Inorder(Node(l, v, r)) == Inorder(Node(l', v', r')) && |Inorder(l)| <= |Inorder(l')|
    ensures Inorder(l) == Inorder(l') && v == v' && Inorder(r) == Inorder(r')
  {
    SplitSame(Inorder(l), v, Inorder(r), Inorder(l'), v', Inorder(r'));
  }

  /** A sequence has only one maximum tree. */
  lemma {:induction false} CartesianUnique(t: Tree<int>, u: Tree<int>, s: seq<int>)
    requires IsCartesian(t, s) && IsCartesian(u, s)
    ensures t == u
  {
    if t.Node? && u.Node? {
      if |Inorder(t.left)| <= |Inorder(u.left)| {
        SplitAt(t.left, t.val, t.right, u.left, u.val, u.right);
      } else {
        SplitAt(u.left, u.val, u.right, t.left, t.val, t.right);
      }
      CartesianUnique(t.left, u.left, Inorder(t.left));
      CartesianUnique(t.right, u.right, Inorder(t.right));
    } else {
      assert |Inorder(t)| == |Inorder(u)|;
    }
  }

  // ---------------------------------------------------------------- the recursive builder

  /** `std::max_element`: the first place of the maximum. */
  function MaxElement(s: seq<int>): (i: nat)
    requires s != []
    ensures i < |s| && AllBelow(s[..i], s[i]) && AllAtMost(s, s[i])
  {
    if |s| == 1 then 0
    else
      var i := MaxElement(s[..|s| - 1]);
      assert s[..|s| - 1][..i] == s[..i];
      assert forall j :: 0 <= j < |s| - 1 ==> s[j] == s[..|s| - 1][j];
      if s[|s| - 1] > s[i] then |s| - 1 else i
  }

  /** `constructImpl`. */
  function Construct(s: seq<int>): (t: Tree<int>)
    ensures IsCartesian(t, s)
    decreases |s|
  {
    if s == [] then Nil
    else
      var i := MaxElement(s);
      assert s == s[..i] + ([s[i]] + s[i + 1..]);
      Node(Construct(s[..i]), s[i], Construct(s[i + 1..]))
  }

  // ---------------------------------------------------------------- merging two trees

  /** The next root comes from the right tree when its root is larger or the left tree is used up. */
  function Merge(l: Tree<int>, r: Tree<int>): Tree<int>
    decreases l, r
  {
    if r.Node? && (l.Nil? || r.val > l.val) then Node(Merge(l, r.left), r.val, r.right)
    else if l.Node? then Node(l.left, l.val, Merge(l.right, r))
    else Nil
  }

  lemma BoundsJoin(a: seq<int>, b: seq<int>, v: int)
    ensures AllBelow(a, v) && AllBelow(b, v) ==> AllBelow(a + b, v)
    ensures AllAtMost(a, v) && AllAtMost(b, v) ==> AllAtMost(a + b, v)
  {}

  /** A root bounds its whole tree. */
  lemma RootBounds(t: Tree<int>, v: int)
    requires HeapOrdered(t)
    ensures t.Nil? || t.val < v ==> AllBelow(Inorder(t), v)
    ensures t.Nil? || t.val <= v ==> AllAtMost(Inorder(t), v)
  {}

  lemma InorderNode(l: Tree<int>, v: int, r: Tree<int>)
    ensures Inorder(Node(l, v, r)) == Inorder(l) + ([v] + Inorder(r))
    ensures HeapOrdered(Node(l, v, r)) <==>
      AllBelow(Inorder(l), v) && AllAtMost(Inorder(r), v) && HeapOrdered(l) && HeapOrdered(r)
  {}

  lemma MergeTakesRight(l: Tree<int>, r: Tree<int>, m: Tree<int>)
    requires HeapOrdered(l) && HeapOrdered(r) && r.Node? && (l.Nil? || r.val > l.val)
    requires IsCartesian(m, Inorder(l) + Inorder(r.left))
    ensures IsCartesian(Node(m, r.val, r.right), Inorder(l) + Inorder(r))
  {
    hide AllBelow, AllAtMost, Inorder, HeapOrdered;
    var a, b, c := Inorder(l), Inorder(r.left), [r.val] + Inorder(r.right);
    InorderNode(r.left, r.val, r.right);
    InorderNode(m, r.val, r.right);
    RootBounds(l, r.val);
    BoundsJoin(a, b, r.val);
    assert a + b + c == a + (b + c);
  }

  lemma MergeTakesLeft(l: Tree<int>, r: Tree<int>, m: Tree<int>)
    requires HeapOrdered(l) && HeapOrdered(r) && l.Node? && (r.Nil? || r.val <= l.val)
    requires IsCartesian(m, Inorder(l.right) + Inorder(r))
    ensures IsCartesian(Node(l.left, l.val, m), Inorder(l) + Inorder(r))
  {
    hide AllBelow, AllAtMost, Inorder, HeapOrdered;
    var a, b, c := Inorder(l.left), Inorder(l.right), Inorder(r);
    InorderNode(l.left, l.val, l.right);
    InorderNode(l.left, l.val, m);
    RootBounds(r, l.val);
    BoundsJoin(b, c, l.val);
    Regroup(a, [l.val], b, c);
  }

  lemma Regroup(a: seq<int>, v: seq<int>, b: seq<int>, c: seq<int>)
    ensures a + (v + (b + c)) == a + (v + b) + c
  {}

  /** Merging two maximum trees gives the maximum tree of the concatenation. */
  lemma {:induction false} MergeIsCartesian(l: Tree<int>, r: Tree<int>)
    requires HeapOrdered(l) && HeapOrdered(r)
    ensures IsCartesian(Merge(l, r), Inorder(l) + Inorder(r))
    decreases l, r
  {
    if r.Node? && (l.Nil? || r.val > l.val) {
      MergeIsCartesian(l, r.left);
      MergeTakesRight(l, r, Merge(l, r.left));
    } else if l.Node? {
      MergeIsCartesian(l.right, r);
      MergeTakesLeft(l, r, Merge(l.right, r));
    }
  }

  /** `mergeCartesianTree`, which answers null when either tree is. */
  function MergeCartesianTree(l: Tree<int>, r: Tree<int>): Tree<int> {
    if l.Nil? || r.Nil? then Nil else Merge(l, r)
  }

  /** It merges correctly exactly when both trees are there or both are not. */
  lemma MergeCartesianTreeExactly(l: Tree<int>, r: Tree<int>)
    requires HeapOrdered(l) && HeapOrdered(r)
    ensures IsCartesian(MergeCartesianTree(l, r), Inorder(l) + Inorder(r)) <==> (l.Nil? <==> r.Nil?)
  {
    MergeIsCartesian(l, r);
    if l.Nil? != r.Nil? {
      assert |Inorder(l) + Inorder(r)| > 0;
    }
  }

  lemma MergesTo(l: Tree<int>, r: Tree<int>, s: seq<int>, mid: nat)
    requires 0 < mid < |s| && IsCartesian(l, s[..mid]) && IsCartesian(r, s[mid..])
    ensures IsCartesian(MergeCartesianTree(l, r), s)
  {
    hide HeapOrdered;
    assert |Inorder(l)| > 0 && |Inorder(r)| > 0;
    MergeIsCartesian(l, r);
    assert s == s[..mid] + s[mid..];
  }

  /** `constructDACImpl`. */
  function ConstructDAC(s: seq<int>): (t: Tree<int>)
    ensures IsCartesian(t, s)
    decreases |s|
  {
    if s == [] then Nil
    else if |s| == 1 then
      assert [] + ([s[0]] + []) == s;
      Node(Nil, s[0], Nil)
    else
      var mid := |s| / 2;
      var l, r := ConstructDAC(s[..mid]), ConstructDAC(s[mid..]);
      MergesTo(l, r, s, mid);
      MergeCartesianTree(l, r)
  }

  /** The recursive and the divide-and-conquer builder agree, duplicates or not. */
  lemma BuildersAgree(s: seq<int>)
    ensures Construct(s) == ConstructDAC(s)
  {
    CartesianUnique(Construct(s), ConstructDAC(s), s);
  }
}
