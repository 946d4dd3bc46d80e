/** The traversals with an explicit stack, and the tree rebuilt from two of them. */
module Traversals {
  import opened BinaryTree
  import opened Common

  // ---------------------------------------------------------------- inorder

  /** What is still to be listed of the nodes on the stack, the last one on top. */
  ghost function Unvisited(stack: seq<Tree<int>>): seq<int> {
    if stack == [] then []
    else
      var t := stack[|stack| - 1];
      (if t.Node? then [t.val] + Inorder(t.right) else []) + Unvisited(stack[..|stack| - 1])
  }

  lemma PushInorder(t: Tree<int>, stack: seq<Tree<int>>)
    requires t.Node?
    ensures Inorder(t) + Unvisited(stack) == Inorder(t.left) + Unvisited(stack + [t])
  {
    assert (stack + [t])[..|stack|] == stack;
    Associates(Inorder(t.left), [t.val] + Inorder(t.right), Unvisited(stack));
  }

  lemma PopInorder(stack: seq<Tree<int>>)
    requires stack != [] && stack[|stack| - 1].Node?
    ensures var t := stack[|stack| - 1];
      Inorder(Nil) + Unvisited(stack) == [t.val] + (Inorder(t.right) + Unvisited(stack[..|stack| - 1]))
  {
    var t := stack[|stack| - 1];
    Associates([t.val], Inorder(t.right), Unvisited(stack[..|stack| - 1]));
    Associates([], [], Unvisited(stack));
  }

  lemma Associates<T>(a: seq<T>, b: seq<T>, c: seq<T>)
    ensures a + (b + c) == (a + b) + c
    ensures [] + a == a && a + [] == a
  {}

  /** `inorderTraversal`. */
  method InorderTraversal(root: Tree<int>) returns (traversal: seq<int>)
    ensures traversal == Inorder(root)
  {
    traversal := [];
    var unvisited: seq<Tree<int>> := [];
    var ptr := root;
    Associates(Inorder(root), [], []);
    assert Inorder<int>(Nil) == [] && Unvisited([]) == [];
    hide Inorder, Unvisited;
    while ptr != Nil || unvisited != []
      invariant forall t :: t in unvisited ==> t.Node?
      invariant Inorder(root) == traversal + (Inorder(ptr) + Unvisited(unvisited))
      decreases |Inorder(root)| - |traversal|
    {
      while ptr != Nil
        invariant ptr != Nil || unvisited != []
        invariant forall t :: t in unvisited ==> t.Node?
        invariant Inorder(root) == traversal + (Inorder(ptr) + Unvisited(unvisited))
        decreases ptr
      {
        PushInorder(ptr, unvisited);
        unvisited := unvisited + [ptr];
        ptr := ptr.left;
      }
      PopInorder(unvisited);
      ptr := unvisited[|unvisited| - 1];
      unvisited := unvisited[..|unvisited| - 1];
      Associates(traversal, [ptr.val], Inorder(ptr.right) + Unvisited(unvisited));
      traversal := traversal + [ptr.val];
      ptr := ptr.right;
    }
    Associates(traversal, [], []);
  }

  // ---------------------------------------------------------------- postorder

  /** Root, right, left: the order the postorder loop lists nodes in before it reverses the list. */
  ghost function Mirrored(t: Tree<int>): seq<int> {
    match t
    case Nil => []
    case Node(l, v, r) => [v] + (Mirrored(r) + Mirrored(l))
  }

  function Reversed(s: seq<int>): (r: seq<int>)
    ensures |r| == |s| && forall k :: 0 <= k < |s| ==> r[k] == s[|s| - 1 - k]
  {
    seq(|s|, k requires 0 <= k < |s| => s[|s| - 1 - k])
  }

  lemma ReversedSum(v: int, b: seq<int>, c: seq<int>)
    ensures Reversed([v] + (b + c)) == Reversed(c) + Reversed(b) + [v]
  {}

  lemma {:induction false} MirroredIsPostorder(t: Tree<int>)
    ensures Reversed(Mirrored(t)) == Postorder(t)
  {
    if t.Node? {
      MirroredIsPostorder(t.left);
      MirroredIsPostorder(t.right);
      ReversedSum(t.val, Mirrored(t.right), Mirrored(t.left));
    }
  }

  /** The left subtrees of the nodes on the stack are still to be listed. */
  ghost function LeftPending(stack: seq<Tree<int>>): seq<int> {
    if stack == [] then []
    else
      var t := stack[|stack| - 1];
      (if t.Node? then Mirrored(t.left) else []) + LeftPending(stack[..|stack| - 1])
  }

  lemma PushMirrored(t: Tree<int>, stack: seq<Tree<int>>)
    requires t.Node?
    ensures Mirrored(t) + LeftPending(stack) == [t.val] + (Mirrored(t.right) + LeftPending(stack + [t]))
  {
    assert (stack + [t])[..|stack|] == stack;
    Associates(Mirrored(t.right), Mirrored(t.left), LeftPending(stack));
    Associates([t.val], Mirrored(t.right) + Mirrored(t.left), LeftPending(stack));
  }

  lemma PopMirrored(stack: seq<Tree<int>>)
    requires stack != [] && stack[|stack| - 1].Node?
    ensures var t := stack[|stack| - 1];
      Mirrored(Nil) + LeftPending(stack) == Mirrored(t.left) + LeftPending(stack[..|stack| - 1])
  {
    Associates([], [], LeftPending(stack));
  }

  /** `std::reverse`. */
  method ReverseAll(s: seq<int>) returns (r: seq<int>)
    ensures r == Reversed(s)
  {
    r := s;
    var i, j := 0, |s|;
    while i < j
      invariant |r| == |s| && i + j == |s| && i <= j + 1
      invariant forall k :: i <= k < j ==> r[k] == s[k]
      invariant forall k :: 0 <= k < i || j <= k < |s| ==> r[k] == s[|s| - 1 - k]
    {
      j := j - 1;
      r := r[i := r[j]][j := r[i]];
      i := i + 1;
    }
  }

  /** `postorderTraversal`. */
  method PostorderTraversal(root: Tree<int>) returns (traversal: seq<int>)
    ensures traversal == Postorder(root)
  {
    traversal := [];
    var unvisited: seq<Tree<int>> := [];
    var ptr := root;
    Associates(Mirrored(root), [], []);
    MirroredIsPostorder(root);
    assert Mirrored(Nil) == [] && LeftPending([]) == [];
    hide Mirrored, LeftPending, Postorder, Reversed;
    while ptr != Nil || unvisited != []
      invariant forall t :: t in unvisited ==> t.Node?
      invariant Mirrored(root) == traversal + (Mirrored(ptr) + LeftPending(unvisited))
      decreases |Mirrored(root)| - |traversal|, |unvisited|
    {
      ghost var listed, waiting := |traversal|, |unvisited|;
      while ptr != Nil
        invariant ptr != Nil || unvisited != []
        invariant |traversal| > listed || (|traversal| == listed && |unvisited| == waiting)
        invariant forall t :: t in unvisited ==> t.Node?
        invariant Mirrored(root) == traversal + (Mirrored(ptr) + LeftPending(unvisited))
        decreases ptr
      {
        PushMirrored(ptr, unvisited);
        Associates(traversal, [ptr.val], Mirrored(ptr.right) + LeftPending(unvisited + [ptr]));
        traversal := traversal + [ptr.val];
        unvisited := unvisited + [ptr];
        ptr := ptr.right;
      }
      PopMirrored(unvisited);
      ptr := unvisited[|unvisited| - 1];
      unvisited := unvisited[..|unvisited| - 1];
      ptr := ptr.left;
    }
    Associates(traversal, [], []);
    traversal := ReverseAll(traversal);
  }

  // ---------------------------------------------------------------- rebuilding

  /** `std::find`: the first place of `v`, or the end. */
  function Find(s: seq<int>, v: int): (i: nat)
    ensures i <= |s| && v !in s[..i] && (i < |s| ==> s[i] == v)
  {
    if s == [] || s[0] == v then 0
    else
      var i := Find(s[1..], v);
      assert s[..i + 1] == [s[0]] + s[1..][..i];
      i + 1
  }

  /** `buildTreeImpl`; `None` where the source's iterators leave their ranges. */
  function BuildTree(inorder: seq<int>, postorder: seq<int>): Option<Tree<int>>
    decreases |inorder|
  {
    if inorder == [] then Some(Nil)
    else if postorder == [] then None
    else
      var last := |postorder| - 1;
      var i := Find(inorder, postorder[last]);
      if i == |inorder| || i > last then None
      else
        match (BuildTree(inorder[..i], postorder[..i]), BuildTree(inorder[i + 1..], postorder[i..last]))
        case (Some(l), Some(r)) => Some(Node(l, postorder[last], r))
        case _ => None
  }

  lemma NothingListed()
    ensures Inorder<int>(Nil) == [] && Postorder<int>(Nil) == []
  {}

  lemma JoinsTraversals(l: Tree<int>, r: Tree<int>, inorder: seq<int>, postorder: seq<int>, i: nat)
    requires i < |inorder| == |postorder| && inorder[i] == postorder[|postorder| - 1]
    requires Inorder(l) == inorder[..i] && Inorder(r) == inorder[i + 1..]
    requires Postorder(l) == postorder[..i] && Postorder(r) == postorder[i..|postorder| - 1]
    ensures Inorder(Node(l, inorder[i], r)) == inorder && Postorder(Node(l, inorder[i], r)) == postorder
  {}

  /** Whatever is built, from any two lists of one length, has them as its traversals. */
  lemma {:induction false} BuiltHasTraversals(inorder: seq<int>, postorder: seq<int>)
    requires |inorder| == |postorder| && BuildTree(inorder, postorder).Some?
    ensures var t := BuildTree(inorder, postorder).value; Inorder(t) == inorder && Postorder(t) == postorder
    decreases |inorder|
  {
    hide Inorder, Postorder;
    if inorder == [] {
      NothingListed();
    } else {
      var last := |postorder| - 1;
      var i := Find(inorder, postorder[last]);
      BuiltHasTraversals(inorder[..i], postorder[..i]);
      BuiltHasTraversals(inorder[i + 1..], postorder[i..last]);
      var l, r := BuildTree(inorder[..i], postorder[..i]).value, BuildTree(inorder[i + 1..], postorder[i..last]).value;
      JoinsTraversals(l, r, inorder, postorder, i);
    }
  }

  /** No value of a node occurs to the left below it. */
  ghost predicate RootsComeFirst(t: Tree<int>) {
    match t
    case Nil => true
    case Node(l, v, r) => v !in Inorder(l) && RootsComeFirst(l) && RootsComeFirst(r)
  }

  lemma {:induction false} TraversalLengths(t: Tree<int>)
    ensures |Inorder(t)| == |Postorder(t)|
  {
    if t.Node? {
      TraversalLengths(t.left);
      TraversalLengths(t.right);
    }
  }

  lemma FindAtRoot(a: seq<int>, v: int, b: seq<int>)
    requires v !in a
    ensures Find(a + ([v] + b), v) == |a|
  {
    var s := a + ([v] + b);
    var i := Find(s, v);
    assert s[|a|] == v && forall k :: 0 <= k < |a| ==> s[k] == a[k];
    assert forall k :: 0 <= k < i ==> s[k] in s[..i];
  }

  /** The cuts of the two traversals of a node, when the root is found at its place. */
  lemma CutsAt(t: Tree<int>)
    requires t.Node?
    ensures |Inorder(t.left)| == |Postorder(t.left)| < |Inorder(t)| == |Postorder(t)|
    ensures var a, p, i := Inorder(t), Postorder(t), |Inorder(t.left)|; var last := |p| - 1;
      && a[..i] == Inorder(t.left) && a[i] == t.val && a[i + 1..] == Inorder(t.right)
      && p[..i] == Postorder(t.left) && p[i..last] == Postorder(t.right) && p[last] == t.val
  {
    TraversalLengths(t.left);
    TraversalLengths(t.right);
    var a, b := Inorder(t.left), Inorder(t.right);
    var p, q := Postorder(t.left), Postorder(t.right);
    assert Inorder(t) == a + ([t.val] + b) && Postorder(t) == p + q + [t.val];
    hide Inorder, Postorder;
    Slices(a, t.val, b, p, q);
  }

  lemma Slices(a: seq<int>, v: int, b: seq<int>, p: seq<int>, q: seq<int>)
    ensures (a + ([v] + b))[..|a|] == a && (a + ([v] + b))[|a| + 1..] == b
    ensures (p + q + [v])[..|p|] == p && (p + q + [v])[|p|..|p| + |q|] == q
  {}

  lemma BuildsNode(a: seq<int>, p: seq<int>, i: nat)
    requires |a| == |p| > i && i == Find(a, p[|p| - 1])
    ensures BuildTree(a, p) ==
            match (BuildTree(a[..i], p[..i]), BuildTree(a[i + 1..], p[i..|p| - 1]))
            case (Some(l), Some(r)) => Some(Node(l, p[|p| - 1], r))
            case _ => None
  {}

  /** `BuildTree` cuts the traversals of a node where the node does, if and only if it finds the root there. */
  lemma BuildsAtRoot(t: Tree<int>)
    requires t.Node?
    ensures var at := Find(Inorder(t), t.val);
      && (at == |Inorder(t.left)| <==> t.val !in Inorder(t.left))
      && (t.val !in Inorder(t.left) ==>
            BuildTree(Inorder(t), Postorder(t)) ==
            match (BuildTree(Inorder(t.left), Postorder(t.left)), BuildTree(Inorder(t.right), Postorder(t.right)))
            case (Some(l), Some(r)) => Some(Node(l, t.val, r))
            case _ => None)
  {
    CutsAt(t);
    assert Inorder(t) == Inorder(t.left) + ([t.val] + Inorder(t.right));
    hide Inorder, Postorder, BuildTree;
    if t.val !in Inorder(t.left) {
      FindAtRoot(Inorder(t.left), t.val, Inorder(t.right));
      BuildsNode(Inorder(t), Postorder(t), |Inorder(t.left)|);
    } else {
      assert Inorder(t)[..|Inorder(t.left)|] == Inorder(t.left);
    }
  }

  lemma {:induction false} RebuildsWhenFirst(t: Tree<int>)
    requires RootsComeFirst(t)
    ensures BuildTree(Inorder(t), Postorder(t)) == Some(t)
  {
    if t.Node? {
      hide Inorder, Postorder, BuildTree;
      BuildsAtRoot(t);
      RebuildsWhenFirst(t.left);
      RebuildsWhenFirst(t.right);
    }
  }

  /** What `BuildTree` hangs to the left has as many nodes as stand before the root it found. */
  lemma LeftSize(a: seq<int>, p: seq<int>)
    requires |a| == |p| > 0 && BuildTree(a, p).Some?
    ensures var t := BuildTree(a, p).value; t.Node? && Find(a, p[|p| - 1]) == |Inorder(t.left)|
  {
    hide Inorder;
    var i := Find(a, p[|p| - 1]);
    BuiltHasTraversals(a[..i], p[..i]);
  }

  lemma {:induction false} FirstWhenRebuilt(t: Tree<int>)
    requires BuildTree(Inorder(t), Postorder(t)) == Some(t)
    ensures RootsComeFirst(t)
  {
    if t.Node? {
      hide Inorder, Postorder, BuildTree;
      CutsAt(t);
      LeftSize(Inorder(t), Postorder(t));
      BuildsAtRoot(t);
      FirstWhenRebuilt(t.left);
      FirstWhenRebuilt(t.right);
    }
  }

  /** The tree comes back exactly when the first occurrence of each root is the root. */
  lemma RebuildsExactly(t: Tree<int>)
    ensures BuildTree(Inorder(t), Postorder(t)) == Some(t) <==> RootsComeFirst(t)
  {
    if RootsComeFirst(t) {
      RebuildsWhenFirst(t);
    } else if BuildTree(Inorder(t), Postorder(t)) == Some(t) {
      FirstWhenRebuilt(t);
    }
  }

  /** In particular for trees without duplicates. */
  lemma {:induction false} DistinctRebuild(t: Tree<int>)
    requires forall i, j :: 0 <= i < j < |Inorder(t)| ==> Inorder(t)[i] != Inorder(t)[j]
    ensures BuildTree(Inorder(t), Postorder(t)) == Some(t)
  {
    DistinctRootsFirst(t);
    RebuildsExactly(t);
  }

  lemma {:induction false} DistinctRootsFirst(t: Tree<int>)
    requires forall i, j :: 0 <= i < j < |Inorder(t)| ==> Inorder(t)[i] != Inorder(t)[j]
    ensures RootsComeFirst(t)
  {
    if t.Node? {
      var a, b := Inorder(t.left), Inorder(t.right);
      assert Inorder(t)[|a|] == t.val;
      assert forall i :: 0 <= i < |a| ==> a[i] == Inorder(t)[i];
      assert forall i :: 0 <= i < |b| ==> b[i] == Inorder(t)[|a| + 1 + i];
      DistinctRootsFirst(t.left);
      DistinctRootsFirst(t.right);
    }
  }
}
