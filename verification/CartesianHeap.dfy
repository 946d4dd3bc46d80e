/** The maximum-tree builders that rewrite child pointers. */
module CartesianHeap {
  import opened Common
  import opened BinaryTree
  import opened Cartesian
  import opened TreeShapes

  // ---------------------------------------------------------------- merging along the spines

  /** `Merge` on shapes. */
  function MergeShapes(l: Shape, r: Shape): Shape
    decreases l, r
  {
    if r.Node? && (l.Nil? || r.val.val > l.val.val) then Node(MergeShapes(l, r.left), r.val, r.right)
    else if l.Node? then Node(l.left, l.val, MergeShapes(l.right, r))
    else Nil
  }

  lemma {:induction false} MergeShapesIsMerge(l: Shape, r: Shape)
    ensures Values(MergeShapes(l, r)) == Merge(Values(l), Values(r))
    ensures Nodes(MergeShapes(l, r)) == Nodes(l) + Nodes(r)
    ensures Proper(l) && Proper(r) && Nodes(l) !! Nodes(r) ==> Proper(MergeShapes(l, r))
    decreases l, r
  {
    if r.Node? && (l.Nil? || r.val.val > l.val.val) {
      MergeShapesIsMerge(l, r.left);
    } else if l.Node? {
      MergeShapesIsMerge(l.right, r);
    }
  }

  lemma {:induction false} NodesExist(s: Shape)
    ensures forall n :: n in Nodes(s) ==> allocated(n)
  {
    if s.Node? {
      NodesExist(s.left);
      NodesExist(s.right);
    }
  }

  /** The hole of `c` is the left or the right pointer of `cur`; at the top it is the left one of the dummy `root`. */
  ghost predicate HoleAt(c: Ctx, cur: TreeNode, isRightSpine: bool, root: TreeNode) {
    match c
    case Top => cur == root && isRightSpine
    case InLeft(_, n, _) => cur == n && isRightSpine
    case InRight(_, _, n) => cur == n && !isRightSpine
  }

  /** Everything the merge loop keeps about the nodes: linked as recorded, and none in two places. */
  ghost predicate Spines(c: Ctx, l: Shape, r: Shape, root: TreeNode)
    reads root, CtxNodes(c), Nodes(l), Nodes(r)
  {
    && Linked(l) && Linked(r) && LinkedCtx(c, root.left)
    && Apart(c, l, r, root)
  }

  ghost predicate Apart(c: Ctx, l: Shape, r: Shape, root: TreeNode) {
    && Proper(l) && Proper(r) && ProperCtx(c)
    && Nodes(l) !! Nodes(r) !! CtxNodes(c)
    && root !in Nodes(l) && root !in Nodes(r) && root !in CtxNodes(c)
  }

  /** Writing `child` into the hole. */
  method FillHole(cur: TreeNode, isRightSpine: bool, child: TreeNode, ghost c: Ctx, ghost l: Shape, ghost r: Shape,
                  ghost root: TreeNode)
    requires HoleAt(c, cur, isRightSpine, root) && Spines(c, l, r, root)
    modifies cur
    ensures Spines(c, l, r, root) && Hole(c, root.left) == child
  {
    if isRightSpine {
      cur.left := child;
    } else {
      cur.right := child;
    }
  }

  lemma TakeRight(c: Ctx, l: Shape, r: Shape, root: TreeNode)
    requires Spines(c, l, r, root) && r.Node? && Hole(c, root.left) == r.val
    ensures Spines(InLeft(c, r.val, r.right), l, r.left, root)
    ensures CtxNodes(InLeft(c, r.val, r.right)) + Nodes(l) + Nodes(r.left) == CtxNodes(c) + Nodes(l) + Nodes(r)
  {}

  lemma TakeLeft(c: Ctx, l: Shape, r: Shape, root: TreeNode)
    requires Spines(c, l, r, root) && l.Node? && Hole(c, root.left) == l.val
    ensures Spines(InRight(c, l.left, l.val), l.right, r, root)
    ensures CtxNodes(InRight(c, l.left, l.val)) + Nodes(l.right) + Nodes(r) == CtxNodes(c) + Nodes(l) + Nodes(r)
  {}

  /** Until it is filled, the hole still points at what remains of the tree the last node came from. */
  ghost predicate HoleHolds(c: Ctx, l: Shape, r: Shape, root: TreeNode)
    reads root, CtxNodes(c)
  {
    Hole(c, root.left) == match c case Top => null case InLeft(_, _, _) => Root(r) case InRight(_, _, _) => Root(l)
  }

  lemma AllTaken(c: Ctx, root: TreeNode)
    requires Spines(c, Nil, Nil, root) && HoleHolds(c, Nil, Nil, root)
    ensures Linked(Plug(c, Nil)) && root.left == Root(Plug(c, Nil))
  {
    PlugLinked(c, Nil, root.left);
  }

  /** `mergeCartesianTree`: null when either tree is, else the nodes of both, relinked. */
  method MergeCartesianTree(ltree0: TreeNode?, rtree0: TreeNode?, ghost l0: Shape, ghost r0: Shape)
    returns (merged: TreeNode?, ghost m: Shape)
    requires ltree0 == Root(l0) && rtree0 == Root(r0) && Linked(l0) && Linked(r0)
    requires Proper(l0) && Proper(r0) && Nodes(l0) !! Nodes(r0)
    modifies Nodes(l0), Nodes(r0)
    ensures merged == Root(m) && Linked(m) && Proper(m) && Nodes(m) <= Nodes(l0) + Nodes(r0)
    ensures Values(m) == Cartesian.MergeCartesianTree(Values(l0), Values(r0))
  {
    if ltree0 == null || rtree0 == null {
      return null, Nil;
    }
    NodesExist(l0);
    NodesExist(r0);
    var root := new TreeNode(0);
    var ltree, rtree, isRightSpine := ltree0, rtree0, true;
    var cur: TreeNode := root;
    ghost var l, r, c := l0, r0, Top;
    while ltree != null || rtree != null
      invariant ltree == Root(l) && rtree == Root(r) && Spines(c, l, r, root) && HoleAt(c, cur, isRightSpine, root)
      invariant HoleHolds(c, l, r, root)
      invariant CtxNodes(c) + Nodes(l) + Nodes(r) == Nodes(l0) + Nodes(r0)
      invariant Plug(c, MergeShapes(l, r)) == MergeShapes(l0, r0)
      decreases l, r
    {
      if rtree != null && (ltree == null || rtree.val > ltree.val) {
        FillHole(cur, isRightSpine, rtree, c, l, r, root);
        TakeRight(c, l, r, root);
        cur, isRightSpine := rtree, true;
        c := InLeft(c, rtree, r.right);
        rtree, r := rtree.left, r.left;
      } else {
        FillHole(cur, isRightSpine, ltree, c, l, r, root);
        TakeLeft(c, l, r, root);
        cur, isRightSpine := ltree, false;
        c := InRight(c, l.left, ltree);
        ltree, l := ltree.right, l.right;
      }
    }
    m := MergeShapes(l0, r0);
    AllTaken(c, root);
    MergeShapesIsMerge(l0, r0);
    merged := root.left;
  }

  // ---------------------------------------------------------------- the recursive builders

  /** A tree of new nodes with the given values. */
  ghost predicate Builds(root: TreeNode?, s: Shape, t: Tree<int>)
    reads Nodes(s)
  {
    root == Root(s) && Linked(s) && Proper(s) && Values(s) == t
  }

  lemma Joined(node: TreeNode, l: Shape, r: Shape, nums: seq<int>, i: nat)
    requires nums != [] && i == MaxElement(nums) && node.val == nums[i]
    requires Builds(node.left, l, Construct(nums[..i])) && Builds(node.right, r, Construct(nums[i + 1..]))
    requires node !in Nodes(l) && node !in Nodes(r) && Nodes(l) !! Nodes(r)
    ensures Builds(node, Node(l, node, r), Construct(nums))
    ensures Nodes(Node(l, node, r)) == Nodes(l) + {node} + Nodes(r)
  {
    hide IsCartesian;
  }

  /** `constructImpl`, on the range given as a sequence. */
  method ConstructImpl(nums: seq<int>) returns (root: TreeNode?, ghost s: Shape)
    ensures Builds(root, s, Construct(nums)) && fresh(Nodes(s))
    decreases |nums|
  {
    hide Construct, IsCartesian, AllBelow, AllAtMost;
    if nums == [] {
      ConstructNothing();
      return null, Nil;
    }
    hide Nodes, Linked, Proper, Values;
    var i := MaxElement(nums);
    var node := new TreeNode(nums[i]);
    ghost var l, r;
    node.left, l := ConstructImpl(nums[..i]);
    NodesExist(l);
    node.right, r := ConstructImpl(nums[i + 1..]);
    Joined(node, l, r, nums, i);
    return node, Node(l, node, r);
  }

  lemma ConstructNothing()
    ensures Construct([]) == Nil
  {}

  /** `constructDACImpl`, on the range given as a sequence. */
  method ConstructDACImpl(nums: seq<int>) returns (root: TreeNode?, ghost s: Shape)
    ensures Builds(root, s, ConstructDAC(nums)) && fresh(Nodes(s))
    decreases |nums|
  {
    if nums == [] {
      return null, Nil;
    } else if |nums| == 1 {
      root := new TreeNode(nums[0]);
      return root, Node(Nil, root, Nil);
    }
    var mid := |nums| / 2;
    var ltree, l := ConstructDACImpl(nums[..mid]);
    NodesExist(l);
    var rtree, r := ConstructDACImpl(nums[mid..]);
    root, s := MergeCartesianTree(ltree, rtree, l, r);
  }

  // ---------------------------------------------------------------- the builder with a stack

  /** The nodes on the stack, which form the right spine. */
  function StackOf(c: Ctx): seq<TreeNode> {
    match c
    case Top => []
    case InLeft(_, _, _) => []
    case InRight(up, _, n) => StackOf(up) + [n]
  }

  /** A right spine whose nodes never increase and exceed what is left of them. */
  ghost predicate SpineOk(c: Ctx) {
    match c
    case Top => true
    case InLeft(_, _, _) => false
    case InRight(up, l, n) =>
      && SpineOk(up) && HeapOrdered(Values(l)) && AllBelow(Inorder(Values(l)), n.val)
      && (up.Top? || n.val <= up.node.val)
  }

  function SpineInorder(c: Ctx): seq<int> {
    match c
    case Top => []
    case InLeft(_, _, _) => []
    case InRight(up, l, n) => SpineInorder(up) + (Inorder(Values(l)) + [n.val])
  }

  /** `s` may hang from the end of the spine. */
  ghost predicate FitsBelow(c: Ctx, s: Shape) {
    HeapOrdered(Values(s)) && (c.Top? || AllAtMost(Inorder(Values(s)), c.node.val))
  }

  lemma PopFits(c: Ctx, s: Shape, v: int)
    requires c.InRight? && SpineOk(c) && FitsBelow(c, s)
    requires c.node.val < v && AllBelow(Inorder(Values(s)), v)
    ensures var s' := Node(c.left, c.node, s);
      && FitsBelow(c.up, s') && AllBelow(Inorder(Values(s')), v)
      && SpineInorder(c.up) + Inorder(Values(s')) == SpineInorder(c) + Inorder(Values(s))
  {
    var a, b, d := SpineInorder(c.up), Inorder(Values(c.left)), Inorder(Values(s));
    assert a + (b + ([c.node.val] + d)) == a + (b + [c.node.val]) + d;
  }

  /** A spine with a fitting end is a maximum tree. */
  lemma {:induction false} SpineIsCartesian(c: Ctx, s: Shape)
    requires SpineOk(c) && FitsBelow(c, s)
    ensures IsCartesian(Values(Plug(c, s)), SpineInorder(c) + Inorder(Values(s)))
    decreases c
  {
    if c.InRight? {
      var v := Max(c.node.val, if c.up.Top? then c.node.val else c.up.node.val) + 1;
      var s' := Node(c.left, c.node, s);
      assert AllBelow(Inorder(Values(s)), v);
      PopFits(c, s, v);
      SpineIsCartesian(c.up, s');
    }
  }

  /** Between two rounds: the spine holds what was read, as a linked tree without an end. */
  ghost predicate OnSpine(c: Ctx, top: TreeNode?, done: seq<int>)
    reads CtxNodes(c)
  {
    SpineOk(c) && SpineInorder(c) == done && LinkedCtx(c, top) && ProperCtx(c) && (c.InRight? ==> c.node.right == null)
  }

  /** The nodes of the inner loop: the spine, and the popped part hanging from the new node. */
  ghost predicate Popping(c: Ctx, s: Shape, cur: TreeNode, top: TreeNode?)
    reads cur, CtxNodes(c), Nodes(s)
  {
    && LinkedCtx(c, top) && Linked(s) && cur.left == Root(s) && cur.right == null
    && (c.InRight? ==> c.node.right == Root(s))
    && ProperCtx(c) && Proper(s) && CtxNodes(c) !! Nodes(s) && cur !in CtxNodes(c) && cur !in Nodes(s)
  }

  /** Their values: what was read, with everything popped below the new value. */
  ghost predicate Ordered(c: Ctx, s: Shape, v: int, done: seq<int>) {
    && SpineOk(c) && FitsBelow(c, s) && AllBelow(Inorder(Values(s)), v)
    && SpineInorder(c) + Inorder(Values(s)) == done
  }

  lemma StartPopping(c: Ctx, cur: TreeNode, top: TreeNode?, done: seq<int>)
    requires OnSpine(c, top, done) && cur !in CtxNodes(c) && cur.left == null && cur.right == null
    ensures Popping(c, Nil, cur, top) && Ordered(c, Nil, cur.val, done)
    ensures CtxNodes(c) + Nodes(Nil) == CtxNodes(c)
  {
    assert done + [] == done;
  }

  /** One node leaves the stack and becomes the left child of the new one. */
  method PopOne(cur: TreeNode, nodes: seq<TreeNode>, ghost c: Ctx, ghost s: Shape, ghost top: TreeNode?,
                ghost done: seq<int>)
    requires nodes == StackOf(c) && nodes != [] && nodes[|nodes| - 1].val < cur.val
    requires Popping(c, s, cur, top) && Ordered(c, s, cur.val, done)
    modifies cur
    ensures c.InRight? && nodes[..|nodes| - 1] == StackOf(c.up)
    ensures var s' := Node(c.left, c.node, s);
      && Popping(c.up, s', cur, top) && Ordered(c.up, s', cur.val, done)
      && CtxNodes(c.up) + Nodes(s') == CtxNodes(c) + Nodes(s)
  {
    PopFits(c, s, cur.val);
    cur.left := nodes[|nodes| - 1];
  }

  lemma PushOrdered(c: Ctx, s: Shape, cur: TreeNode, done: seq<int>)
    requires Ordered(c, s, cur.val, done) && (c.InRight? ==> c.node.val >= cur.val)
    ensures SpineOk(InRight(c, s, cur)) && SpineInorder(InRight(c, s, cur)) == done + [cur.val]
  {
    assert SpineInorder(c) + (Inorder(Values(s)) + [cur.val]) == SpineInorder(c) + Inorder(Values(s)) + [cur.val];
  }

  /** The new node goes onto the stack. */
  method PushOne(cur: TreeNode, nodes: seq<TreeNode>, ghost c: Ctx, ghost s: Shape, ghost top: TreeNode?,
                 ghost done: seq<int>)
    requires nodes == StackOf(c) && (nodes != [] ==> nodes[|nodes| - 1].val >= cur.val)
    requires Popping(c, s, cur, top) && Ordered(c, s, cur.val, done)
    modifies if nodes != [] then {nodes[|nodes| - 1]} else {}
    ensures var c' := InRight(c, s, cur);
      && OnSpine(c', if c.Top? then cur else top, done + [cur.val])
      && StackOf(c') == nodes + [cur] && CtxNodes(c') == CtxNodes(c) + Nodes(s) + {cur}
  {
    PushOrdered(c, s, cur, done);
    hide Inorder, HeapOrdered, FitsBelow, AllBelow, AllAtMost, SpineInorder;
    assert !c.InLeft? && (c.InRight? ==> nodes[|nodes| - 1] == c.node);
    hide SpineOk;
    if nodes != [] {
      nodes[|nodes| - 1].right := cur;
      assert LinkedCtx(InRight(c, s, cur), top);
    } else {
      assert c.Top?;
      assert LinkedCtx(InRight(c, s, cur), cur);
    }
  }

  lemma {:induction false} FrontIsTop(c: Ctx, top: TreeNode?)
    requires SpineOk(c) && c.InRight? && LinkedCtx(c, top)
    ensures StackOf(c) != [] && StackOf(c)[0] == top
  {
    if c.up.InRight? {
      FrontIsTop(c.up, top);
    }
  }

  lemma SpineIsWhole(c: Ctx, top: TreeNode?, nums: seq<int>)
    requires nums != [] && OnSpine(c, top, nums)
    ensures StackOf(c) != [] && Builds(StackOf(c)[0], Plug(c, Nil), Construct(nums))
      && Nodes(Plug(c, Nil)) == CtxNodes(c)
  {
    hide Construct, Inorder, HeapOrdered, AllBelow, AllAtMost;
    assert c.InRight?;
    FrontIsTop(c, top);
    PlugLinked(c, Nil, top);
    PlugNodes(c, Nil);
    NothingFits(c);
    SpineIsCartesian(c, Nil);
    assert nums + [] == nums;
    CartesianUnique(Values(Plug(c, Nil)), Construct(nums), nums);
  }

  lemma NothingFits(c: Ctx)
    ensures FitsBelow(c, Nil) && Inorder(Values(Nil)) == []
  {}

  /** The inner loop: every node with a smaller value leaves the stack. */
  method PopSmaller(cur: TreeNode, nodes0: seq<TreeNode>, ghost c0: Ctx, ghost top: TreeNode?, ghost done: seq<int>)
    returns (nodes: seq<TreeNode>, ghost c: Ctx, ghost s: Shape)
    requires nodes0 == StackOf(c0) && Popping(c0, Nil, cur, top) && Ordered(c0, Nil, cur.val, done)
    modifies cur
    ensures nodes == StackOf(c) && CtxNodes(c) + Nodes(s) == CtxNodes(c0)
    ensures Popping(c, s, cur, top) && Ordered(c, s, cur.val, done)
    ensures nodes == [] || nodes[|nodes| - 1].val >= cur.val
  {
    nodes, c, s := nodes0, c0, Nil;
    assert CtxNodes(c) + Nodes(s) == CtxNodes(c0);
    hide Popping, Ordered, Nodes, CtxNodes, StackOf;
    while nodes != [] && nodes[|nodes| - 1].val < cur.val
      invariant nodes == StackOf(c) && CtxNodes(c) + Nodes(s) == CtxNodes(c0)
      invariant Popping(c, s, cur, top) && Ordered(c, s, cur.val, done)
      decreases |nodes|
    {
      PopOne(cur, nodes, c, s, top, done);
      s := Node(c.left, c.node, s);
      c := c.up;
      nodes := nodes[..|nodes| - 1];
    }
  }

  /** One round of the outer loop. */
  method AddValue(v: int, nodes0: seq<TreeNode>, ghost c0: Ctx, ghost top0: TreeNode?, ghost done: seq<int>)
    returns (nodes: seq<TreeNode>, ghost c: Ctx, ghost top: TreeNode?)
    requires nodes0 == StackOf(c0) && OnSpine(c0, top0, done)
    modifies CtxNodes(c0)
    ensures nodes == StackOf(c) && OnSpine(c, top, done + [v])
    ensures forall n :: n in CtxNodes(c) ==> n in CtxNodes(c0) || fresh(n)
  {
    hide OnSpine, Popping, Ordered, Nodes, CtxNodes, StackOf;
    CtxNodesExist(c0);
    var cur := new TreeNode(v);
    StartPopping(c0, cur, top0, done);
    ghost var s;
    nodes, c, s := PopSmaller(cur, nodes0, c0, top0, done);
    LastIsOurs(c, nodes);
    PushOne(cur, nodes, c, s, top0, done);
    top := if c.Top? then cur else top0;
    c := InRight(c, s, cur);
    nodes := nodes + [cur];
  }

  /** `constructMaximumBinaryTreeIterative`; `front()` needs a non-empty vector. */
  method ConstructIterative(nums: seq<int>) returns (root: TreeNode?, ghost m: Shape)
    requires nums != []
    ensures Builds(root, m, Construct(nums)) && fresh(Nodes(m))
  {
    var nodes: seq<TreeNode> := [];
    ghost var c: Ctx, top: TreeNode? := Top, null;
    assert OnSpine(c, top, []) && StackOf(c) == [] && CtxNodes(c) == {};
    hide Construct, OnSpine, Nodes, CtxNodes, StackOf, Builds, Plug;
    for i := 0 to |nums|
      invariant nodes == StackOf(c) && OnSpine(c, top, nums[..i]) && fresh(CtxNodes(c))
    {
      assert nums[..i + 1] == nums[..i] + [nums[i]];
      nodes, c, top := AddValue(nums[i], nodes, c, top, nums[..i]);
    }
    assert nums[..|nums|] == nums;
    SpineIsWhole(c, top, nums);
    root := nodes[0];
    m := Plug(c, Nil);
  }

  lemma LastIsOurs(c: Ctx, nodes: seq<TreeNode>)
    requires nodes == StackOf(c)
    ensures nodes != [] ==> nodes[|nodes| - 1] in CtxNodes(c)
  {}

  lemma {:induction false} CtxNodesExist(c: Ctx)
    ensures forall n :: n in CtxNodes(c) ==> allocated(n)
  {
    match c
    case Top =>
    case InLeft(up, _, r) =>
      CtxNodesExist(up);
      NodesExist(r);
    case InRight(up, l, _) =>
      CtxNodesExist(up);
      NodesExist(l);
  }
}
