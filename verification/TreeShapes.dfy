/** Trees on the heap: which nodes are where, and how they are linked. */
module TreeShapes {
  import opened BinaryTree

  class TreeNode {
    const val: int
    var left: TreeNode?
    var right: TreeNode?

    constructor (v: int)
      ensures val == v && left == null && right == null
    {
      val, left, right := v, null, null;
    }
  }

  /** Where the nodes of a tree are meant to be. */
  type Shape = Tree<TreeNode>

  function Root(s: Shape): TreeNode? { if s.Nil? then null else s.val }

  ghost function Nodes(s: Shape): set<TreeNode> {
    match s
    case Nil => {}
    case Node(l, n, r) => Nodes(l) + {n} + Nodes(r)
  }

  function Values(s: Shape): Tree<int> {
    match s
    case Nil => Nil
    case Node(l, n, r) => Node(Values(l), n.val, Values(r))
  }

  /** The child pointers are as the shape says. */
  ghost predicate Linked(s: Shape)
    reads Nodes(s)
  {
    match s
    case Nil => true
    case Node(l, n, r) => n.left == Root(l) && n.right == Root(r) && Linked(l) && Linked(r)
  }

  /** No node is in two places. */
  ghost predicate Proper(s: Shape) {
    match s
    case Nil => true
    case Node(l, n, r) => n !in Nodes(l) && n !in Nodes(r) && Nodes(l) !! Nodes(r) && Proper(l) && Proper(r)
  }

  /** A tree with a hole, seen from the hole upwards. */
  datatype Ctx = Top | InLeft(up: Ctx, node: TreeNode, right: Shape) | InRight(up: Ctx, left: Shape, node: TreeNode)

  function Plug(c: Ctx, s: Shape): Shape {
    match c
    case Top => s
    case InLeft(up, n, r) => Plug(up, Node(s, n, r))
    case InRight(up, l, n) => Plug(up, Node(l, n, s))
  }

  ghost function CtxNodes(c: Ctx): set<TreeNode> {
    match c
    case Top => {}
    case InLeft(up, n, r) => CtxNodes(up) + {n} + Nodes(r)
    case InRight(up, l, n) => CtxNodes(up) + {n} + Nodes(l)
  }

  ghost predicate ProperCtx(c: Ctx) {
    match c
    case Top => true
    case InLeft(up, n, r) =>
      n !in CtxNodes(up) && n !in Nodes(r) && CtxNodes(up) !! Nodes(r) && Proper(r) && ProperCtx(up)
    case InRight(up, l, n) =>
      n !in CtxNodes(up) && n !in Nodes(l) && CtxNodes(up) !! Nodes(l) && Proper(l) && ProperCtx(up)
  }

  /** The pointer in the hole; at the top it is the caller's `top`. */
  ghost function Hole(c: Ctx, top: TreeNode?): TreeNode?
    reads CtxNodes(c)
  {
    match c
    case Top => top
    case InLeft(_, n, _) => n.left
    case InRight(_, _, n) => n.right
  }

  /** All child pointers but the one in the hole are as the context says. */
  ghost predicate LinkedCtx(c: Ctx, top: TreeNode?)
    reads CtxNodes(c)
  {
    match c
    case Top => true
    case InLeft(up, n, r) => n.right == Root(r) && Linked(r) && Hole(up, top) == n && LinkedCtx(up, top)
    case InRight(up, l, n) => n.left == Root(l) && Linked(l) && Hole(up, top) == n && LinkedCtx(up, top)
  }

  /** Filling the hole with what it points at gives a linked tree. */
  lemma {:induction false} PlugLinked(c: Ctx, s: Shape, top: TreeNode?)
    requires LinkedCtx(c, top) && Hole(c, top) == Root(s) && Linked(s)
    ensures Linked(Plug(c, s)) && top == Root(Plug(c, s))
    decreases c
  {
    match c
    case Top =>
    case InLeft(up, n, r) => PlugLinked(up, Node(s, n, r), top);
    case InRight(up, l, n) => PlugLinked(up, Node(l, n, s), top);
  }

  lemma {:induction false} PlugNodes(c: Ctx, s: Shape)
    ensures Nodes(Plug(c, s)) == CtxNodes(c) + Nodes(s)
    ensures ProperCtx(c) && Proper(s) && CtxNodes(c) !! Nodes(s) ==> Proper(Plug(c, s))
    decreases c
  {
    match c
    case Top =>
    case InLeft(up, n, r) => PlugNodes(up, Node(s, n, r));
    case InRight(up, l, n) => PlugNodes(up, Node(l, n, s));
  }
}
