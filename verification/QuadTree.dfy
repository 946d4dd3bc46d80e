/** The union of two quad trees. */
module QuadTree {
  import opened Common

  datatype Quadrant = TopLeft | TopRight | BottomLeft | BottomRight

  /** The `val` of an inner node means nothing. */
  datatype Quad =
    | Leaf(val: bool)
    | Inner(val: bool, topLeft: Quad, topRight: Quad, bottomLeft: Quad, bottomRight: Quad)

  function Child(q: Quad, d: Quadrant): (c: Quad)
    ensures q.Inner? ==> c < q
  {
    if q.Leaf? then q
    else
      match d
      case TopLeft => q.topLeft
      case TopRight => q.topRight
      case BottomLeft => q.bottomLeft
      case BottomRight => q.bottomRight
  }

  /** `intersect`. */
  function Intersect(a: Quad, b: Quad): Quad {
    if a.Leaf? && a.val then a
    else if b.Leaf? && b.val then b
    else if a.Leaf? then b
    else if b.Leaf? then a
    else
      var tl := Intersect(a.topLeft, b.topLeft);
      var tr := Intersect(a.topRight, b.topRight);
      var bl := Intersect(a.bottomLeft, b.bottomLeft);
      var br := Intersect(a.bottomRight, b.bottomRight);
      if tl.val == tr.val && tl.val == bl.val && tl.val == br.val && tl.Leaf? && tr.Leaf? && bl.Leaf? && br.Leaf?
      then Leaf(tl.val)
      else Inner(false, tl, tr, bl, br)
  }

  function Depth(q: Quad): nat {
    if q.Leaf? then 0
    else 1 + Max(Max(Depth(q.topLeft), Depth(q.topRight)), Max(Depth(q.bottomLeft), Depth(q.bottomRight)))
  }

  /** The value of the cell reached by `path`, from the whole grid down. */
  predicate Cell(q: Quad, path: seq<Quadrant>)
    requires Depth(q) <= |path|
  {
    if q.Leaf? then q.val else Cell(Child(q, path[0]), path[1..])
  }

  /** No four quarters that could be one leaf. */
  ghost predicate Reduced(q: Quad) {
    q.Inner? ==>
      && Reduced(q.topLeft) && Reduced(q.topRight) && Reduced(q.bottomLeft) && Reduced(q.bottomRight)
      && forall v :: !(q.topLeft == Leaf(v) && q.topRight == Leaf(v) && q.bottomLeft == Leaf(v)
                       && q.bottomRight == Leaf(v))
  }

  lemma {:induction false} DepthOfUnion(a: Quad, b: Quad, n: nat)
    requires Depth(a) <= n && Depth(b) <= n
    ensures Depth(Intersect(a, b)) <= n
  {
    if a.Inner? && b.Inner? {
      forall d ensures Depth(Intersect(Child(a, d), Child(b, d))) <= n - 1 {
        DepthOfUnion(Child(a, d), Child(b, d), n - 1);
      }
      assert Depth(Intersect(Child(a, TopLeft), Child(b, TopLeft))) <= n - 1;
      assert Depth(Intersect(Child(a, TopRight), Child(b, TopRight))) <= n - 1;
      assert Depth(Intersect(Child(a, BottomLeft), Child(b, BottomLeft))) <= n - 1;
      assert Depth(Intersect(Child(a, BottomRight), Child(b, BottomRight))) <= n - 1;
    }
  }

  /** Cell by cell it is the disjunction. */
  lemma {:induction false} UnionIsPointwise(a: Quad, b: Quad, path: seq<Quadrant>)
    requires Depth(a) <= |path| && Depth(b) <= |path|
    ensures Depth(Intersect(a, b)) <= |path|
    ensures Cell(Intersect(a, b), path) <==> Cell(a, path) || Cell(b, path)
  {
    DepthOfUnion(a, b, |path|);
    if a.Inner? && b.Inner? {
      UnionIsPointwise(Child(a, path[0]), Child(b, path[0]), path[1..]);
    }
  }

  lemma {:induction false} UnionIsReduced(a: Quad, b: Quad)
    requires Reduced(a) && Reduced(b)
    ensures Reduced(Intersect(a, b))
  {
    if a.Inner? && b.Inner? {
      UnionIsReduced(a.topLeft, b.topLeft);
      UnionIsReduced(a.topRight, b.topRight);
      UnionIsReduced(a.bottomLeft, b.bottomLeft);
      UnionIsReduced(a.bottomRight, b.bottomRight);
    }
  }

  ghost predicate SameCells(a: Quad, b: Quad, n: nat)
    requires Depth(a) <= n && Depth(b) <= n
  {
    forall path: seq<Quadrant> :: |path| == n ==> (Cell(a, path) <==> Cell(b, path))
  }

  /** Equal but for the `val` of inner nodes. */
  predicate SameTree(a: Quad, b: Quad) {
    if a.Leaf? || b.Leaf? then a == b
    else
      && SameTree(a.topLeft, b.topLeft) && SameTree(a.topRight, b.topRight)
      && SameTree(a.bottomLeft, b.bottomLeft) && SameTree(a.bottomRight, b.bottomRight)
  }

  lemma SameBelow(a: Quad, b: Quad, n: nat, d: Quadrant)
    requires n > 0 && Depth(a) <= n && Depth(b) <= n && SameCells(a, b, n)
    ensures Depth(Child(a, d)) <= n - 1 && Depth(Child(b, d)) <= n - 1 && SameCells(Child(a, d), Child(b, d), n - 1)
  {
    forall path: seq<Quadrant> | |path| == n - 1 ensures Cell(Child(a, d), path) <==> Cell(Child(b, d), path) {
      assert ([d] + path)[1..] == path;
      assert Cell(a, [d] + path) <==> Cell(b, [d] + path);
    }
  }

  /** A grid has only one reduced tree. */
  lemma {:induction false} ReducedIsUnique(a: Quad, b: Quad, n: nat)
    requires Reduced(a) && Reduced(b) && Depth(a) <= n && Depth(b) <= n && SameCells(a, b, n)
    ensures SameTree(a, b)
    decreases n
  {
    if a.Leaf? && b.Leaf? {
      var path := seq(n, _ => TopLeft);
      assert Cell(a, path) <==> Cell(b, path);
    } else {
      forall d ensures SameTree(Child(a, d), Child(b, d)) {
        SameBelow(a, b, n, d);
        ReducedIsUnique(Child(a, d), Child(b, d), n - 1);
      }
      assert SameTree(Child(a, TopLeft), Child(b, TopLeft)) && SameTree(Child(a, TopRight), Child(b, TopRight));
      assert SameTree(Child(a, BottomLeft), Child(b, BottomLeft))
        && SameTree(Child(a, BottomRight), Child(b, BottomRight));
    }
  }

  /** So the order of the operands, and of several unions, does not matter. */
  lemma {:induction false} UnionCommutes(a: Quad, b: Quad)
    requires Reduced(a) && Reduced(b)
    ensures SameTree(Intersect(a, b), Intersect(b, a))
  {
    var n := Max(Depth(a), Depth(b));
    forall path: seq<Quadrant> | |path| == n
      ensures Depth(Intersect(a, b)) <= n && Depth(Intersect(b, a)) <= n
      ensures Cell(Intersect(a, b), path) <==> Cell(Intersect(b, a), path)
    {
      UnionIsPointwise(a, b, path);
      UnionIsPointwise(b, a, path);
    }
    DepthOfUnion(a, b, n);
    DepthOfUnion(b, a, n);
    UnionIsReduced(a, b);
    UnionIsReduced(b, a);
    ReducedIsUnique(Intersect(a, b), Intersect(b, a), n);
  }

  lemma {:induction false} UnionAssociates(a: Quad, b: Quad, c: Quad)
    requires Reduced(a) && Reduced(b) && Reduced(c)
    ensures SameTree(Intersect(Intersect(a, b), c), Intersect(a, Intersect(b, c)))
  {
    hide Intersect, Cell, Depth, Reduced;
    var ab, bc := Intersect(a, b), Intersect(b, c);
    var n := Max(Max(Depth(a), Depth(b)), Depth(c));
    DepthOfUnion(a, b, n);
    DepthOfUnion(b, c, n);
    DepthOfUnion(ab, c, n);
    DepthOfUnion(a, bc, n);
    forall path: seq<Quadrant> | |path| == n
      ensures Cell(Intersect(ab, c), path) <==> Cell(Intersect(a, bc), path)
    {
      UnionIsPointwise(a, b, path);
      UnionIsPointwise(b, c, path);
      UnionIsPointwise(ab, c, path);
      UnionIsPointwise(a, bc, path);
    }
    UnionIsReduced(a, b);
    UnionIsReduced(b, c);
    UnionIsReduced(ab, c);
    UnionIsReduced(a, bc);
    ReducedIsUnique(Intersect(ab, c), Intersect(a, bc), n);
  }
}
