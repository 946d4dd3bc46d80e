/** Deep copy of a list whose nodes also point at random nodes of the list. */
module RandomList {

  class Node {
    var tag: int
    var next: Node?
    var random: Node?

    constructor (x: int)
      ensures tag == x && next == null && random == null
    {
      tag, next, random := x, null, null;
    }
  }

  predicate Distinct(nodes: seq<Node>) { forall i, j :: 0 <= i < j < |nodes| ==> nodes[i] != nodes[j] }

  function At(nodes: seq<Node>, i: nat): Node? { if i < |nodes| then nodes[i] else null }

  /** `nodes` are the nodes of the list from `head` on, in order. */
  ghost predicate IsList(head: Node?, nodes: seq<Node>)
    reads nodes
  {
    && Distinct(nodes) && head == At(nodes, 0)
    && forall i {:trigger nodes[i].next} :: 0 <= i < |nodes| ==> nodes[i].next == At(nodes, i + 1)
  }

  /** Every random pointer is null or points into the list. */
  ghost predicate RandomsInside(nodes: seq<Node>)
    reads nodes
  {
    forall i :: 0 <= i < |nodes| ==> nodes[i].random == null || nodes[i].random in nodes
  }

  /** `c` is to the copies what `r` is to the originals. */
  ghost predicate Mirrors(nodes: seq<Node>, copies: seq<Node>, r: Node?, c: Node?)
    requires |copies| == |nodes|
  {
    if r == null then c == null else exists j :: 0 <= j < |nodes| && nodes[j] == r && copies[j] == c
  }

  /** The state between the two outer loops: every node is followed by its copy. */
  ghost predicate Interleaved(nodes: seq<Node>, copies: seq<Node>)
    reads nodes, copies
  {
    && |copies| == |nodes|
    && (forall i {:trigger nodes[i].next} :: 0 <= i < |nodes| ==> nodes[i].next == copies[i])
    && (forall i {:trigger copies[i].next} :: 0 <= i < |nodes| ==> copies[i].next == At(nodes, i + 1))
    && (forall i {:trigger copies[i].tag} :: 0 <= i < |nodes| ==> copies[i].tag == nodes[i].tag)
  }

  ghost predicate Apart(nodes: seq<Node>, copies: seq<Node>) {
    Distinct(nodes) && Distinct(copies) && forall i, j :: 0 <= i < |nodes| && 0 <= j < |copies| ==>
      nodes[i] != copies[j]
  }

  /** The first loop: a copy is inserted after each node. */
  method InsertCopies(head: Node?, ghost nodes: seq<Node>) returns (ghost copies: seq<Node>)
    requires IsList(head, nodes)
    modifies nodes
    ensures Interleaved(nodes, copies) && Apart(nodes, copies) && fresh(copies)
    ensures forall i :: 0 <= i < |nodes| ==>
      nodes[i].tag == old(nodes[i].tag) && nodes[i].random == old(nodes[i].random)
    ensures forall i :: 0 <= i < |copies| ==> copies[i].random == null
  {
    var ptr := head;
    copies := [];
    while ptr != null
      invariant |copies| <= |nodes| && ptr == At(nodes, |copies|)
      invariant Distinct(nodes) && Apart(nodes, copies) && fresh(copies)
      invariant forall i {:trigger nodes[i].next} :: 0 <= i < |copies| ==> nodes[i].next == copies[i]
      invariant forall i {:trigger copies[i].next} :: 0 <= i < |copies| ==> copies[i].next == At(nodes, i + 1)
      invariant forall i {:trigger copies[i].tag} :: 0 <= i < |copies| ==> copies[i].tag == nodes[i].tag
      invariant forall i {:trigger copies[i].random} :: 0 <= i < |copies| ==> copies[i].random == null
      invariant forall i {:trigger nodes[i].next} :: |copies| <= i < |nodes| ==> nodes[i].next == At(nodes, i + 1)
      invariant forall i :: 0 <= i < |nodes| ==>
        nodes[i].tag == old(nodes[i].tag) && nodes[i].random == old(nodes[i].random)
      decreases |nodes| - |copies|
    {
      var dummy := new Node(ptr.tag);
      dummy.next := ptr.next;
      ptr.next := dummy;
      ptr := dummy.next;
      copies := copies + [dummy];
    }
  }

  /** The second loop: each copy's random pointer is found through the original's. */
  method WireRandoms(head: Node?, ghost nodes: seq<Node>, ghost copies: seq<Node>)
    requires head == At(nodes, 0) && Interleaved(nodes, copies) && Apart(nodes, copies) && RandomsInside(nodes)
    modifies copies
    ensures Interleaved(nodes, copies)
    ensures forall i :: 0 <= i < |nodes| ==>
      nodes[i].tag == old(nodes[i].tag) && nodes[i].random == old(nodes[i].random)
    ensures forall i :: 0 <= i < |nodes| ==> Mirrors(nodes, copies, nodes[i].random, copies[i].random)
  {
    var ptr := head;
    ghost var k := 0;
    while ptr != null
      invariant 0 <= k <= |nodes| && ptr == At(nodes, k) && Interleaved(nodes, copies)
      invariant forall i :: 0 <= i < |nodes| ==>
        nodes[i].tag == old(nodes[i].tag) && nodes[i].random == old(nodes[i].random)
      invariant forall i :: 0 <= i < k ==> Mirrors(nodes, copies, nodes[i].random, copies[i].random)
      decreases |nodes| - k
    {
      assert ptr == nodes[k] && ptr.next == copies[k];
      if ptr.random != null {
        ghost var j :| 0 <= j < |nodes| && nodes[j] == ptr.random;
        assert ptr.random.next == copies[j];
      }
      ptr.next.random := if ptr.random != null then ptr.random.next else null;
      ptr := ptr.next.next;
      k := k + 1;
    }
  }

  /** The third loop: the two lists are taken apart. */
  method Unzip(head: Node?, ghost nodes: seq<Node>, ghost copies: seq<Node>) returns (copy: Node?)
    requires head == At(nodes, 0) && Interleaved(nodes, copies) && Apart(nodes, copies)
    modifies nodes, copies
    ensures IsList(head, nodes) && IsList(copy, copies)
    ensures forall i :: 0 <= i < |nodes| ==>
      nodes[i].tag == old(nodes[i].tag) && nodes[i].random == old(nodes[i].random)
    ensures forall i :: 0 <= i < |copies| ==>
      copies[i].tag == old(copies[i].tag) && copies[i].random == old(copies[i].random)
  {
    var ptr := head;
    var deepcopy := new Node(0);
    var cptr := deepcopy;
    ghost var k := 0;
    while ptr != null
      invariant 0 <= k <= |nodes| && ptr == At(nodes, k) && cptr == (if k == 0 then deepcopy else copies[k - 1])
      invariant deepcopy !in nodes && deepcopy !in copies
      invariant k > 0 ==> deepcopy.next == copies[0]
      invariant k == 0 ==> deepcopy.next == null
      invariant forall i {:trigger nodes[i].next} :: 0 <= i < k ==> nodes[i].next == At(nodes, i + 1)
      invariant forall i {:trigger copies[i].next} :: 0 <= i < k - 1 ==> copies[i].next == copies[i + 1]
      invariant forall i {:trigger nodes[i].next} :: k <= i < |nodes| ==> nodes[i].next == copies[i]
      invariant forall i {:trigger copies[i].next} :: 0 <= i < |nodes| && k - 1 <= i ==>
        copies[i].next == At(nodes, i + 1)
      invariant forall i :: 0 <= i < |nodes| ==>
        nodes[i].tag == old(nodes[i].tag) && nodes[i].random == old(nodes[i].random)
      invariant forall i :: 0 <= i < |copies| ==>
        copies[i].tag == old(copies[i].tag) && copies[i].random == old(copies[i].random)
      decreases |nodes| - k
    {
      cptr.next := ptr.next;
      ptr.next := ptr.next.next;
      ptr := ptr.next;
      cptr := cptr.next;
      k := k + 1;
    }
    copy := deepcopy.next;
  }

  /**
    `copyRandomList`: the result is a list of new nodes with the same labels whose next and random
    pointers mirror the original's, and the original is as it was.
   */
  method CopyRandomList(head: Node?, ghost nodes: seq<Node>) returns (copy: Node?, ghost copies: seq<Node>)
    requires IsList(head, nodes) && RandomsInside(nodes)
    modifies nodes
    ensures forall i :: 0 <= i < |nodes| ==>
      nodes[i].tag == old(nodes[i].tag) && nodes[i].next == old(nodes[i].next)
        && nodes[i].random == old(nodes[i].random)
    ensures |copies| == |nodes| && fresh(copies) && IsList(copy, copies)
    ensures forall i :: 0 <= i < |nodes| ==>
      copies[i].tag == nodes[i].tag && Mirrors(nodes, copies, nodes[i].random, copies[i].random)
  {
    copies := InsertCopies(head, nodes);
    assert RandomsInside(nodes);
    WireRandoms(head, nodes, copies);
    copy := Unzip(head, nodes, copies);
  }
}
