/** Finding where the cycle of a linked list begins, with two pointers. */
module CycleList {

  class ListNode {
    var next: ListNode?
  }

  /** A set of nodes that no next pointer leaves. */
  ghost predicate Closed(S: set<ListNode>)
    reads S
  {
    forall n :: n in S ==> n.next == null || n.next in S
  }

  ghost predicate In(n: ListNode?, S: set<ListNode>) { n == null || n in S }

  /** The node `k` steps from `head`, or null when the list ends before. */
  ghost function Walk(head: ListNode?, k: nat, S: set<ListNode>): (n: ListNode?)
    requires Closed(S) && In(head, S)
    reads S
    ensures In(n, S)
  {
    if k == 0 then head
    else if Walk(head, k - 1, S) == null then null
    else Walk(head, k - 1, S).next
  }

  /** Following next pointers from `n` leads back to `n`. */
  ghost predicate OnCycle(n: ListNode?, S: set<ListNode>)
    requires Closed(S) && In(n, S)
    reads S
  {
    n != null && exists k: nat :: k >= 1 && Walk(n, k, S) == n
  }

  lemma {:induction false} WalkAdds(head: ListNode?, i: nat, k: nat, S: set<ListNode>)
    requires Closed(S) && In(head, S)
    ensures Walk(Walk(head, i, S), k, S) == Walk(head, i + k, S)
  {
    if k > 0 {
      WalkAdds(head, i, k - 1, S);
    }
  }

  /** Equal nodes have equal walks ahead of them. */
  lemma SameAhead(head: ListNode?, i: nat, j: nat, d: nat, S: set<ListNode>)
    requires Closed(S) && In(head, S) && Walk(head, i, S) == Walk(head, j, S)
    ensures Walk(head, i + d, S) == Walk(head, j + d, S)
  {
    WalkAdds(head, i, d, S);
    WalkAdds(head, j, d, S);
  }

  lemma {:induction false} NullStays(head: ListNode?, k: nat, m: nat, S: set<ListNode>)
    requires Closed(S) && In(head, S) && k <= m && Walk(head, k, S) == null
    ensures Walk(head, m, S) == null
    decreases m - k
  {
    if k < m {
      NullStays(head, k + 1, m, S);
    }
  }

  /** The nodes met in the first `j` steps. */
  ghost function Seen(head: ListNode?, j: nat, S: set<ListNode>): set<ListNode?>
    requires Closed(S) && In(head, S)
    reads S
  {
    if j == 0 then {} else Seen(head, j - 1, S) + {Walk(head, j - 1, S)}
  }

  lemma {:induction false} WhenSeen(head: ListNode?, j: nat, n: ListNode?, S: set<ListNode>) returns (i: nat)
    requires Closed(S) && In(head, S) && n in Seen(head, j, S)
    ensures i < j && Walk(head, i, S) == n
  {
    if Walk(head, j - 1, S) == n {
      i := j - 1;
    } else {
      i := WhenSeen(head, j - 1, n, S);
    }
  }

  /** After as many steps as there are nodes the list has ended, or a node has come up twice. */
  lemma EndsOrRepeats(head: ListNode?, S: set<ListNode>) returns (i: nat, j: nat)
    requires Closed(S) && In(head, S)
    ensures Walk(head, j, S) == null || (i < j && Walk(head, i, S) == Walk(head, j, S))
  {
    i, j := 0, 0;
    while Walk(head, j, S) != null && Walk(head, j, S) !in Seen(head, j, S)
      invariant Seen(head, j, S) <= S
      decreases S - Seen(head, j, S)
    {
      j := j + 1;
    }
    if Walk(head, j, S) != null {
      i := WhenSeen(head, j, Walk(head, j, S), S);
    }
  }

  /** `mu` steps lead to the first node on the cycle, and `lam` more lead back to it. */
  ghost predicate IsLasso(head: ListNode?, mu: nat, lam: nat, S: set<ListNode>)
    requires Closed(S) && In(head, S)
    reads S
  {
    && lam >= 1 && Walk(head, mu + lam, S) == Walk(head, mu, S) != null
    && forall i: nat, j: nat :: i < mu && i < j ==> Walk(head, i, S) != Walk(head, j, S)
  }

  /** From a repetition, the earliest node that repeats. */
  lemma {:induction false} FindLasso(head: ListNode?, i: nat, j: nat, S: set<ListNode>) returns (mu: nat, lam: nat)
    requires Closed(S) && In(head, S) && i < j && Walk(head, i, S) == Walk(head, j, S) != null
    ensures IsLasso(head, mu, lam, S)
    decreases i
  {
    if i' : nat, j': nat :| i' < i && i' < j' && Walk(head, i', S) == Walk(head, j', S) {
      if Walk(head, i', S) == null {
        NullStays(head, i', i, S);
      }
      mu, lam := FindLasso(head, i', j', S);
    } else {
      mu, lam := i, j - i;
    }
  }

  /** From the start of the cycle on, `m` rounds change nothing. */
  lemma {:induction false} Rounds(head: ListNode?, mu: nat, lam: nat, m: nat, S: set<ListNode>)
    requires Closed(S) && In(head, S) && IsLasso(head, mu, lam, S)
    ensures m * lam >= 0 && Walk(head, mu + m * lam, S) == Walk(head, mu, S)
  {
    if m > 0 {
      Rounds(head, mu, lam, m - 1, S);
      assert m * lam == (m - 1) * lam + lam;
      SameAhead(head, mu + (m - 1) * lam, mu, lam, S);
    }
  }

  lemma AtLeastOnce(k: nat, lam: nat)
    requires lam >= 1
    ensures k * lam >= k
  {}

  /** A list with a lasso never ends. */
  lemma LassoNeverEnds(head: ListNode?, mu: nat, lam: nat, k: nat, S: set<ListNode>)
    requires Closed(S) && In(head, S) && IsLasso(head, mu, lam, S)
    ensures Walk(head, k, S) != null
  {
    if Walk(head, k, S) == null {
      Rounds(head, mu, lam, k, S);
      AtLeastOnce(k, lam);
      hide Walk;
      NullStays(head, k, mu + k * lam, S);
    }
  }

  /** How many steps the slow pointer takes at most before the two meet. */
  function MeetingTime(mu: nat, lam: nat): (t: nat)
    requires lam >= 1
    ensures t >= 1 && t >= mu && exists m: nat :: t == m * lam
  {
    var m := mu / lam + 1;
    assert m * lam == (mu / lam) * lam + lam && mu < (mu / lam) * lam + lam;
    m * lam
  }

  /** At that time they do meet. */
  lemma TheyMeet(head: ListNode?, mu: nat, lam: nat, S: set<ListNode>)
    requires Closed(S) && In(head, S) && IsLasso(head, mu, lam, S)
    ensures var t := MeetingTime(mu, lam); Walk(head, 2 * t, S) == Walk(head, t, S)
  {
    var t := MeetingTime(mu, lam);
    var m: nat :| t == m * lam;
    Rounds(head, mu, lam, m, S);
    SameAhead(head, mu + t, mu, t - mu, S);
  }

  /** The start of the cycle comes up again after any number of steps. */
  lemma LaterRound(head: ListNode?, mu: nat, lam: nat, t: nat, S: set<ListNode>) returns (r: nat)
    requires Closed(S) && In(head, S) && IsLasso(head, mu, lam, S)
    ensures r >= t && r >= mu && Walk(head, r, S) == Walk(head, mu, S)
  {
    Rounds(head, mu, lam, t, S);
    assert t * lam >= t;
    r := mu + t * lam;
  }

  /** After a meeting at `t`, a further `2 t` steps from the start of the cycle lead back to it. */
  lemma MeetingClosesUp(head: ListNode?, mu: nat, lam: nat, t: nat, S: set<ListNode>)
    requires Closed(S) && In(head, S) && IsLasso(head, mu, lam, S)
    requires t >= 1 && Walk(head, t, S) == Walk(head, 2 * t, S)
    ensures Walk(head, 2 * t + mu, S) == Walk(head, mu, S)
  {
    var r := LaterRound(head, mu, lam, t, S);
    SameAhead(head, t, 2 * t, r - t, S);
    SameAhead(head, r, mu, t, S);
    SameAhead(head, mu, mu + t, t, S);
  }

  /** The node at the start of the lasso is the first one on the cycle. */
  lemma LassoIsFirst(head: ListNode?, mu: nat, lam: nat, S: set<ListNode>)
    requires Closed(S) && In(head, S) && IsLasso(head, mu, lam, S)
    ensures OnCycle(Walk(head, mu, S), S)
    ensures forall i: nat :: i < mu ==> !OnCycle(Walk(head, i, S), S)
  {
    WalkAdds(head, mu, lam, S);
    forall i: nat | i < mu
      ensures !OnCycle(Walk(head, i, S), S)
    {
      forall k: nat | k >= 1
        ensures Walk(Walk(head, i, S), k, S) != Walk(head, i, S)
      {
        WalkAdds(head, i, k, S);
      }
    }
  }

  // ---------------------------------------------------------------- the algorithm

  ghost predicate Ends(head: ListNode?, S: set<ListNode>)
    requires Closed(S) && In(head, S)
    reads S
  {
    exists k: nat :: Walk(head, k, S) == null
  }

  /** `r` is on the cycle, and no node before it is. */
  ghost predicate IsEntry(head: ListNode?, r: ListNode?, S: set<ListNode>)
    requires Closed(S) && In(head, S)
    reads S
  {
    exists m: nat :: r == Walk(head, m, S) && OnCycle(r, S) && forall i: nat :: i < m ==> !OnCycle(Walk(head, i, S), S)
  }

  lemma LassoMeansEntry(head: ListNode?, mu: nat, lam: nat, S: set<ListNode>)
    requires Closed(S) && In(head, S) && IsLasso(head, mu, lam, S)
    ensures IsEntry(head, Walk(head, mu, S), S) && !Ends(head, S)
  {
    LassoIsFirst(head, mu, lam, S);
    forall k: nat
      ensures Walk(head, k, S) != null
    {
      LassoNeverEnds(head, mu, lam, k, S);
    }
  }

  /** A node that is there has been preceded by nodes that are there. */
  lemma NullAhead(head: ListNode?, k: nat, m: nat, S: set<ListNode>)
    requires Closed(S) && In(head, S) && k <= m && Walk(head, m, S) != null
    ensures Walk(head, k, S) != null
  {
    if Walk(head, k, S) == null {
      NullStays(head, k, m, S);
    }
  }

  /** One turn of the first loop. */
  lemma BothMove(head: ListNode?, t: nat, S: set<ListNode>)
    requires Closed(S) && In(head, S)
    requires Walk(head, 2 * t, S) != null && Walk(head, 2 * t, S).next != null
    ensures Walk(head, t, S) != null && Walk(head, t + 1, S) == Walk(head, t, S).next != null
    ensures Walk(head, 2 * (t + 1), S) == Walk(head, 2 * t, S).next.next
  {
    NullAhead(head, t, 2 * t, S);
    NullAhead(head, t + 1, 2 * t + 1, S);
    assert Walk(head, 2 * t + 1, S) == Walk(head, 2 * t, S).next;
    assert Walk(head, 2 * t + 2, S) == Walk(head, 2 * t + 1, S).next;
  }

  /** In a list that ends, the pointers only meet past its end. */
  lemma MeetingMeansCycle(head: ListNode?, t: nat, j: nat, S: set<ListNode>)
    requires Closed(S) && In(head, S) && t >= 1 && Walk(head, j, S) == null
    requires Walk(head, t, S) == Walk(head, 2 * t, S)
    ensures Walk(head, t, S) == null
  {
    if Walk(head, t, S) != null {
      var mu, lam := FindLasso(head, t, 2 * t, S);
      LassoNeverEnds(head, mu, lam, j, S);
    }
  }

  /** What the list turns out to be: it ends at `j`, or it is a lasso; `bound` is when the first loop is over. */
  lemma Analyse(head: ListNode?, S: set<ListNode>) returns (ends: bool, mu: nat, lam: nat, bound: nat)
    requires Closed(S) && In(head, S)
    ensures ends ==> Walk(head, bound, S) == null
    ensures !ends ==> IsLasso(head, mu, lam, S) && bound >= 1 && Walk(head, bound, S) == Walk(head, 2 * bound, S)
  {
    var i, j := EndsOrRepeats(head, S);
    mu, lam, bound := 0, 1, j;
    ends := Walk(head, j, S) == null;
    if !ends {
      mu, lam := FindLasso(head, i, j, S);
      TheyMeet(head, mu, lam, S);
      bound := MeetingTime(mu, lam);
    }
  }

  /** The second loop: from the head and from the meeting point, the pointers meet at the start of the cycle. */
  method FindEntry(head: ListNode?, meeting: ListNode?, ghost t: nat, ghost mu: nat, ghost lam: nat,
                   ghost S: set<ListNode>) returns (r: ListNode?)
    requires Closed(S) && In(head, S) && IsLasso(head, mu, lam, S)
    requires t >= 1 && meeting == Walk(head, t, S) == Walk(head, 2 * t, S)
    ensures r == Walk(head, mu, S) != null
  {
    var slow, fast := head, meeting;
    MeetingClosesUp(head, mu, lam, t, S);
    ghost var s := 0;
    while fast != slow
      invariant s <= mu && slow == Walk(head, s, S) && fast == Walk(head, 2 * t + s, S)
      decreases mu - s
    {
      LassoNeverEnds(head, mu, lam, s, S);
      LassoNeverEnds(head, mu, lam, 2 * t + s, S);
      slow := slow.next;
      fast := fast.next;
      s := s + 1;
    }
    return slow;
  }

  /**
    `detectCycle`: null exactly when the list ends, and otherwise the first node on the cycle. The set
    `S` of the nodes that can be reached is finite; nothing else is assumed about the pointers.
   */
  method DetectCycle(head: ListNode?, ghost S: set<ListNode>) returns (r: ListNode?)
    requires Closed(S) && In(head, S)
    ensures r == null <==> Ends(head, S)
    ensures r != null ==> IsEntry(head, r, S)
  {
    hide IsLasso, Ends, IsEntry;
    ghost var ends, mu, lam, bound := Analyse(head, S);
    var slow, fast := head, head;
    ghost var t := 0;
    while fast != null && fast.next != null
      invariant slow == Walk(head, t, S) && fast == Walk(head, 2 * t, S)
      invariant t <= bound && (!ends ==> t < bound)
      decreases bound - t
    {
      BothMove(head, t, S);
      slow := slow.next;
      fast := fast.next.next;
      t := t + 1;
      if slow == fast {
        if ends {
          MeetingMeansCycle(head, t, bound, S);
          assert false;
        }
        LassoMeansEntry(head, mu, lam, S);
        r := FindEntry(head, fast, t, mu, lam, S);
        return;
      }
      if t > bound {
        NullStays(head, bound, t, S);
        assert false;
      }
    }
    EndIsFound(head, if fast == null then 2 * t else 2 * t + 1, S);
    return null;
  }

  lemma EndIsFound(head: ListNode?, k: nat, S: set<ListNode>)
    requires Closed(S) && In(head, S) && Walk(head, k, S) == null
    ensures Ends(head, S)
  {}
}
