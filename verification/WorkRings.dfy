/** The round-robin scan that hands a group to a parquet writer, over the rings themselves. */
module WorkRings {
  import opened RwRing

  const RINGS: nat := 4

  /** The ring a running number stands for. */
  function Slot(n: nat): (i: nat)
    ensures i < RINGS
  {
    n % RINGS
  }

  class WorkRings<T(0)> {
    const rings: seq<RwRing<T>>
    const capacity: nat
    var idx: nat

    ghost predicate Valid()
      reads rings
    {
      && |rings| == RINGS
      && (forall i :: 0 <= i < RINGS ==> rings[i].Valid() && rings[i].size == capacity)
      && forall i, j :: 0 <= i < j < RINGS ==> rings[i] != rings[j] && rings[i].objs != rings[j].objs
    }

    /** What is in each ring, oldest first. */
    ghost function Queues(): (q: seq<seq<T>>)
      requires Valid()
      reads rings, set r | r in rings :: r.objs
      ensures |q| == RINGS
    {
      [rings[0].Contents(), rings[1].Contents(), rings[2].Contents(), rings[3].Contents()]
    }

    /** One attempt: the ring that is next gets `pg`, or is full; no other ring changes. */
    method TryNext(pg: T) returns (ok: bool)
      requires Valid()
      modifies rings, set r | r in rings :: r.objs
      ensures Valid() && ok == (|old(Queues())[Slot(idx)]| < capacity)
      ensures Queues() == if ok then With(old(Queues()), Slot(idx), pg) else old(Queues())
    {
      hide Pow2, Slot;
      ghost var i := Slot(idx);
      var next := rings[Slot(idx)];
      ok := next.Enqueue(pg);
      forall j | 0 <= j < RINGS && j != i
        ensures rings[j].Valid() && rings[j].Contents() == old(rings[j].Contents())
      {
        assert if i < j then rings[i] != rings[j] else rings[j] != rings[i];
      }
    }

    /** `write_packet_group_work`: the first ring with room from `idx` on gets `pg`, and `idx` moves past it;
        if all are full nothing changes but `idx`, which moves past one ring more than there are. */
    method WritePacketGroupWork(pg: T) returns (ret: bool)
      requires Valid()
      modifies this`idx, rings, set r | r in rings :: r.objs
      ensures Valid() && ret == HasRoom(old(Queues()), capacity)
      ensures idx > old(idx) && AllFull(old(Queues()), capacity, old(idx), idx - 1)
      ensures if ret then idx <= old(idx) + RINGS && |old(Queues())[Slot(idx - 1)]| < capacity
              else idx == old(idx) + RINGS + 1
      ensures Queues() == if ret then With(old(Queues()), Slot(idx - 1), pg) else old(Queues())
    {
      hide *;
      ret := false;
      var end := idx + RINGS;
      ghost var was := Queues();
      NoneTried(was, capacity, idx);
      while idx != end
        invariant Valid() && old(idx) <= idx <= end && Queues() == was && AllFull(was, capacity, old(idx), idx)
        decreases end - idx
      {
        ret := TryNext(pg);
        if ret {
          RoomHere(was, capacity, Slot(idx));
          break;
        }
        OneMoreFull(was, capacity, old(idx), idx);
        idx := idx + 1;
      }
      if !ret {
        NoRoom(was, capacity, old(idx));
      }
      idx := idx + 1;
    }
  }

  function With<T>(q: seq<seq<T>>, i: nat, pg: T): seq<seq<T>>
    requires i < |q|
  {
    q[i := q[i] + [pg]]
  }

  ghost predicate HasRoom<T>(q: seq<seq<T>>, capacity: nat) { exists i :: 0 <= i < |q| && |q[i]| < capacity }

  /** The rings from place `first` up to `last`, counted around, are full. */
  ghost predicate AllFull<T>(q: seq<seq<T>>, capacity: nat, first: nat, last: int)
    requires |q| == RINGS
  {
    forall j :: first <= j < last ==> |q[Slot(j)]| >= capacity
  }

  lemma NoneTried<T>(q: seq<seq<T>>, capacity: nat, first: nat)
    requires |q| == RINGS
    ensures AllFull(q, capacity, first, first)
  {}

  lemma OneMoreFull<T>(q: seq<seq<T>>, capacity: nat, first: nat, next: nat)
    requires |q| == RINGS && AllFull(q, capacity, first, next) && |q[Slot(next)]| >= capacity
    ensures AllFull(q, capacity, first, next + 1)
  {}

  lemma RoomHere<T>(q: seq<seq<T>>, capacity: nat, i: nat)
    requires i < |q| && |q[i]| < capacity
    ensures HasRoom(q, capacity)
  {}

  lemma NoRoom<T>(q: seq<seq<T>>, capacity: nat, first: nat)
    requires |q| == RINGS && AllFull(q, capacity, first, first + RINGS)
    ensures !HasRoom(q, capacity)
  {
    forall i | 0 <= i < RINGS ensures |q[i]| >= capacity {
      var j := first + (i - first) % RINGS;
      assert Slot(j) == i;
    }
  }
}
