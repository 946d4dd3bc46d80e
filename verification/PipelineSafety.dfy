/** What holds in every state the pipeline can reach. */
module PipelineSafety {
  import opened Common
  import opened Pipeline
  import opened PipelineInv
  import opened PipelineFrame
  import opened PipelineSteps
  import opened PipelineWriters
  import opened PipelineSavers
  import opened PipelineReceiver

  // ---------------------------------------------------------------- induction over runs

  lemma EmptyLaneOk(groups: seq<Group>, mem: seq<seq<octet>>, room: nat)
    ensures LaneOk(EMPTY_LANE, groups, mem, room)
    ensures LaneGroups(EMPTY_LANE) == multiset{} && LaneBuckets(EMPTY_LANE) == multiset{}
      && LaneRows(EMPTY_LANE, groups) == multiset{}
  {
    assert Pending(EMPTY_LANE) == [];
  }

  lemma WholeOfFree<T>(free: multiset<T>, m: seq<multiset<T>>)
    requires |m| == LANES && forall w :: 0 <= w < LANES ==> m[w] == multiset{}
    ensures Whole(free, m) == free
  {}

  lemma AllInOrder()
    ensures multiset(seq(8, i => i)) == ALL
  {
    assert seq(8, i => i) == [0, 1, 2, 3, 4, 5, 6, 7];
  }

  lemma InitInv(room: nat)
    requires room <= MAX_PACKET_GROUP_SIZE
    ensures Inv(Init(room))
  {
    hide LaneOk, LaneGroups, LaneBuckets, LaneRows, Whole;
    var s := Init(room);
    EmptyLaneOk(s.groups, s.mem, room);
    InitFree(room);
    WholeOfFree(FreeGroups(s), GroupParts(s.lanes));
    WholeOfFree(multiset(s.buckets), BucketParts(s.lanes));
    WholeOfFree(ReceiverRows(s.hold, s.groups), RowParts(s.lanes, s.groups));
  }

  lemma InitFree(room: nat)
    ensures var s := Init(room);
      FreeGroups(s) == ALL && multiset(s.buckets) == ALL
        && ReceiverRows(s.hold, s.groups) == multiset{} == multiset(s.accepted)
  {
    AllInOrder();
    assert ALL + multiset{} == ALL;
  }

  /** Every action keeps the invariant. */
  lemma ActionKeepsInv(s: State, a: Action)
    requires Inv(s) && Enabled(s, a)
    ensures Inv(Apply(s, a))
  {
    hide Inv, Apply;
    match a
    case TakeGroup => KeepTakeGroup(s);
    case Receive(p) => KeepReceive(s, p);
    case ReceiveNothing => KeepReceiverFlag(s, a);
    case ReceiverTimer => KeepReceiverFlag(s, a);
    case Check => KeepCheck(s);
    case TryRing =>
      if |s.lanes[s.turn % LANES].work| < WORK_RING_CACHE_COUNT {
        KeepEnqueue(s);
      } else {
        KeepPassRing(s);
      }
    case ReadWork(w) => KeepReadWork(s, w);
    case FlushIdle(w) => KeepFlushIdle(s, w);
    case OpenSink(w) => KeepOpenSink(s, w);
    case JoinSink(w) => KeepJoinSink(s, w);
    case Append(w, bytes) => KeepAppend(s, w, bytes);
    case PutBack(w) => KeepPutBack(s, w);
    case Flush(w, footer) => KeepFlush(s, w, footer);
    case WriterTimer(w) => KeepWriterTimer(s, w);
    case ReadChunk(w) => KeepReadChunk(s, w);
    case Save(w, isOpen, count) => KeepSave(s, w, isOpen, count);
    case Release(w) => KeepRelease(s, w);
  }

  lemma {:induction false} RunKeepsInv(s: State, actions: seq<Action>)
    requires Inv(s) && Run(s, actions).Some?
    ensures Inv(Run(s, actions).value)
    decreases |actions|
  {
    hide Inv, Apply, Enabled;
    if actions != [] {
      ActionKeepsInv(s, actions[0]);
      RunKeepsInv(Apply(s, actions[0]), actions[1..]);
    }
  }

  lemma ReachableInv(s: State)
    requires Reachable(s)
    ensures Inv(s)
  {
    hide Inv, Init, Run;
    var room: nat, actions: seq<Action> :| room <= MAX_PACKET_GROUP_SIZE && Run(Init(room), actions) == Some(s);
    InitInv(room);
    RunKeepsInv(Init(room), actions);
  }

  // ---------------------------------------------------------------- runs, one action at a time

  lemma {:induction false} RunAppend(s: State, actions: seq<Action>, a: Action)
    requires Run(s, actions).Some? && Enabled(Run(s, actions).value, a)
    ensures Run(s, actions + [a]) == Some(Apply(Run(s, actions).value, a))
    decreases |actions|
  {
    hide Enabled, Apply;
    if actions == [] {
      assert [] + [a] == [a] && [a][1..] == [];
    } else {
      RunAppend(Apply(s, actions[0]), actions[1..], a);
      assert (actions + [a])[1..] == actions[1..] + [a];
    }
  }

  /** One action more. */
  lemma Steps(s: State, a: Action) returns (s': State)
    requires Reachable(s) && Enabled(s, a)
    ensures Reachable(s') && s' == Apply(s, a)
  {
    hide Enabled, Apply, Run;
    var room: nat, actions: seq<Action> :| room <= MAX_PACKET_GROUP_SIZE && Run(Init(room), actions) == Some(s);
    RunAppend(Init(room), actions, a);
    s' := Apply(s, a);
    assert Run(Init(room), actions + [a]) == Some(s');
  }

  // ---------------------------------------------------------------- groups and rows

  /** In every reachable state each of the eight groups and each of the eight buckets is in exactly one place. */
  lemma EachHasOneOwner(s: State)
    requires Reachable(s)
    ensures |s.lanes| == LANES && OneOwner(s)
  {
    ReachableInv(s);
  }

  /** No accepted packet is lost or duplicated. */
  lemma RowsAreConserved(s: State)
    requires Reachable(s)
    ensures |s.lanes| == LANES && NoRowLost(s)
  {
    ReachableInv(s);
  }

  /** The ring the scan comes to in `k` turns has room. */
  predicate RoomIn(s: State, k: nat)
    requires |s.lanes| == LANES
  {
    |s.lanes[(s.turn + k) % LANES].work| < WORK_RING_CACHE_COUNT
  }

  lemma SumAround(b: seq<nat>, t: nat)
    requires |b| == 4
    ensures b[t % 4] + b[(t + 1) % 4] + b[(t + 2) % 4] + b[(t + 3) % 4] == b[0] + b[1] + b[2] + b[3]
    ensures t >= 3 ==> (t - 1) % 4 == (t + 3) % 4 && (t - 2) % 4 == (t + 2) % 4 && (t - 3) % 4 == (t + 1) % 4
    ensures t >= 2 ==> (t - 1) % 4 == (t + 3) % 4 && (t - 2) % 4 == (t + 2) % 4
    ensures t >= 1 ==> (t - 1) % 4 == (t + 3) % 4
  {
    assert t % 4 == 0 || t % 4 == 1 || t % 4 == 2 || t % 4 == 3;
  }

  /** A receiver that is scanning for a ring finds one with room before the scan is over. */
  lemma ScanFindsRoom(s: State)
    requires Reachable(s) && s.pc.Scanning?
    ensures |s.lanes| == LANES && s.pc.tries < LANES
    ensures exists k: nat :: k < LANES - s.pc.tries && RoomIn(s, k)
  {
    hide LaneOk, OneOwner, NoRowLost;
    ReachableInv(s);
    SumAround(s.pc.before, s.turn);
    var k: nat := if RoomIn(s, 0) then 0 else if RoomIn(s, 1) then 1 else if RoomIn(s, 2) then 2 else 3;
    assert RoomIn(s, k) && k < LANES - s.pc.tries;
  }

  /** The busy-wait around `write_packet_group_work` never goes round again. */
  lemma WriteNeverRepeats(s: State)
    requires Reachable(s) && Enabled(s, TryRing) && Apply(s, TryRing).pc.Scanning?
    ensures Apply(s, TryRing).pc == s.pc.(tries := s.pc.tries + 1)
  {
    hide LanesOk, OneOwner, NoRowLost;
    ReachableInv(s);
    if s.pc.tries == LANES - 1 {
      FourthRingHasRoom(s);
    }
  }

  /** A packet is stored within the arrays of its group. */
  lemma RowsFitTheGroup(s: State)
    requires Reachable(s) && s.hold.Some? && s.pc.Receiving?
    ensures s.hold.value < |s.groups| && |s.groups[s.hold.value].rows| < MAX_PACKET_COUNT
  {
    hide LaneOk, OneOwner, NoRowLost;
    ReachableInv(s);
  }

  /**
    A group in a ring is never empty, so the early return of `write_to_parquet_mem`, which keeps the group, is never
    taken.
   */
  lemma GroupsInRingsHaveRows(s: State, w: nat, g: nat)
    requires Reachable(s) && LaneOf(s, w) && g in s.lanes[w].work
    ensures g < |s.groups| && 1 <= |s.groups[g].rows| <= MAX_PACKET_COUNT
  {
    hide OneOwner, NoRowLost, ReceiverOk, FileOk, Tiled, OutOk, StoredOk;
    ReachableInv(s);
    LaneIsOk(s, w);
    assert g in multiset(s.lanes[w].work);
    assert g in LaneGroups(s.lanes[w]);
  }

  lemma PartSize(free: multiset<nat>, m: seq<multiset<nat>>, w: nat, x: nat)
    requires |m| == LANES && Whole(free, m) == ALL && w < LANES && x in m[w]
    ensures |free| < 8
  {
    assert |Whole(free, m)| == |free| + |m[0]| + |m[1]| + |m[2]| + |m[3]|;
    assert |ALL| == 8;
    assert m[w] == m[w] - multiset{x} + multiset{x};
    assert |m[w]| >= 1;
  }

  /** Returning a group to its pool never waits. */
  lemma GroupPoolHasRoom(s: State, w: nat)
    requires Reachable(s) && LaneOf(s, w) && s.lanes[w].pc.Written?
    ensures |s.pool| < PACKET_GROUP_COUNT
  {
    hide LaneOk, NoRowLost, ReceiverOk, Whole;
    ReachableInv(s);
    var g := s.lanes[w].pc.group;
    assert g in HeldBy(s.lanes[w].pc);
    PartSize(FreeGroups(s), GroupParts(s.lanes), w, g);
    assert |FreeGroups(s)| >= |s.pool|;
  }

  /** Returning a bucket to its pool never waits. */
  lemma BucketPoolHasRoom(s: State, w: nat)
    requires Reachable(s) && LaneOf(s, w) && s.lanes[w].saver.Saved? && s.lanes[w].saver.chunk.last
    ensures |s.buckets| < PARQUET_MEM_COUNT
  {
    hide LaneOk, NoRowLost, ReceiverOk, Whole, GroupParts, FreeGroups;
    ReachableInv(s);
    SavedBucketOwned(s.lanes[w]);
    PartSize(multiset(s.buckets), BucketParts(s.lanes), w, s.lanes[w].saver.chunk.bucket);
  }

  lemma SavedBucketOwned(l: Lane)
    requires l.saver.Saved? && l.saver.chunk.last
    ensures l.saver.chunk.bucket in LaneBuckets(l)
  {
    assert Pending(l)[0] == l.saver.chunk;
  }

  // ---------------------------------------------------------------- chunks and files

  lemma {:induction false} PendingOwned(q: seq<Chunk>, pos: nat, cur: nat, file: Option<OpenFile>,
                                        mem: seq<seq<octet>>, i: nat)
    requires Tiled(q, pos, cur, file, mem) && i < |q|
    requires file.Some? ==> file.value.bucket < |mem| && file.value.flushed <= |mem[file.value.bucket]|
    ensures q[i].bucket in FileBucket(file) + Finals(q) && InBucket(q[i].bucket, q[i].offset + q[i].length, mem)
    decreases |q|
  {
    if i == 0 {
      HeadOwned(q, pos, cur, file, mem);
    } else if q[0].last {
      PendingOwned(q[1..], 0, 0, file, mem, i - 1);
    } else {
      PendingOwned(q[1..], PARQUET_FILE_CHUNK_SIZE, q[0].bucket, file, mem, i - 1);
    }
  }

  /**
    A chunk that has been handed over and not yet released lies within what its bucket holds, and the
    bucket is still its lane's: it is not in the pool, and no other lane owns it.
   */
  lemma BucketOutlivesChunks(s: State, w: nat, i: nat)
    requires Reachable(s) && LaneOf(s, w) && i < |Pending(s.lanes[w])|
    ensures var c := Pending(s.lanes[w])[i];
      && InBucket(c.bucket, c.offset + c.length, s.mem) && c.bucket !in s.buckets
      && forall v :: 0 <= v < LANES && v != w ==> c.bucket !in LaneBuckets(s.lanes[v])
  {
    hide LaneBuckets, OneOwner, NoRowLost, ReceiverOk, StoredOk, OutOk, WorkOk, LanesOk;
    ReachableInv(s);
    LaneIsOk(s, w);
    var l := s.lanes[w];
    var c := Pending(l)[i];
    PendingOwned(Pending(l), Pos(l.pieces), Cur(l.pieces), l.file, s.mem, i);
    OwnedByLane(l, c.bucket);
    BucketsApart(s, w, w, c.bucket);
    forall v | 0 <= v < LANES && v != w
      ensures c.bucket !in LaneBuckets(s.lanes[v])
    {
      BucketsApart(s, w, v, c.bucket);
    }
  }

  lemma OwnedByLane(l: Lane, b: nat)
    requires b in FileBucket(l.file) + Finals(Pending(l))
    ensures b in LaneBuckets(l)
  {}

  /**
    The pieces handed over for a finished file cover its bytes in order without gap or overlap, at most
    one of them not the last; if nothing failed the file holds exactly its row groups and footer; and the
    interval in its name covers the second of every packet in it.
   */
  lemma FinishedFilesAreWhole(s: State, w: nat, i: nat)
    requires Reachable(s) && LaneOf(s, w) && i < |s.lanes[w].stored|
    ensures var r := s.lanes[w].stored[i];
      && PiecesTile(r.pieces, |Image(r)|) && |r.pieces| <= 2 && |Image(r)| <= MAX_PARQUET_FILE_SIZE
      && (r.intact ==> r.content == Image(r) && r.under == Some(TimesOf(r.pieces[0])))
      && (r.under.Some? ==> 0 <= r.under.value.start && 0 <= r.under.value.end)
      && BlocksInTimes(r.blocks, r.start, r.end) && Timed(r.pieces[0])
  {
    hide OneOwner, NoRowLost, ReceiverOk;
    ReachableInv(s);
    LaneIsOk(s, w);
    assert StoredOk(s.lanes[w].stored[i]);
  }

  /** A file that a file writer has open has a name with an interval. */
  lemma OpenFileHasTimes(s: State, w: nat)
    requires Reachable(s) && LaneOf(s, w)
    ensures var l := s.lanes[w]; OpenedOk(l.under, l.out)
  {
    hide OneOwner, NoRowLost, ReceiverOk, WorkOk, FileOk, Tiled, AllStoredOk;
    ReachableInv(s);
    LaneIsOk(s, w);
  }

  /** Neither encoding a group nor closing a file ever writes past the end of a bucket. */
  lemma BucketsAreLargeEnough(s: State, w: nat, more: seq<octet>)
    requires Reachable(s) && (Enabled(s, Append(w, more)) || (Enabled(s, Flush(w, more)) && s.lanes[w].flush))
    ensures |s.mem[s.lanes[w].file.value.bucket]| + |more| <= MAX_PARQUET_FILE_SIZE
  {
    hide OneOwner, NoRowLost, ReceiverOk, LanesOk, Tiled, OutOk, StoredOk, WorkOk;
    ReachableInv(s);
    LaneIsOk(s, w);
  }
}
