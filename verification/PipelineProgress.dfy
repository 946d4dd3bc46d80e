/** Whenever a thread of the pipeline has to wait, another one can go on. */
module PipelineProgress {
  import opened Pipeline
  import opened PipelineInv
  import opened PipelineSteps
  import opened PipelineSafety

  /** What the receiver does, the timer apart. */
  predicate ReceiverAction(a: Action) { a.TakeGroup? || a.Receive? || a.ReceiveNothing? || a.Check? || a.TryRing? }

  /** What the parquet writer of lane `w` does, the timer apart. */
  predicate WriterAction(a: Action, w: nat) {
    match a
    case ReadWork(v) => v == w
    case FlushIdle(v) => v == w
    case OpenSink(v) => v == w
    case JoinSink(v) => v == w
    case Append(v, _) => v == w
    case PutBack(v) => v == w
    case Flush(v, _) => v == w
    case _ => false
  }

  /** What the file writer of lane `w` does. */
  predicate SaverAction(a: Action, w: nat) {
    match a
    case ReadChunk(v) => v == w
    case Save(v, _, _) => v == w
    case Release(v) => v == w
    case _ => false
  }

  /** If `a` writes a chunk, the file can be opened and all of the chunk is written. */
  predicate Succeeds(s: State, a: Action) {
    a.Save? ==> LaneOf(s, a.w) && s.lanes[a.w].saver.Holding? && a.isOpen && a.count == s.lanes[a.w].saver.chunk.length
  }

  /** A file writer with a chunk to deal with can deal with it. */
  lemma SaverMoves(s: State, w: nat) returns (a: Action)
    requires Reachable(s) && LaneOf(s, w) && Pending(s.lanes[w]) != []
    ensures Enabled(s, a) && SaverAction(a, w) && Succeeds(s, a)
  {
    hide LaneOk, Inv, LaneBuckets;
    var l := s.lanes[w];
    match l.saver
    case Waiting => a := ReadChunk(w);
    case Holding(c) =>
      BucketOutlivesChunks(s, w, 0);
      a := Save(w, true, c.length);
    case Saved(c) =>
      if c.last {
        BucketPoolHasRoom(s, w);
      }
      a := Release(w);
  }

  /** A lane with nothing handed over owns one bucket at most. */
  lemma OneBucket(l: Lane)
    requires Pending(l) == []
    ensures |LaneBuckets(l)| <= 1
  {}

  lemma WholeSize(free: multiset<nat>, m: seq<multiset<nat>>)
    requires |m| == LANES && Whole(free, m) == ALL
    ensures |free| + |m[0]| + |m[1]| + |m[2]| + |m[3]| == 8
  {
    assert |ALL| == 8;
  }

  /** With no bucket free, some chunk is on its way to a file. */
  lemma SomePending(s: State) returns (w: nat)
    requires |s.lanes| == LANES && OneOwner(s) && s.buckets == []
    ensures w < LANES && Pending(s.lanes[w]) != []
  {
    hide LaneBuckets, Pending, LaneGroups, Whole;
    WholeSize(multiset(s.buckets), BucketParts(s.lanes));
    w := 0;
    if Pending(s.lanes[0]) != [] { return 0; }
    if Pending(s.lanes[1]) != [] { return 1; }
    if Pending(s.lanes[2]) != [] { return 2; }
    OneBucket(s.lanes[0]);
    OneBucket(s.lanes[1]);
    OneBucket(s.lanes[2]);
    if Pending(s.lanes[3]) == [] {
      OneBucket(s.lanes[3]);
    }
    return 3;
  }

  /** A parquet writer that waits for a bucket waits for a file writer that can go on. */
  lemma BucketWait(s: State, w: nat) returns (a: Action, v: nat)
    requires Reachable(s) && LaneOf(s, w) && s.lanes[w].pc.Got? && s.lanes[w].file.None?
    ensures Enabled(s, a) && Succeeds(s, a) && (a == OpenSink(w) || (s.buckets == [] && v < LANES && SaverAction(a, v)))
  {
    hide LaneOk, NoRowLost, ReceiverOk, LaneBuckets, GroupParts, BucketParts, Whole, LaneRows;
    ReachableInv(s);
    v := 0;
    if s.buckets == [] {
      v := SomePending(s);
      a := SaverMoves(s, v);
    } else {
      BucketsApart(s, w, w, s.buckets[0]);
      HeldGroupExists(s, w);
      a := OpenSink(w);
    }
  }

  lemma HeldGroupExists(s: State, w: nat)
    requires Inv(s) && w < LANES && (s.lanes[w].pc.Got? || s.lanes[w].pc.Ready?)
    ensures s.lanes[w].pc.group < |s.groups|
  {
    hide OneOwner, NoRowLost, ReceiverOk, FileOk, Tiled, OutOk, StoredOk;
    LaneIsOk(s, w);
    assert s.lanes[w].pc.group in LaneGroups(s.lanes[w]);
  }

  lemma FileExists(s: State, w: nat)
    requires Inv(s) && w < LANES && !s.lanes[w].pc.Idle? && !s.lanes[w].pc.Got?
    ensures s.lanes[w].file.Some? && s.lanes[w].file.value.bucket < |s.mem|
    ensures s.lanes[w].file.value.flushed <= |s.mem[s.lanes[w].file.value.bucket]|
  {
    hide OneOwner, NoRowLost, ReceiverOk, WorkOk, Tiled, OutOk, StoredOk;
    LaneIsOk(s, w);
  }

  /** Where `a` gets the parquet writer of lane `w` on: it is the writer's own, or that of its file writer, whose ring
      is full, or with no bucket free that of the file writer of some lane `v`. */
  predicate GetsOn(s: State, w: nat, a: Action, v: nat)
    requires LaneOf(s, w)
  {
    var l := s.lanes[w];
    || WriterAction(a, w)
    || (l.pc.Deciding? && |l.chunks| == PARQUET_FILE_CHUNK_COUNT && SaverAction(a, w))
    || (l.pc.Got? && l.file.None? && s.buckets == [] && v < LANES && SaverAction(a, v))
  }

  /** A parquet writer with a group, or in the middle of its work, can go on or waits for a file writer that can. */
  lemma WriterMoves(s: State, w: nat) returns (a: Action, v: nat)
    requires Reachable(s) && LaneOf(s, w) && !NoGroup(s.lanes[w])
    ensures Enabled(s, a) && Succeeds(s, a) && GetsOn(s, w, a, v)
  {
    hide OneOwner, NoRowLost, ReceiverOk, WorkOk, FileOk, Tiled, OutOk, StoredOk;
    ReachableInv(s);
    LaneIsOk(s, w);
    hide LaneOk;
    var l := s.lanes[w];
    v := w;
    match l.pc
    case Idle => a := ReadWork(w);
    case Got(_) =>
      if l.file.None? {
        a, v := BucketWait(s, w);
      } else {
        HeldGroupExists(s, w);
        a := JoinSink(w);
      }
    case Ready(_) =>
      HeldGroupExists(s, w);
      FileExists(s, w);
      a := Append(w, []);
    case Written(_) =>
      FileExists(s, w);
      GroupPoolHasRoom(s, w);
      a := PutBack(w);
    case Deciding =>
      FileExists(s, w);
      if |l.chunks| < PARQUET_FILE_CHUNK_COUNT {
        a := Flush(w, []);
      } else {
        a := SaverMoves(s, w);
      }
  }

  /** With no group free, some lane has one. */
  lemma SomeBusy(s: State) returns (w: nat)
    requires |s.lanes| == LANES && OneOwner(s) && s.pool == [] && s.hold.None?
    ensures w < LANES && !NoGroup(s.lanes[w])
  {
    hide LaneBuckets, LaneGroups, Whole;
    WholeSize(FreeGroups(s), GroupParts(s.lanes));
    w := 0;
    if !NoGroup(s.lanes[0]) { return 0; }
    if !NoGroup(s.lanes[1]) { return 1; }
    if !NoGroup(s.lanes[2]) { return 2; }
    IdleHasNone(s.lanes[0]);
    IdleHasNone(s.lanes[1]);
    IdleHasNone(s.lanes[2]);
    if NoGroup(s.lanes[3]) {
      IdleHasNone(s.lanes[3]);
    }
    return 3;
  }

  predicate NoGroup(l: Lane) { l.pc.Idle? && l.work == [] }

  lemma IdleHasNone(l: Lane)
    requires NoGroup(l)
    ensures |LaneGroups(l)| == 0
  {}

  /** A receiver that does not wait for a group can go on. */
  lemma ReceiverMoves(s: State) returns (a: Action)
    requires Inv(s) && (s.hold.Some? || s.pool != [])
    ensures Enabled(s, a) && ReceiverAction(a)
  {
    hide LaneOk, OneOwner, NoRowLost;
    if s.hold.None? {
      GroupsApart(s, 0, 0, s.pool[0]);
      a := TakeGroup;
    } else if s.pc.Receiving? {
      a := ReceiveNothing;
    } else if s.pc.Checking? {
      a := Check;
    } else {
      a := TryRing;
    }
  }

  /**
    The pipeline never deadlocks: in every reachable state the receiver can go on, or it waits for an empty group,
    and then it waits for a lane that has one and whose writer can go on or waits for a file writer that can.
   */
  lemma NeverStuck(s: State) returns (a: Action, w: nat, v: nat)
    requires Reachable(s)
    ensures Enabled(s, a)
    ensures if s.hold.Some? || s.pool != [] then ReceiverAction(a)
            else LaneOf(s, w) && !NoGroup(s.lanes[w]) && GetsOn(s, w, a, v)
  {
    hide LaneOk, OneOwner, NoRowLost, ReceiverOk, Enabled, GetsOn;
    ReachableInv(s);
    w, v := 0, 0;
    if s.hold.None? && s.pool == [] {
      w := SomeBusy(s);
      a, v := WriterMoves(s, w);
    } else {
      a := ReceiverMoves(s);
    }
  }
}
