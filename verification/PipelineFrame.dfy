/** What a step of one thread leaves alone. */
module PipelineFrame {
  import opened Common
  import opened Pipeline
  import opened PipelineInv

  // ---------------------------------------------------------------- chunks and memory

  /** The bucket of a file that is between its pieces is owned by its last chunk or by the open file. */
  lemma {:induction false} CurOwned(q: seq<Chunk>, pos: nat, cur: nat, file: Option<OpenFile>, mem: seq<seq<octet>>)
    requires Tiled(q, pos, cur, file, mem) && pos > 0
    requires file.Some? ==> file.value.bucket < |mem| && file.value.flushed <= |mem[file.value.bucket]|
    ensures cur in FileBucket(file) + Finals(q) && InBucket(cur, pos, mem)
  {
    if q != [] {
      assert q[0].last;
    }
  }

  /** The oldest pending chunk points into a bucket that is still owned, and within what it holds. */
  lemma HeadOwned(q: seq<Chunk>, pos: nat, cur: nat, file: Option<OpenFile>, mem: seq<seq<octet>>)
    requires Tiled(q, pos, cur, file, mem) && q != []
    requires file.Some? ==> file.value.bucket < |mem| && file.value.flushed <= |mem[file.value.bucket]|
    ensures q[0].bucket in FileBucket(file) + Finals(q) && InBucket(q[0].bucket, q[0].offset + q[0].length, mem)
  {
    if !q[0].last {
      CurOwned(q[1..], PARQUET_FILE_CHUNK_SIZE, q[0].bucket, file, mem);
    }
  }

  lemma {:induction false} TiledFrame(q: seq<Chunk>, pos: nat, cur: nat, file: Option<OpenFile>, mem: seq<seq<octet>>,
                                      mem': seq<seq<octet>>)
    requires Tiled(q, pos, cur, file, mem) && |mem'| == |mem|
    requires forall b :: b in Finals(q) && b < |mem| ==> mem'[b] == mem[b]
    ensures Tiled(q, pos, cur, file, mem')
    decreases |q|
  {
    if q != [] {
      if q[0].last {
        assert q[0].bucket in Finals(q);
        TiledFrame(q[1..], 0, 0, file, mem, mem');
      } else {
        TiledFrame(q[1..], PARQUET_FILE_CHUNK_SIZE, q[0].bucket, file, mem, mem');
      }
    }
  }

  /** `mem'` still holds everything the buckets of the lane held; they may have grown. */
  ghost predicate Grown(mem: seq<seq<octet>>, mem': seq<seq<octet>>, owned: multiset<nat>) {
    |mem'| == |mem| && forall b :: b in owned && b < |mem| ==> mem[b] <= mem'[b]
  }

  lemma PrefixOf(a: seq<octet>, b: seq<octet>, n: nat)
    requires a <= b && n <= |a|
    ensures a[..n] == b[..n]
  {}

  lemma OutFrame(l: Lane, mem: seq<seq<octet>>, mem': seq<seq<octet>>)
    requires OutOk(l, mem) && PiecesOk(l.pieces) && Tiled(Pending(l), Pos(l.pieces), Cur(l.pieces), l.file, mem)
    requires l.file.Some? ==> l.file.value.bucket < |mem| && l.file.value.flushed <= |mem[l.file.value.bucket]|
    requires Grown(mem, mem', LaneBuckets(l))
    ensures OutOk(l, mem')
  {
    match l.saver
    case Saved(c) =>
      HeadOwned(Pending(l), Pos(l.pieces), Cur(l.pieces), l.file, mem);
      assert c.bucket in LaneBuckets(l);
      PrefixOf(mem[c.bucket], mem'[c.bucket], c.offset + c.length);
    case _ =>
      if l.pieces != [] {
        CurOwned(Pending(l), Pos(l.pieces), Cur(l.pieces), l.file, mem);
        PrefixOf(mem[Cur(l.pieces)], mem'[Cur(l.pieces)], Pos(l.pieces));
      }
  }

  lemma GrownSame(mem: seq<seq<octet>>, mem': seq<seq<octet>>, owned: multiset<nat>)
    requires |mem'| == |mem| && forall b :: b in owned && b < |mem| ==> mem'[b] == mem[b]
    ensures Grown(mem, mem', owned)
  {}

  /** A lane does not notice changes to groups and buckets it does not own. */
  lemma LaneFrame(l: Lane, groups: seq<Group>, mem: seq<seq<octet>>, groups': seq<Group>, mem': seq<seq<octet>>,
                  room: nat)
    requires LaneOk(l, groups, mem, room)
    requires |groups'| == |groups| && |mem'| == |mem|
    requires forall g :: g in LaneGroups(l) && g < |groups| ==> groups'[g] == groups[g]
    requires forall b :: b in LaneBuckets(l) && b < |mem| ==> mem'[b] == mem[b]
    ensures LaneOk(l, groups', mem', room)
  {
    assert forall b :: b in Finals(Pending(l)) ==> b in LaneBuckets(l);
    TiledFrame(Pending(l), Pos(l.pieces), Cur(l.pieces), l.file, mem, mem');
    GrownSame(mem, mem', LaneBuckets(l));
    OutFrame(l, mem, mem');
    assert l.pc.Ready? ==> l.pc.group in LaneGroups(l);
    assert l.file.Some? ==> l.file.value.bucket in LaneBuckets(l);
  }

  lemma {:induction false} WorkRowsFrame(work: seq<nat>, groups: seq<Group>, groups': seq<Group>)
    requires |groups'| == |groups|
    requires forall g :: g in work && g < |groups| ==> groups'[g] == groups[g]
    ensures WorkRows(work, groups') == WorkRows(work, groups)
  {
    if work != [] {
      WorkRowsFrame(work[1..], groups, groups');
    }
  }

  lemma LaneRowsFrame(l: Lane, groups: seq<Group>, groups': seq<Group>)
    requires |groups'| == |groups|
    requires forall g :: g in LaneGroups(l) && g < |groups| ==> groups'[g] == groups[g]
    ensures LaneRows(l, groups') == LaneRows(l, groups)
  {
    assert forall g :: g in l.work ==> g in multiset(l.work);
    WorkRowsFrame(l.work, groups, groups');
    assert l.pc.Got? || l.pc.Ready? ==> l.pc.group in LaneGroups(l);
  }

  // ---------------------------------------------------------------- the state around one lane

  lemma KeepOtherLane(s: State, w: nat, v: nat, b: nat, bytes: seq<octet>)
    requires LanesOk(s) && OneOwner(s) && w < LANES && v < LANES && v != w && b < |s.mem|
    requires b in s.buckets || b in LaneBuckets(s.lanes[w]) || bytes == s.mem[b]
    ensures LaneOk(s.lanes[v], s.groups, s.mem[b := bytes], s.room)
  {
    hide LaneOk, OneOwner, LaneBuckets, LaneGroups;
    BucketsApart(s, w, v, b);
    LaneFrame(s.lanes[v], s.groups, s.mem, s.groups, s.mem[b := bytes], s.room);
  }

  /** A lane's step that writes bucket `b`, which is its own or was free. */
  lemma KeepLanes(s: State, s': State, w: nat, b: nat)
    requires LanesOk(s) && OneOwner(s) && w < LANES && b < |s.mem|
    requires |s'.lanes| == LANES && |s'.mem| == |s.mem| && s'.groups == s.groups && s'.room == s.room
    requires s'.lanes == s.lanes[w := s'.lanes[w]] && s'.mem == s.mem[b := s'.mem[b]]
    requires b in s.buckets || b in LaneBuckets(s.lanes[w]) || s'.mem[b] == s.mem[b]
    requires LaneOk(s'.lanes[w], s.groups, s'.mem, s.room)
    ensures LanesOk(s')
  {
    hide LaneOk, OneOwner;
    forall v | 0 <= v < LANES
      ensures LaneOk(s'.lanes[v], s'.groups, s'.mem, s'.room)
    {
      if v != w {
        KeepOtherLane(s, w, v, b, s'.mem[b]);
      }
    }
  }

  lemma KeepLaneFromGroup(s: State, v: nat, g: nat, group: Group)
    requires LanesOk(s) && OneOwner(s) && g < |s.groups| && v < LANES
    requires g in s.pool || s.hold == Some(g)
    ensures LaneOk(s.lanes[v], s.groups[g := group], s.mem, s.room)
    ensures LaneRows(s.lanes[v], s.groups[g := group]) == LaneRows(s.lanes[v], s.groups)
  {
    hide LaneOk, OneOwner, LaneBuckets, LaneGroups, LaneRows;
    GroupsApart(s, v, v, g);
    LaneFrame(s.lanes[v], s.groups, s.mem, s.groups[g := group], s.mem, s.room);
    LaneRowsFrame(s.lanes[v], s.groups, s.groups[g := group]);
  }

  /** The receiver's step that writes group `g`, which it holds or which was free. */
  lemma KeepLanesFromGroup(s: State, g: nat, group: Group)
    requires LanesOk(s) && OneOwner(s) && g < |s.groups|
    requires g in s.pool || s.hold == Some(g)
    ensures LanesOk(s.(groups := s.groups[g := group]))
    ensures RowParts(s.lanes, s.groups[g := group]) == RowParts(s.lanes, s.groups)
  {
    hide LaneOk, OneOwner, LaneRows;
    forall v | 0 <= v < LANES
      ensures LaneOk(s.lanes[v], s.groups[g := group], s.mem, s.room)
      ensures LaneRows(s.lanes[v], s.groups[g := group]) == LaneRows(s.lanes[v], s.groups)
    {
      KeepLaneFromGroup(s, v, g, group);
    }
  }

  lemma KeepOwners(s: State, s': State, w: nat)
    requires |s.lanes| == LANES && OneOwner(s) && w < LANES && |s'.lanes| == LANES
    requires forall v :: 0 <= v < LANES && v != w ==> s'.lanes[v] == s.lanes[v]
    requires FreeGroups(s') + LaneGroups(s'.lanes[w]) == FreeGroups(s) + LaneGroups(s.lanes[w])
    requires multiset(s'.buckets) + LaneBuckets(s'.lanes[w]) == multiset(s.buckets) + LaneBuckets(s.lanes[w])
    ensures OneOwner(s')
  {
    WholeMoves(FreeGroups(s), GroupParts(s.lanes), w, FreeGroups(s'), GroupParts(s'.lanes));
    WholeMoves(multiset(s.buckets), BucketParts(s.lanes), w, multiset(s'.buckets), BucketParts(s'.lanes));
  }

  lemma KeepRows(s: State, s': State, w: nat)
    requires |s.lanes| == LANES && NoRowLost(s) && w < LANES && |s'.lanes| == LANES
    requires forall v :: 0 <= v < LANES && v != w ==> s'.lanes[v] == s.lanes[v]
    requires s'.groups == s.groups && s'.accepted == s.accepted
    requires ReceiverRows(s'.hold, s.groups) + LaneRows(s'.lanes[w], s.groups)
      == ReceiverRows(s.hold, s.groups) + LaneRows(s.lanes[w], s.groups)
    ensures NoRowLost(s')
  {
    WholeMoves(ReceiverRows(s.hold, s.groups), RowParts(s.lanes, s.groups), w,
               ReceiverRows(s'.hold, s.groups), RowParts(s'.lanes, s.groups));
  }

  /** The receiver only notices the rings filling up. */
  lemma KeepReceiver(s: State, s': State)
    requires |s.lanes| == LANES && ReceiverOk(s) && |s'.lanes| == LANES
    requires s'.hold == s.hold && s'.groups == s.groups && s'.pc == s.pc && s'.turn == s.turn && (s.flush ==> s'.flush)
    requires forall v :: 0 <= v < LANES ==> |s'.lanes[v].work| <= |s.lanes[v].work|
    ensures ReceiverOk(s')
  {}

  lemma AddBoth<T>(a: multiset<T>, x: multiset<T>, b: multiset<T>, y: multiset<T>, h: multiset<T>)
    requires a + x == b + y
    ensures a + h + x == b + h + y
  {
    assert a + h + x == a + x + h;
  }

  /** Everything together, for a step of lane `w` that may write bucket `b`. */
  lemma KeepInv(s: State, s': State, w: nat, b: nat)
    requires Inv(s) && w < LANES && b < |s.mem|
    requires |s'.lanes| == LANES && |s'.mem| == |s.mem|
    requires s' == s.(lanes := s.lanes[w := s'.lanes[w]], pool := s'.pool, buckets := s'.buckets,
                      mem := s.mem[b := s'.mem[b]])
    requires b in s.buckets || b in LaneBuckets(s.lanes[w]) || s'.mem[b] == s.mem[b]
    requires LaneOk(s'.lanes[w], s.groups, s'.mem, s.room)
    requires multiset(s'.pool) + LaneGroups(s'.lanes[w]) == multiset(s.pool) + LaneGroups(s.lanes[w])
    requires multiset(s'.buckets) + LaneBuckets(s'.lanes[w]) == multiset(s.buckets) + LaneBuckets(s.lanes[w])
    requires LaneRows(s'.lanes[w], s.groups) == LaneRows(s.lanes[w], s.groups)
    requires |s'.lanes[w].work| <= |s.lanes[w].work|
    ensures Inv(s')
  {
    hide LaneOk, OneOwner, NoRowLost, ReceiverOk, LaneGroups, LaneBuckets, LaneRows;
    KeepLanes(s, s', w, b);
    AddBoth(multiset(s'.pool), LaneGroups(s'.lanes[w]), multiset(s.pool), LaneGroups(s.lanes[w]), Held(s.hold));
    KeepOwners(s, s', w);
    KeepRows(s, s', w);
    KeepReceiver(s, s');
  }
}
