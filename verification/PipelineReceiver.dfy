/** The steps of the receiver keep the invariant. */
module PipelineReceiver {
  import opened Common
  import opened Pipeline
  import opened PipelineInv
  import opened PipelineFrame
  import opened PipelineSteps

  lemma SameFree(s: State, s': State)
    requires s'.pool == s.pool && s'.hold == s.hold
    ensures FreeGroups(s') == FreeGroups(s)
  {}

  lemma TakeFree(s: State, s': State)
    requires s.hold.None? && s.pool != [] && s'.pool == s.pool[1..] && s'.hold == Some(s.pool[0])
    ensures FreeGroups(s') == FreeGroups(s)
  {
    assert s.pool == [s.pool[0]] + s.pool[1..];
  }

  /** Steps that only change where the receiver stands. */
  lemma KeepAllBut(s: State, s': State)
    requires Inv(s) && s' == s.(pc := s'.pc, flush := s'.flush, turn := s'.turn)
    requires ReceiverOk(s')
    ensures Inv(s')
  {
    hide LaneOk, ReceiverOk, GroupParts, BucketParts, RowParts, Whole, FreeGroups, ReceiverRows;
    SameFree(s, s');
  }

  lemma TakeOwner(s: State, s': State)
    requires |s.lanes| == LANES && OneOwner(s) && s.hold.None? && s.pool != []
    requires s' == s.(pool := s.pool[1..], hold := Some(s.pool[0]), groups := s'.groups)
    ensures OneOwner(s')
  {
    hide GroupParts, BucketParts, Whole, FreeGroups;
    TakeFree(s, s');
  }

  lemma KeepTakeGroup(s: State)
    requires Inv(s) && Enabled(s, TakeGroup)
    ensures Inv(Apply(s, TakeGroup))
  {
    hide LaneOk, OneOwner, RowParts, LaneGroups, LaneBuckets, LaneRows;
    var g, s' := s.pool[0], ApplyTakeGroup(s);
    KeepLanesFromGroup(s, g, Group([], LLONG_MAX, LLONG_MIN));
    TakeOwner(s, s');
    assert ReceiverRows(s'.hold, s'.groups) == multiset{};
  }

  lemma ReceiveRows(s: State, p: Packet)
    requires Inv(s) && Enabled(s, Receive(p))
    requires RowParts(s.lanes, ApplyReceive(s, p).groups) == RowParts(s.lanes, s.groups)
    ensures NoRowLost(ApplyReceive(s, p))
  {
    hide LaneOk, OneOwner, ReceiverOk, RowParts, Whole;
    var s' := ApplyReceive(s, p);
    AddRow(ReceiverRows(s.hold, s.groups), RowParts(s.lanes, s.groups), p);
    assert multiset(s'.accepted) == multiset(s.accepted) + multiset{p};
    assert ReceiverRows(s'.hold, s'.groups) == ReceiverRows(s.hold, s.groups) + multiset{p};
  }

  lemma ReceiveReceiver(s: State, p: Packet)
    requires Inv(s) && Enabled(s, Receive(p))
    ensures ReceiverOk(ApplyReceive(s, p))
  {
    hide LaneOk, OneOwner, NoRowLost;
  }

  lemma KeepReceive(s: State, p: Packet)
    requires Inv(s) && Enabled(s, Receive(p))
    ensures Inv(Apply(s, Receive(p)))
  {
    hide LaneOk, GroupParts, BucketParts, RowParts, Whole, NoRowLost, ReceiverOk, FreeGroups;
    var g, s' := s.hold.value, ApplyReceive(s, p);
    KeepLanesFromGroup(s, g, s'.groups[g]);
    ReceiveRows(s, p);
    ReceiveReceiver(s, p);
    SameFree(s, s');
  }

  lemma AddRow<T>(free: multiset<T>, m: seq<multiset<T>>, p: T)
    requires |m| == LANES
    ensures Whole(free + multiset{p}, m) == Whole(free, m) + multiset{p}
  {}

  lemma FlagKeepsReceiver(s: State, a: Action)
    requires |s.lanes| == LANES && ReceiverOk(s) && Enabled(s, a) && (a.ReceiveNothing? || a.ReceiverTimer?)
    ensures var s' := Apply(s, a); s' == s.(pc := s'.pc, flush := s'.flush) && ReceiverOk(s')
  {
    hide ScanOk, InTimes;
  }

  lemma KeepReceiverFlag(s: State, a: Action)
    requires Inv(s) && Enabled(s, a) && (a.ReceiveNothing? || a.ReceiverTimer?)
    ensures Inv(Apply(s, a))
  {
    LanesAndReceiver(s);
    hide *;
    FlagKeepsReceiver(s, a);
    var s' := Apply(s, a);
    KeepAllBut(s, s');
  }

  lemma LanesAndReceiver(s: State)
    requires Inv(s)
    ensures |s.lanes| == LANES && ReceiverOk(s)
  {
    hide OneOwner, NoRowLost, ReceiverOk, LaneOk;
  }

  /** A receiver that holds a group leaves at most seven for the rings. */
  lemma RingsHaveRoom(s: State)
    requires |s.lanes| == LANES && OneOwner(s) && s.hold.Some?
    ensures |s.lanes[0].work| + |s.lanes[1].work| + |s.lanes[2].work| + |s.lanes[3].work| < PACKET_GROUP_COUNT
  {
    var m, free := GroupParts(s.lanes), FreeGroups(s);
    assert |Whole(free, m)| == |free| + |m[0]| + |m[1]| + |m[2]| + |m[3]|;
    assert |ALL| == 8;
    assert |free| == |s.pool| + 1;
    forall w | 0 <= w < LANES
      ensures |m[w]| >= |s.lanes[w].work|
    {
      assert m[w] == multiset(s.lanes[w].work) + HeldBy(s.lanes[w].pc);
    }
  }

  lemma WorkBounded(s: State, w: nat)
    requires Inv(s) && w < LANES
    ensures |s.lanes[w].work| <= WORK_RING_CACHE_COUNT
  {
    hide OneOwner, NoRowLost, ReceiverOk;
    LaneIsOk(s, w);
  }

  lemma KeepCheck(s: State)
    requires Inv(s) && Enabled(s, Check)
    ensures Inv(Apply(s, Check))
  {
    hide LanesOk, OneOwner, NoRowLost;
    RingsHaveRoom(s);
    WorkBounded(s, 0);
    WorkBounded(s, 1);
    WorkBounded(s, 2);
    WorkBounded(s, 3);
    KeepAllBut(s, Apply(s, Check));
  }

  /** Three rings passed in one scan were full, so the fourth is not. */
  lemma FourthRingHasRoom(s: State)
    requires |s.lanes| == LANES && s.hold.Some? && s.pc.Scanning? && s.pc.tries == LANES - 1 && ReceiverOk(s)
    ensures |s.lanes[s.turn % LANES].work| < WORK_RING_CACHE_COUNT
  {
    hide InTimes;
    var t := s.turn % LANES;
    assert t == 0 || t == 1 || t == 2 || t == 3;
    assert (s.turn - 1) % LANES == (t + 3) % LANES;
    assert (s.turn - 2) % LANES == (t + 2) % LANES;
    assert (s.turn - 3) % LANES == (t + 1) % LANES;
  }

  lemma KeepPassRing(s: State)
    requires Enabled(s, TryRing) && |s.lanes[s.turn % LANES].work| >= WORK_RING_CACHE_COUNT && Inv(s)
    ensures Inv(Apply(s, TryRing))
  {
    hide LanesOk, OneOwner, NoRowLost;
    var s' := ApplyTryRing(s);
    if s.pc.tries == LANES - 1 {
      FourthRingHasRoom(s);
    }
    assert (s'.turn - 1) % LANES == s.turn % LANES;
    assert (s'.turn - 2) % LANES == (s.turn - 1) % LANES;
    assert (s'.turn - 3) % LANES == (s.turn - 2) % LANES;
    KeepAllBut(s, s');
  }

  lemma {:induction false} WorkRowsSnoc(work: seq<nat>, g: nat, groups: seq<Group>)
    ensures WorkRows(work + [g], groups) == WorkRows(work, groups) + RowsOf(g, groups)
  {
    if work == [] {
      assert work + [g] == [g] && [g][1..] == [];
    } else {
      WorkRowsSnoc(work[1..], g, groups);
      assert (work + [g])[1..] == work[1..] + [g] && (work + [g])[0] == work[0];
      AddAssoc(RowsOf(work[0], groups), WorkRows(work[1..], groups), RowsOf(g, groups));
    }
  }

  lemma EnqueueHoldings(l: Lane, g: nat, groups: seq<Group>)
    ensures var l' := l.(work := l.work + [g]);
      && LaneGroups(l') == multiset{g} + LaneGroups(l) && LaneBuckets(l') == LaneBuckets(l)
      && LaneRows(l', groups) == RowsOf(g, groups) + LaneRows(l, groups)
  {
    hide Finals, FinalRows, StoredRows, BlockRows, RowsOf;
    WorkRowsSnoc(l.work, g, groups);
    var l' := l.(work := l.work + [g]);
    assert Pending(l') == Pending(l);
    assert GroupRows(l', groups) == RowsOf(g, groups) + GroupRows(l, groups);
    AddAssoc(RowsOf(g, groups), GroupRows(l, groups), EncodedRows(l));
  }

  lemma EnqueueLane(l: Lane, g: nat, groups: seq<Group>, mem: seq<seq<octet>>, room: nat)
    requires LaneOk(l, groups, mem, room) && g < |groups| && GroupOk(groups[g]) && |l.work| < WORK_RING_CACHE_COUNT
    ensures LaneOk(l.(work := l.work + [g]), groups, mem, room)
  {
    hide *;
    var l' := l.(work := l.work + [g]);
    LaneParts(l, groups, mem, room);
    EnqueueWork(l, g, groups);
    FileStays(l, l', mem);
    EnqueueFile(l, g, groups, mem, room);
    LaneMade(l', groups, mem, room);
  }

  lemma EnqueueWork(l: Lane, g: nat, groups: seq<Group>)
    requires WorkOk(l, groups) && g < |groups| && GroupOk(groups[g]) && |l.work| < WORK_RING_CACHE_COUNT
    ensures WorkOk(l.(work := l.work + [g]), groups)
  {
    hide GroupOk;
    assert forall x :: x in LaneGroups(l.(work := l.work + [g])) ==> x == g || x in LaneGroups(l);
  }

  lemma EnqueueFile(l: Lane, g: nat, groups: seq<Group>, mem: seq<seq<octet>>, room: nat)
    requires FileOk(l, groups, mem, room)
    ensures FileOk(l.(work := l.work + [g]), groups, mem, room)
  {
    hide Bytes, BlocksInTimes, InTimes;
  }

  lemma EnqueueFrame(s: State)
    requires Enabled(s, TryRing) && |s.lanes[s.turn % LANES].work| < WORK_RING_CACHE_COUNT
    ensures var w := s.turn % LANES;
      var s' := Apply(s, TryRing);
      && w < LANES && s'.lanes == s.lanes[w := s.lanes[w].(work := s.lanes[w].work + [s.hold.value])]
      && |s'.lanes| == LANES && s'.groups == s.groups && s'.mem == s.mem && s'.room == s.room
        && s'.accepted == s.accepted
      && s'.pool == s.pool && s'.buckets == s.buckets && s'.hold.None? && s'.pc.Receiving?
  {}

  lemma EnqueueLanes(s: State, s': State, w: nat)
    requires LanesOk(s) && w < LANES && |s'.lanes| == LANES && s'.groups == s.groups && s'.mem == s.mem
      && s'.room == s.room
    requires s'.lanes == s.lanes[w := s'.lanes[w]] && LaneOk(s'.lanes[w], s.groups, s.mem, s.room)
    ensures LanesOk(s')
  {
    hide LaneOk;
    forall v | 0 <= v < LANES
      ensures LaneOk(s'.lanes[v], s'.groups, s'.mem, s'.room)
    {
      assert v != w ==> s'.lanes[v] == s.lanes[v];
    }
  }

  lemma KeepEnqueue(s: State)
    requires Enabled(s, TryRing) && |s.lanes[s.turn % LANES].work| < WORK_RING_CACHE_COUNT && Inv(s)
    ensures Inv(Apply(s, TryRing))
  {
    hide LaneOk, OneOwner, NoRowLost, LaneGroups, LaneBuckets, LaneRows, Apply, FreeGroups;
    var w: nat := s.turn % LANES;
    var l, g, s' := s.lanes[w], s.hold.value, Apply(s, TryRing);
    EnqueueFrame(s);
    LaneIsOk(s, w);
    EnqueueLane(l, g, s.groups, s.mem, s.room);
    EnqueueHoldings(l, g, s.groups);
    EnqueueLanes(s, s', w);
    HandedOver(s, s', g, LaneGroups(l));
    KeepOwners(s, s', w);
    KeepRows(s, s', w);
  }

  lemma HandedOver(s: State, s': State, g: nat, owned: multiset<nat>)
    requires s.hold == Some(g) && s'.hold.None? && s'.pool == s.pool
    ensures FreeGroups(s') + (multiset{g} + owned) == FreeGroups(s) + owned
  {
    AddAssoc(multiset(s.pool), multiset{g}, owned);
    assert FreeGroups(s') == multiset(s.pool);
  }
}
