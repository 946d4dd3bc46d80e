/** Why a group is handed over, and why a file is closed: it is full, or a timer has asked for it. */
module PipelineReasons {
  import opened Common
  import opened Pipeline
  import opened PipelineInv
  import opened PipelineSteps
  import opened PipelineWriters
  import opened PipelineReceiver
  import opened PipelineSafety
  import opened PipelineOrder

  // ---------------------------------------------------------------- the receiver only flushes when asked

  /** The receiver looks for a ring only when a flush was asked for. */
  predicate Asked(s: State) { s.pc.Scanning? ==> s.flush }

  lemma StepAsked(s: State, a: Action)
    requires Asked(s) && Enabled(s, a)
    ensures Asked(Apply(s, a))
  {}

  lemma {:induction false} RunAsked(s: State, actions: seq<Action>)
    requires Asked(s) && Run(s, actions).Some?
    ensures Asked(Run(s, actions).value)
    decreases |actions|
  {
    hide Asked, Apply, Enabled;
    if actions != [] {
      StepAsked(s, actions[0]);
      RunAsked(Apply(s, actions[0]), actions[1..]);
    }
  }

  /** In every reachable state a receiver that is handing its group over was asked to. */
  lemma HandsOverWhenAsked(s: State)
    requires Reachable(s)
    ensures s.pc.Scanning? ==> s.flush
  {
    var room: nat, actions: seq<Action> :| room <= MAX_PACKET_GROUP_SIZE && Run(Init(room), actions) == Some(s);
    hide Run;
    RunAsked(Init(room), actions);
  }

  // ---------------------------------------------------------------- without the receiver's timer

  predicate IsFull(g: nat, groups: seq<Group>) { g < |groups| && |groups[g].rows| == MAX_PACKET_COUNT }

  predicate FullBlocks(blocks: seq<Block>) {
    forall i :: 0 <= i < |blocks| ==> |blocks[i].rows| == MAX_PACKET_COUNT
  }

  /** Every group the lane was handed is full, and so is every row group it has made. */
  ghost predicate LaneFull(l: Lane, groups: seq<Group>) {
    && (forall g :: g in l.work ==> IsFull(g, groups))
    && (l.pc.Got? || l.pc.Ready? ==> IsFull(l.pc.group, groups))
    && (l.file.Some? ==> FullBlocks(l.file.value.blocks))
    && (forall c :: c in Pending(l) && c.last ==> FullBlocks(c.blocks))
    && forall r :: r in l.stored ==> FullBlocks(r.blocks)
  }

  /** A flush is asked for only by a group that is full. */
  predicate FullFlush(s: State) { s.flush ==> s.hold.Some? && IsFull(s.hold.value, s.groups) }

  ghost predicate OnlyFull(s: State) {
    |s.lanes| == LANES && Asked(s) && FullFlush(s) && forall w :: 0 <= w < LANES ==> LaneFull(s.lanes[w], s.groups)
  }

  lemma InitOnlyFull(room: nat)
    ensures OnlyFull(Init(room))
  {
    assert Pending(EMPTY_LANE) == [];
  }

  lemma LaneFullFrame(l: Lane, groups: seq<Group>, g: nat, group: Group)
    requires LaneFull(l, groups) && g !in LaneGroups(l) && g < |groups|
    ensures LaneFull(l, groups[g := group])
  {
    assert forall h :: h in l.work ==> h in LaneGroups(l);
    assert l.pc.Got? || l.pc.Ready? ==> l.pc.group in LaneGroups(l);
    hide FullBlocks, Pending, LaneGroups;
  }

  /** What a lane's step does to what it holds. */
  lemma WriterKeepsFull(s: State, a: Action)
    requires Enabled(s, a) && (a.ReadWork? || a.FlushIdle? || a.OpenSink? || a.JoinSink? || a.PutBack?
                               || a.WriterTimer?)
    requires LaneFull(s.lanes[a.w], s.groups)
    ensures |Apply(s, a).lanes| == LANES && LaneFull(Apply(s, a).lanes[a.w], s.groups)
  {
    hide IsFull;
    assert Pending(Apply(s, a).lanes[a.w]) == Pending(s.lanes[a.w]);
  }

  lemma AppendKeepsFull(s: State, a: Action)
    requires Enabled(s, a) && a.Append? && LaneFull(s.lanes[a.w], s.groups)
    ensures |Apply(s, a).lanes| == LANES && LaneFull(Apply(s, a).lanes[a.w], s.groups)
  {
    assert Pending(Apply(s, a).lanes[a.w]) == Pending(s.lanes[a.w]);
  }

  /** What a flush hands over. */
  lemma FlushHandsOver(s: State, a: Action)
    requires Enabled(s, a) && a.Flush?
    ensures |Apply(s, a).lanes| == LANES
    ensures var l, t := s.lanes[a.w], Apply(s, a).lanes[a.w];
      && l.file.Some? && l.file.value.bucket < |s.mem| && t.work == l.work && t.pc.Idle? && t.stored == l.stored
      && (forall c :: c in Pending(t) && c.last ==> c in Pending(l) || (l.flush && c.blocks == l.file.value.blocks))
      && (t.file.Some? ==> t.file.value.blocks == l.file.value.blocks) && !t.flush
  {
    var l, t := s.lanes[a.w], Apply(s, a).lanes[a.w];
    assert Pending(t) == Pending(l) + t.chunks[|l.chunks|..];
  }

  lemma FlushKeepsFull(s: State, a: Action)
    requires Enabled(s, a) && a.Flush? && LaneFull(s.lanes[a.w], s.groups)
    ensures |Apply(s, a).lanes| == LANES && LaneFull(Apply(s, a).lanes[a.w], s.groups)
  {
    FlushHandsOver(s, a);
    hide IsFull, FullBlocks, Apply, Enabled, Pending;
  }

  /** What the file writer's steps leave and what they add. */
  lemma SaverPasses(s: State, a: Action)
    requires Enabled(s, a) && (a.ReadChunk? || a.Save? || a.Release?)
    ensures |Apply(s, a).lanes| == LANES && Apply(s, a).mem == s.mem
    ensures var l, t := s.lanes[a.w], Apply(s, a).lanes[a.w];
      && t.work == l.work && t.pc == l.pc && t.file == l.file && t.flush == l.flush
      && (forall c :: c in Pending(t) ==> c in Pending(l))
      && forall r :: r in t.stored ==> r in l.stored || exists c :: c in Pending(l) && c.last && c.blocks == r.blocks
  {
    var l, t := s.lanes[a.w], Apply(s, a).lanes[a.w];
    assert l.chunks != [] ==> l.chunks == [l.chunks[0]] + l.chunks[1..];
    if a.Release? {
      assert l.saver.chunk in Pending(l);
    }
  }

  lemma SaverKeepsFull(s: State, a: Action)
    requires Enabled(s, a) && (a.ReadChunk? || a.Save? || a.Release?) && LaneFull(s.lanes[a.w], s.groups)
    ensures |Apply(s, a).lanes| == LANES && LaneFull(Apply(s, a).lanes[a.w], s.groups)
  {
    SaverPasses(s, a);
    hide IsFull, FullBlocks, Apply, Enabled, Pending;
  }

  lemma LaneKeepsFull(s: State, a: Action)
    requires Enabled(s, a) && LaneStep(a) && OnlyFull(s)
    ensures OnlyFull(Apply(s, a))
  {
    LaneStepFrame(s, a);
    LaneStepReceiver(s, a);
    hide Enabled, Apply, LaneFull, IsFull;
    if a.Append? {
      AppendKeepsFull(s, a);
    } else if a.Flush? {
      FlushKeepsFull(s, a);
    } else if a.ReadChunk? || a.Save? || a.Release? {
      SaverKeepsFull(s, a);
    } else {
      WriterKeepsFull(s, a);
    }
  }

  lemma LaneStepReceiver(s: State, a: Action)
    requires Enabled(s, a) && LaneStep(a)
    ensures Apply(s, a).pc == s.pc && Apply(s, a).flush == s.flush
  {}

  lemma HandKeepsFull(s: State)
    requires Enabled(s, TryRing) && OnlyFull(s)
    ensures OnlyFull(Apply(s, TryRing))
  {
    hide FullBlocks, IsFull;
    var w: nat := s.turn % LANES;
    var l, g := s.lanes[w], s.hold.value;
    if |l.work| < WORK_RING_CACHE_COUNT {
      EnqueueFrame(s);
      assert Pending(l.(work := l.work + [g])) == Pending(l);
      assert LaneFull(l.(work := l.work + [g]), s.groups);
    }
    hide LaneFull;
  }

  lemma TakeKeepsFull(s: State)
    requires Enabled(s, TakeGroup) && OnlyFull(s) && OneOwner(s)
    ensures OnlyFull(Apply(s, TakeGroup))
  {
    hide LaneFull, OneOwner;
    var g := s.pool[0];
    forall w | 0 <= w < LANES ensures LaneFull(s.lanes[w], s.groups[g := Group([], LLONG_MAX, LLONG_MIN)]) {
      GroupsApart(s, w, w, g);
      LaneFullFrame(s.lanes[w], s.groups, g, Group([], LLONG_MAX, LLONG_MIN));
    }
  }

  lemma ReceiveKeepsFull(s: State, p: Packet)
    requires Enabled(s, Receive(p)) && OnlyFull(s) && OneOwner(s) && ReceiverOk(s)
    ensures OnlyFull(Apply(s, Receive(p)))
  {
    hide LaneFull, OneOwner;
    var g, t := s.hold.value, Apply(s, Receive(p));
    forall w | 0 <= w < LANES ensures LaneFull(s.lanes[w], t.groups) {
      GroupsApart(s, w, w, g);
      LaneFullFrame(s.lanes[w], s.groups, g, t.groups[g]);
    }
  }

  lemma WaitKeepsFull(s: State, a: Action)
    requires Enabled(s, a) && OnlyFull(s) && (a.ReceiveNothing? || a.Check?)
    ensures OnlyFull(Apply(s, a))
  {
    hide LaneFull, IsFull;
  }

  lemma StepKeepsFull(s: State, a: Action)
    requires Inv(s) && OnlyFull(s) && Enabled(s, a) && !a.ReceiverTimer?
    ensures OnlyFull(Apply(s, a))
  {
    hide Inv, OneOwner, OnlyFull, Enabled, Apply, ReceiverOk;
    LanesAndReceiver(s);
    EachHasOwner(s);
    match a
    case TakeGroup => TakeKeepsFull(s);
    case Receive(p) => ReceiveKeepsFull(s, p);
    case TryRing => HandKeepsFull(s);
    case ReceiveNothing => WaitKeepsFull(s, a);
    case Check => WaitKeepsFull(s, a);
    case _ => LaneKeepsFull(s, a);
  }

  predicate NoReceiverTimer(actions: seq<Action>) { forall i :: 0 <= i < |actions| ==> !actions[i].ReceiverTimer? }

  lemma {:induction false} RunKeepsFull(s: State, actions: seq<Action>)
    requires Inv(s) && OnlyFull(s) && NoReceiverTimer(actions) && Run(s, actions).Some?
    ensures OnlyFull(Run(s, actions).value)
    decreases |actions|
  {
    hide Inv, OnlyFull, Apply, Enabled;
    if actions != [] {
      StepKeepsFull(s, actions[0]);
      ActionKeepsInv(s, actions[0]);
      assert forall i :: 0 <= i < |actions[1..]| ==> actions[1..][i] == actions[i + 1];
      RunKeepsFull(Apply(s, actions[0]), actions[1..]);
    }
  }

  /** As long as the receiver's timer does not go off, it hands over full groups only. */
  lemma OnlyFullGroups(room: nat, actions: seq<Action>)
    requires room <= MAX_PACKET_GROUP_SIZE && Run(Init(room), actions).Some? && NoReceiverTimer(actions)
    ensures OnlyFull(Run(Init(room), actions).value)
  {
    hide Inv, OnlyFull, Run, Init;
    InitInv(room);
    InitOnlyFull(room);
    RunKeepsFull(Init(room), actions);
  }

  // ---------------------------------------------------------------- without a parquet writer's timer

  predicate IsLarge(blocks: seq<Block>) { |Bytes(blocks)| >= PARQUET_FILE_FLUSH_SIZE }

  /** The lane closes a file only when it is large. */
  ghost predicate LaneLarge(l: Lane, mem: seq<seq<octet>>) {
    && (l.flush ==> l.pc.Deciding? && l.file.Some? && InBucket(l.file.value.bucket, PARQUET_FILE_FLUSH_SIZE, mem))
    && (forall c :: c in Pending(l) && c.last ==> IsLarge(c.blocks))
    && forall r :: r in l.stored ==> IsLarge(r.blocks)
  }

  lemma InitLarge(room: nat, w: nat)
    requires w < LANES
    ensures LaneLarge(Init(room).lanes[w], Init(room).mem)
  {
    assert Pending(EMPTY_LANE) == [];
  }

  lemma WriterKeepsLarge(s: State, a: Action)
    requires Enabled(s, a)
    requires a.ReadWork? || a.FlushIdle? || a.OpenSink? || a.JoinSink? || a.Append? || a.PutBack?
    requires LaneLarge(s.lanes[a.w], s.mem)
    ensures |Apply(s, a).lanes| == LANES && LaneLarge(Apply(s, a).lanes[a.w], Apply(s, a).mem)
  {
    hide IsLarge;
    assert Pending(Apply(s, a).lanes[a.w]) == Pending(s.lanes[a.w]);
  }

  lemma FlushKeepsLarge(s: State, a: Action)
    requires Enabled(s, a) && a.Flush? && LaneLarge(s.lanes[a.w], s.mem)
    requires var f := s.lanes[a.w].file.value; s.mem[f.bucket] == Bytes(f.blocks)
    ensures |Apply(s, a).lanes| == LANES && LaneLarge(Apply(s, a).lanes[a.w], Apply(s, a).mem)
  {
    FlushHandsOver(s, a);
    hide Bytes, Apply, Enabled, Pending;
  }

  lemma SaverKeepsLarge(s: State, a: Action)
    requires Enabled(s, a) && (a.ReadChunk? || a.Save? || a.Release?) && LaneLarge(s.lanes[a.w], s.mem)
    ensures |Apply(s, a).lanes| == LANES && LaneLarge(Apply(s, a).lanes[a.w], Apply(s, a).mem)
  {
    SaverPasses(s, a);
    hide IsLarge, Apply, Enabled, Pending;
  }

  lemma OwnKeepsLarge(s: State, a: Action)
    requires Enabled(s, a) && LaneStep(a) && !a.WriterTimer? && LaneOf(s, a.w) && LaneLarge(s.lanes[a.w], s.mem)
      && Inv(s)
    ensures |Apply(s, a).lanes| == LANES && LaneLarge(Apply(s, a).lanes[a.w], Apply(s, a).mem)
  {
    if a.Flush? {
      FileIsEncoded(s, a.w);
    }
    hide Inv, Enabled, Apply, LaneLarge, Bytes;
    if a.Flush? {
      FlushKeepsLarge(s, a);
    } else if a.ReadChunk? || a.Save? || a.Release? {
      SaverKeepsLarge(s, a);
    } else {
      WriterKeepsLarge(s, a);
    }
  }

  lemma FileIsEncoded(s: State, w: nat)
    requires LaneOf(s, w) && s.lanes[w].file.Some? && Inv(s)
    ensures var f := s.lanes[w].file.value; f.bucket < |s.mem| && s.mem[f.bucket] == Bytes(f.blocks)
  {
    assert w < LANES;
    hide *;
    LaneIsOk(s, w);
    LaneParts(s.lanes[w], s.groups, s.mem, s.room);
    EncodedInBucket(s.lanes[w], s.groups, s.mem, s.room);
  }

  lemma EncodedInBucket(l: Lane, groups: seq<Group>, mem: seq<seq<octet>>, room: nat)
    requires FileOk(l, groups, mem, room) && l.file.Some?
    ensures l.file.value.bucket < |mem| && mem[l.file.value.bucket] == Bytes(l.file.value.blocks)
  {
    hide Bytes;
  }

  /** The steps of other lanes and of the receiver leave the lane and its bucket alone. */
  lemma OtherKeepsLarge(s: State, a: Action, w: nat)
    requires Enabled(s, a) && LaneOf(s, w) && (LaneStep(a) ==> a.w != w) && LaneLarge(s.lanes[w], s.mem) && Inv(s)
    ensures |Apply(s, a).lanes| == LANES && LaneLarge(Apply(s, a).lanes[w], Apply(s, a).mem)
  {
    assert |s.lanes| == LANES && w < LANES;
    hide *;
    EachHasOwner(s);
    OthersAddWork(s, a, w);
    if s.lanes[w].file.Some? {
      BucketStays(s, a, w);
    }
    SameLarge(s.lanes[w], Apply(s, a).lanes[w], s.mem, Apply(s, a).mem);
  }

  lemma SameLarge(l: Lane, l': Lane, mem: seq<seq<octet>>, mem': seq<seq<octet>>)
    requires LaneLarge(l, mem) && l' == l.(work := l'.work)
    requires l.file.Some? && l.file.value.bucket < |mem| ==>
      |mem'| == |mem| && mem'[l.file.value.bucket] == mem[l.file.value.bucket]
    ensures LaneLarge(l', mem')
  {
    hide IsLarge;
    assert Pending(l') == Pending(l);
  }

  /** The one bucket a step can change. */
  lemma OneBucketChanges(s: State, a: Action) returns (b: nat)
    requires Enabled(s, a)
    ensures |Apply(s, a).mem| == |s.mem| && (b < |s.mem| ==> forall x :: 0 <= x < |s.mem| && x != b ==>
                                             Apply(s, a).mem[x] == s.mem[x])
    ensures b < |s.mem| || Apply(s, a).mem == s.mem
    ensures b < |s.mem| ==> b in s.buckets || (LaneStep(a) && LaneOf(s, a.w) && b in LaneBuckets(s.lanes[a.w]))
  {
    b := |s.mem|;
    if a.OpenSink? {
      b := s.buckets[0];
    } else if a.Append? || a.Flush? {
      b := s.lanes[a.w].file.value.bucket;
      FileBucketOwned(s.lanes[a.w]);
    }
    hide LaneBuckets;
  }

  lemma BucketStays(s: State, a: Action, w: nat)
    requires |s.lanes| == LANES && OneOwner(s) && Enabled(s, a) && w < LANES && (LaneStep(a) ==> a.w != w)
    requires s.lanes[w].file.Some?
    ensures var b := s.lanes[w].file.value.bucket;
      |Apply(s, a).mem| == |s.mem| && (b < |s.mem| ==> Apply(s, a).mem[b] == s.mem[b])
  {
    hide OneOwner, LaneBuckets, Enabled, Apply;
    FileBucketOwned(s.lanes[w]);
    var b := OneBucketChanges(s, a);
    if b < |s.mem| {
      BucketsApart(s, if LaneStep(a) && LaneOf(s, a.w) then a.w else w, w, b);
    }
  }

  predicate NoTimerOf(actions: seq<Action>, w: nat) { forall i :: 0 <= i < |actions| ==> actions[i] != WriterTimer(w) }

  lemma {:induction false} RunKeepsLarge(s: State, actions: seq<Action>, w: nat)
    requires Inv(s) && LaneOf(s, w) && LaneLarge(s.lanes[w], s.mem) && NoTimerOf(actions, w) && Run(s, actions).Some?
    ensures var t := Run(s, actions).value; |t.lanes| == LANES && LaneLarge(t.lanes[w], t.mem)
    decreases |actions|
  {
    hide Inv, LaneLarge, Apply, Enabled;
    if actions != [] {
      var a := actions[0];
      if LaneStep(a) && a.w == w {
        OwnKeepsLarge(s, a);
      } else {
        OtherKeepsLarge(s, a, w);
      }
      ActionKeepsInv(s, a);
      assert forall i :: 0 <= i < |actions[1..]| ==> actions[1..][i] == actions[i + 1];
      RunKeepsLarge(Apply(s, a), actions[1..], w);
    }
  }

  /** As long as a parquet writer's timer does not go off, it closes large files only. */
  lemma OnlyLargeFiles(room: nat, actions: seq<Action>, w: nat)
    requires room <= MAX_PACKET_GROUP_SIZE && Run(Init(room), actions).Some? && w < LANES && NoTimerOf(actions, w)
    ensures var t := Run(Init(room), actions).value; |t.lanes| == LANES && LaneLarge(t.lanes[w], t.mem)
  {
    InitLarge(room, w);
    hide Inv, LaneLarge, Run;
    InitInv(room);
    RunKeepsLarge(Init(room), actions, w);
  }
}
