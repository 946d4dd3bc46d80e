/** Every lane keeps its packets in the order in which they were accepted. */
module PipelineOrder {
  import opened Common
  import opened Pipeline
  import opened PipelineInv
  import opened PipelineReceiver
  import opened PipelineSafety

  // ---------------------------------------------------------------- the packets of a lane, oldest first

  function BlockSeq(blocks: seq<Block>): seq<Packet> {
    if blocks == [] then [] else BlockSeq(blocks[..|blocks| - 1]) + blocks[|blocks| - 1].rows
  }

  function StoredSeq(stored: seq<Stored>): seq<Packet> {
    if stored == [] then [] else StoredSeq(stored[..|stored| - 1]) + BlockSeq(stored[|stored| - 1].blocks)
  }

  function ChunkSeq(c: Chunk): seq<Packet> { if c.last then BlockSeq(c.blocks) else [] }

  function QueueSeq(q: seq<Chunk>): seq<Packet> { if q == [] then [] else ChunkSeq(q[0]) + QueueSeq(q[1..]) }

  function FileSeq(file: Option<OpenFile>): seq<Packet> { if file.Some? then BlockSeq(file.value.blocks) else [] }

  function RowSeq(g: nat, groups: seq<Group>): seq<Packet> { if g < |groups| then groups[g].rows else [] }

  /** The rows a parquet writer holds and has not encoded yet. */
  function HeldSeq(pc: WriterPc, groups: seq<Group>): seq<Packet> {
    if pc.Got? || pc.Ready? then RowSeq(pc.group, groups) else []
  }

  function WorkSeq(work: seq<nat>, groups: seq<Group>): seq<Packet> {
    if work == [] then [] else RowSeq(work[0], groups) + WorkSeq(work[1..], groups)
  }

  function EncodedSeq(l: Lane): seq<Packet> { StoredSeq(l.stored) + QueueSeq(Pending(l)) + FileSeq(l.file) }

  function GroupSeq(l: Lane, groups: seq<Group>): seq<Packet> { HeldSeq(l.pc, groups) + WorkSeq(l.work, groups) }

  /** First what is in finished files, then what is on its way to the file writer, in the open file, and in groups. */
  function LaneSeq(l: Lane, groups: seq<Group>): seq<Packet> { EncodedSeq(l) + GroupSeq(l, groups) }

  /** What the receiver has accepted and not handed over. */
  function ReceiverSeq(s: State): seq<Packet> { if s.hold.Some? then RowSeq(s.hold.value, s.groups) else [] }

  // ---------------------------------------------------------------- the steps of the lanes

  lemma BlockSeqSnoc(blocks: seq<Block>, b: Block)
    ensures BlockSeq(blocks + [b]) == BlockSeq(blocks) + b.rows
  {
    assert (blocks + [b])[..|blocks|] == blocks;
  }

  lemma StoredSeqSnoc(stored: seq<Stored>, r: Stored)
    ensures StoredSeq(stored + [r]) == StoredSeq(stored) + BlockSeq(r.blocks)
  {
    assert (stored + [r])[..|stored|] == stored;
  }

  lemma {:induction false} QueueSeqSnoc(q: seq<Chunk>, c: Chunk)
    ensures QueueSeq(q + [c]) == QueueSeq(q) + ChunkSeq(c)
  {
    hide ChunkSeq;
    if q == [] {
      assert q + [c] == [c] && [c][1..] == [];
    } else {
      QueueSeqSnoc(q[1..], c);
      assert (q + [c])[1..] == q[1..] + [c];
      assert ChunkSeq(q[0]) + (QueueSeq(q[1..]) + ChunkSeq(c)) == ChunkSeq(q[0]) + QueueSeq(q[1..]) + ChunkSeq(c);
    }
  }

  lemma {:induction false} WorkSeqSnoc(work: seq<nat>, g: nat, groups: seq<Group>)
    ensures WorkSeq(work + [g], groups) == WorkSeq(work, groups) + RowSeq(g, groups)
  {
    hide RowSeq;
    if work == [] {
      assert work + [g] == [g] && [g][1..] == [];
    } else {
      WorkSeqSnoc(work[1..], g, groups);
      assert (work + [g])[1..] == work[1..] + [g];
      var a, b, c := RowSeq(work[0], groups), WorkSeq(work[1..], groups), RowSeq(g, groups);
      assert a + (b + c) == a + b + c;
    }
  }

  /** Taking a group off the ring. */
  lemma ReadWorkOrder(l: Lane, groups: seq<Group>)
    requires l.pc.Idle? && l.work != []
    ensures LaneSeq(l.(work := l.work[1..], pc := Got(l.work[0])), groups) == LaneSeq(l, groups)
  {
    hide EncodedSeq, RowSeq;
    var l' := l.(work := l.work[1..], pc := Got(l.work[0]));
    SameEncoded(l, l');
    assert GroupSeq(l', groups) == GroupSeq(l, groups);
  }

  lemma SameEncoded(l: Lane, l': Lane)
    requires l'.stored == l.stored && Pending(l') == Pending(l) && FileSeq(l'.file) == FileSeq(l.file)
    ensures EncodedSeq(l') == EncodedSeq(l)
  {}

  /** A step that moves no rows. */
  lemma StillOrder(l: Lane, l': Lane, groups: seq<Group>)
    requires l'.stored == l.stored && Pending(l') == Pending(l) && FileSeq(l'.file) == FileSeq(l.file)
    requires HeldSeq(l'.pc, groups) == HeldSeq(l.pc, groups) && l'.work == l.work
    ensures LaneSeq(l', groups) == LaneSeq(l, groups)
  {
    SameEncoded(l, l');
  }

  /** Encoding the group held. */
  lemma AppendOrder(l: Lane, groups: seq<Group>, bytes: seq<octet>)
    requires l.pc.Ready? && l.file.Some? && l.pc.group < |groups|
    ensures var f := l.file.value;
      var blocks := f.blocks + [Block(groups[l.pc.group].rows, bytes)];
      LaneSeq(l.(file := Some(f.(blocks := blocks)), pc := Written(l.pc.group)), groups) == LaneSeq(l, groups)
  {
    var f, rows := l.file.value, groups[l.pc.group].rows;
    var b := Block(rows, bytes);
    var l' := l.(file := Some(f.(blocks := f.blocks + [b])), pc := Written(l.pc.group));
    BlockSeqSnoc(f.blocks, b);
    assert Pending(l') == Pending(l);
    assert HeldSeq(l'.pc, groups) == [] && HeldSeq(l.pc, groups) == rows;
    hide *;
    MovesAcross(l, l', rows, WorkSeq(l.work, groups), groups);
  }

  lemma MovesAcross(l: Lane, l': Lane, rows: seq<Packet>, work: seq<Packet>, groups: seq<Group>)
    requires l'.stored == l.stored && Pending(l') == Pending(l) && FileSeq(l'.file) == FileSeq(l.file) + rows
    requires HeldSeq(l'.pc, groups) == [] && HeldSeq(l.pc, groups) == rows && l'.work == l.work
    requires work == WorkSeq(l.work, groups)
    ensures LaneSeq(l', groups) == LaneSeq(l, groups)
  {
    hide StoredSeq, QueueSeq, Pending, FileSeq, HeldSeq, WorkSeq;
    var a, b, f := StoredSeq(l.stored), QueueSeq(Pending(l)), FileSeq(l.file);
    assert a + b + (f + rows) + ([] + work) == a + b + f + (rows + work);
  }

  /** Handing over the last chunk of a file. */
  lemma CloseOrder(l: Lane, c: Chunk, groups: seq<Group>)
    requires l.pc.Deciding? && l.file.Some? && c.last && c.blocks == l.file.value.blocks
    ensures LaneSeq(Closed(l, c), groups) == LaneSeq(l, groups)
  {
    var l' := Closed(l, c);
    QueueSeqSnoc(Pending(l), c);
    assert Pending(l') == Pending(l) + [c];
    assert HeldSeq(l'.pc, groups) == HeldSeq(l.pc, groups);
    hide BlockSeq, StoredSeq, QueueSeq, Pending, HeldSeq, WorkSeq;
    var a, b, f := StoredSeq(l.stored), QueueSeq(Pending(l)), BlockSeq(c.blocks);
    assert a + (b + f) + [] == a + b + f;
  }

  lemma HalfOrder(l: Lane, c: Chunk, l': Lane, groups: seq<Group>)
    requires l.pc.Deciding? && l.file.Some? && !c.last && l'.file.Some? && l'.file.value.blocks == l.file.value.blocks
    requires l' == l.(chunks := l.chunks + [c], file := l'.file, pc := Idle)
    ensures LaneSeq(l', groups) == LaneSeq(l, groups)
  {
    QueueSeqSnoc(Pending(l), c);
    assert Pending(l') == Pending(l) + [c];
    assert QueueSeq(Pending(l)) + [] == QueueSeq(Pending(l));
    assert HeldSeq(l'.pc, groups) == HeldSeq(l.pc, groups);
  }

  /** Finishing with a chunk. */
  lemma ReleaseOrder(l: Lane, groups: seq<Group>)
    requires l.saver.Saved?
    ensures LaneSeq(ReleasedLane(l), groups) == LaneSeq(l, groups)
  {
    ReleasedQueue(l);
    ReleasedStored(l);
    hide *;
    var l' := ReleasedLane(l);
    var a, b, q := StoredSeq(l.stored), ChunkSeq(l.saver.chunk), QueueSeq(Pending(l'));
    LaneSeqIs(l, groups);
    LaneSeqIs(l', groups);
    Reassociate(a, b, q);
  }

  lemma Reassociate<T>(a: seq<T>, b: seq<T>, c: seq<T>)
    ensures a + (b + c) == a + b + c
  {}

  lemma LaneSeqIs(l: Lane, groups: seq<Group>)
    ensures LaneSeq(l, groups) == StoredSeq(l.stored) + QueueSeq(Pending(l)) + FileSeq(l.file) + GroupSeq(l, groups)
  {
    hide StoredSeq, QueueSeq, Pending, FileSeq, GroupSeq;
  }

  lemma ReleasedQueue(l: Lane)
    requires l.saver.Saved?
    ensures var l' := ReleasedLane(l);
      && QueueSeq(Pending(l)) == ChunkSeq(l.saver.chunk) + QueueSeq(Pending(l'))
      && l'.file == l.file && forall groups :: GroupSeq(l', groups) == GroupSeq(l, groups)
  {
    hide ChunkSeq;
    var l' := ReleasedLane(l);
    assert Pending(l) == [l.saver.chunk] + Pending(l') && Pending(l)[1..] == Pending(l');
  }

  lemma ReleasedStored(l: Lane)
    requires l.saver.Saved?
    ensures StoredSeq(ReleasedLane(l).stored) == StoredSeq(l.stored) + ChunkSeq(l.saver.chunk)
  {
    var c := l.saver.chunk;
    if c.last {
      StoredSeqSnoc(l.stored, StoredFile(l, c));
      hide BlockSeq, StoredSeq;
    } else {
      hide StoredSeq;
      assert StoredSeq(l.stored) + [] == StoredSeq(l.stored);
    }
  }

  /** A step of lane `w` moves its packets on and leaves their order. */
  lemma FlushOrder(s: State, w: nat, footer: seq<octet>)
    requires Enabled(s, Flush(w, footer))
    ensures LaneSeq(Apply(s, Flush(w, footer)).lanes[w], s.groups) == LaneSeq(s.lanes[w], s.groups)
  {
    var l := s.lanes[w];
    var f := l.file.value;
    var l' := Apply(s, Flush(w, footer)).lanes[w];
    if l.flush {
      CloseOrder(l, LastChunk(f, |s.mem[f.bucket] + footer|, footer), s.groups);
    } else if |s.mem[f.bucket]| - f.flushed >= PARQUET_FILE_CHUNK_SIZE {
      HalfOrder(l, FirstChunk(f), l', s.groups);
    } else {
      assert Pending(l') == Pending(l);
      StillOrder(l, l', s.groups);
    }
  }

  predicate LaneStep(a: Action) {
    !a.TakeGroup? && !a.Receive? && !a.ReceiveNothing? && !a.ReceiverTimer? && !a.Check? && !a.TryRing?
  }

  lemma LaneStepFrame(s: State, a: Action)
    requires Enabled(s, a) && LaneStep(a)
    ensures var t := Apply(s, a);
      && LaneOf(s, a.w) && |t.lanes| == LANES && t.lanes == s.lanes[a.w := t.lanes[a.w]]
      && t.groups == s.groups && t.hold == s.hold && t.accepted == s.accepted
  {}

  /** A step of the receiver at most puts a group on the lane's ring; a step of another lane leaves the lane alone. */
  lemma OthersAddWork(s: State, a: Action, w: nat)
    requires Enabled(s, a) && LaneOf(s, w) && (LaneStep(a) ==> a.w != w)
    ensures w < |Apply(s, a).lanes| == LANES
    ensures var l, l' := s.lanes[w], Apply(s, a).lanes[w]; l' == l.(work := l'.work) && l.work <= l'.work
  {
    if LaneStep(a) {
      LaneStepFrame(s, a);
      hide Apply, Enabled;
    }
  }

  lemma LaneStepOrder(s: State, a: Action)
    requires Enabled(s, a) && LaneStep(a) && LaneOf(s, a.w)
    ensures |Apply(s, a).lanes| == LANES && LaneSeq(Apply(s, a).lanes[a.w], s.groups) == LaneSeq(s.lanes[a.w], s.groups)
  {
    var l := s.lanes[a.w];
    match a
    case ReadWork(w) => ReadWorkOrder(l, s.groups);
    case Append(w, bytes) => AppendOrder(l, s.groups, bytes);
    case Flush(w, footer) => FlushOrder(s, w, footer);
    case Release(w) => ReleaseOrder(l, s.groups);
    case _ => OtherStepOrder(s, a);
  }

  lemma OtherStepOrder(s: State, a: Action)
    requires Enabled(s, a) && LaneStep(a) && LaneOf(s, a.w)
    requires !a.ReadWork? && !a.Append? && !a.Flush? && !a.Release?
    ensures |Apply(s, a).lanes| == LANES && LaneSeq(Apply(s, a).lanes[a.w], s.groups) == LaneSeq(s.lanes[a.w], s.groups)
  {
    hide BlockSeq, StoredSeq, QueueSeq, WorkSeq, LaneSeq, RowSeq, Enabled, Apply;
    if a.ReadChunk? || a.Save? {
      SaverMovesNothing(s, a);
    } else {
      WriterMovesNothing(s, a);
    }
    StillOrder(s.lanes[a.w], Apply(s, a).lanes[a.w], s.groups);
  }

  /** `l'` holds the same packets in the same places. */
  ghost predicate SameRows(l: Lane, l': Lane, groups: seq<Group>) {
    && l'.stored == l.stored && Pending(l') == Pending(l) && FileSeq(l'.file) == FileSeq(l.file)
    && HeldSeq(l'.pc, groups) == HeldSeq(l.pc, groups) && l'.work == l.work
  }

  lemma SaverMovesNothing(s: State, a: Action)
    requires Enabled(s, a) && (a.ReadChunk? || a.Save?)
    ensures LaneOf(s, a.w)
    ensures |Apply(s, a).lanes| == LANES && SameRows(s.lanes[a.w], Apply(s, a).lanes[a.w], s.groups)
  {
    hide BlockSeq, RowSeq;
    var l := s.lanes[a.w];
    assert l.chunks != [] ==> l.chunks == [l.chunks[0]] + l.chunks[1..];
  }

  lemma WriterMovesNothing(s: State, a: Action)
    requires Enabled(s, a) && (a.FlushIdle? || a.OpenSink? || a.JoinSink? || a.PutBack? || a.WriterTimer?)
    ensures LaneOf(s, a.w)
    ensures |Apply(s, a).lanes| == LANES && SameRows(s.lanes[a.w], Apply(s, a).lanes[a.w], s.groups)
  {
    EmptyBlocks();
    hide BlockSeq, RowSeq;
  }

  lemma EmptyBlocks()
    ensures BlockSeq([]) == []
  {}

  // ---------------------------------------------------------------- groups the lanes do not own

  lemma {:induction false} WorkSeqFrame(work: seq<nat>, groups: seq<Group>, groups': seq<Group>)
    requires |groups'| == |groups|
    requires forall g :: g in work && g < |groups| ==> groups'[g] == groups[g]
    ensures WorkSeq(work, groups') == WorkSeq(work, groups)
  {
    if work != [] {
      WorkSeqFrame(work[1..], groups, groups');
    }
  }

  lemma HeldSeqFrame(l: Lane, groups: seq<Group>, groups': seq<Group>)
    requires |groups'| == |groups| && forall g :: g in LaneGroups(l) && g < |groups| ==> groups'[g] == groups[g]
    ensures HeldSeq(l.pc, groups') == HeldSeq(l.pc, groups)
  {
    assert l.pc.Got? || l.pc.Ready? ==> l.pc.group in LaneGroups(l);
  }

  lemma LaneSeqFrame(l: Lane, groups: seq<Group>, g: nat, group: Group)
    requires g < |groups| && g !in LaneGroups(l)
    ensures LaneSeq(l, groups[g := group]) == LaneSeq(l, groups)
  {
    var groups' := groups[g := group];
    assert forall h :: h in l.work ==> h in LaneGroups(l);
    assert forall h :: h in LaneGroups(l) && h < |groups| ==> groups'[h] == groups[h];
    hide EncodedSeq, WorkSeq, HeldSeq, LaneGroups;
    HeldSeqFrame(l, groups, groups');
    WorkSeqFrame(l.work, groups, groups');
  }

  lemma LanesFrame(s: State, g: nat, group: Group, w: nat)
    requires |s.lanes| == LANES && OneOwner(s) && w < LANES && g < |s.groups| && (g in s.pool || s.hold == Some(g))
    ensures LaneSeq(s.lanes[w], s.groups[g := group]) == LaneSeq(s.lanes[w], s.groups)
  {
    GroupsApart(s, w, w, g);
    hide LaneSeq, OneOwner;
    LaneSeqFrame(s.lanes[w], s.groups, g, group);
  }

  // ---------------------------------------------------------------- who got which packet

  /** The packets with label `w`, in their order. */
  function Picked(rows: seq<Packet>, labels: seq<nat>, w: nat): seq<Packet>
    requires |rows| == |labels|
  {
    if rows == [] then []
    else
      var n := |rows| - 1;
      Picked(rows[..n], labels[..n], w) + if labels[n] == w then [rows[n]] else []
  }

  lemma {:induction false} PickedMore(rows: seq<Packet>, labels: seq<nat>, w: nat, more: seq<Packet>, v: nat)
    requires |rows| == |labels|
    ensures Picked(rows + more, labels + seq(|more|, _ => v), w) == Picked(rows, labels, w) + if v == w then more
      else []
  {
    var all := labels + seq(|more|, _ => v);
    if more == [] {
      assert rows + more == rows && all == labels && Picked(rows, labels, w) + [] == Picked(rows, labels, w);
    } else {
      var n := |more| - 1;
      PickedMore(rows, labels, w, more[..n], v);
      assert (rows + more)[..|rows| + n] == rows + more[..n];
      assert all[..|rows| + n] == labels + seq(n, _ => v);
      assert more == more[..n] + [more[n]];
    }
  }

  /**
    `labels` says for each accepted packet but those the receiver still holds, which are the last ones,
      which lane it was
    handed to; and every lane has its packets in the order in which they were accepted.
   */
  ghost predicate Ordered(s: State, labels: seq<nat>) {
    && |s.lanes| == LANES && |labels| <= |s.accepted| && s.accepted[|labels|..] == ReceiverSeq(s)
    && (forall i :: 0 <= i < |labels| ==> labels[i] < LANES)
    && forall w :: 0 <= w < LANES ==>
         Picked(s.accepted[..|labels|], labels, w) == LaneSeq(s.lanes[w], s.groups)
  }

  lemma InitOrdered(room: nat)
    ensures Ordered(Init(room), [])
  {
    var s := Init(room);
    assert Pending(EMPTY_LANE) == [];
    assert LaneSeq(EMPTY_LANE, s.groups) == [];
    assert s.accepted[..0] == [] && s.accepted[0..] == [];
  }

  lemma LaneStepOrdered(s: State, a: Action, labels: seq<nat>)
    requires Enabled(s, a) && LaneStep(a) && Ordered(s, labels)
    ensures Ordered(Apply(s, a), labels)
  {
    hide Enabled, Apply, LaneSeq, LaneStep, RowSeq, Picked;
    LaneStepFrame(s, a);
    LaneStepOrder(s, a);
  }

  lemma FlagOrdered(s: State, a: Action, labels: seq<nat>)
    requires Enabled(s, a) && Ordered(s, labels)
    requires a.ReceiveNothing? || a.ReceiverTimer? || a.Check? || (a.TryRing? && Apply(s, a).hold == s.hold)
    ensures Ordered(Apply(s, a), labels)
  {
    hide LaneSeq, RowSeq, Picked;
  }

  lemma TakeOrdered(s: State, labels: seq<nat>)
    requires Enabled(s, TakeGroup) && Ordered(s, labels) && OneOwner(s)
    ensures Ordered(Apply(s, TakeGroup), labels)
  {
    hide LaneSeq, Picked, OneOwner;
    var g := s.pool[0];
    forall w | 0 <= w < LANES ensures LaneSeq(s.lanes[w], Apply(s, TakeGroup).groups) == LaneSeq(s.lanes[w], s.groups) {
      LanesFrame(s, g, Group([], LLONG_MAX, LLONG_MIN), w);
    }
  }

  lemma ReceiveOrdered(s: State, p: Packet, labels: seq<nat>)
    requires Enabled(s, Receive(p)) && Ordered(s, labels) && OneOwner(s)
    ensures Ordered(Apply(s, Receive(p)), labels)
  {
    hide LaneSeq, Picked, OneOwner;
    var g, t := s.hold.value, Apply(s, Receive(p));
    forall w | 0 <= w < LANES ensures LaneSeq(s.lanes[w], t.groups) == LaneSeq(s.lanes[w], s.groups) {
      LanesFrame(s, g, t.groups[g], w);
    }
    assert t.accepted[|labels|..] == s.accepted[|labels|..] + [p];
    assert t.accepted[..|labels|] == s.accepted[..|labels|];
  }

  lemma HandOverSeq(l: Lane, g: nat, groups: seq<Group>)
    ensures LaneSeq(l.(work := l.work + [g]), groups) == LaneSeq(l, groups) + RowSeq(g, groups)
  {
    var l' := l.(work := l.work + [g]);
    HandOverParts(l, g, groups);
    hide *;
    LaneSeqIs(l, groups);
    LaneSeqIs(l', groups);
    var e := StoredSeq(l.stored) + QueueSeq(Pending(l)) + FileSeq(l.file);
    assert e + (GroupSeq(l, groups) + RowSeq(g, groups)) == e + GroupSeq(l, groups) + RowSeq(g, groups);
  }

  lemma HandOverParts(l: Lane, g: nat, groups: seq<Group>)
    ensures var l' := l.(work := l.work + [g]);
      Pending(l') == Pending(l) && GroupSeq(l', groups) == GroupSeq(l, groups) + RowSeq(g, groups)
  {
    hide WorkSeq, RowSeq, HeldSeq;
    WorkSeqSnoc(l.work, g, groups);
    var h, k, r := HeldSeq(l.pc, groups), WorkSeq(l.work, groups), RowSeq(g, groups);
    assert h + (k + r) == h + k + r;
  }

  /** The lane that gets a group has its rows last, the others are as before. */
  lemma HandedLane(s: State, w: nat, v: nat, g: nat, lanes: seq<Lane>)
    requires |s.lanes| == LANES && w < LANES && v < LANES
    requires lanes == s.lanes[w := s.lanes[w].(work := s.lanes[w].work + [g])]
    ensures LaneSeq(lanes[v], s.groups) == LaneSeq(s.lanes[v], s.groups) + if v == w then RowSeq(g, s.groups) else []
  {
    hide LaneSeq, RowSeq;
    HandOverSeq(s.lanes[w], g, s.groups);
    assert LaneSeq(s.lanes[v], s.groups) + [] == LaneSeq(s.lanes[v], s.groups);
  }

  lemma HandOrdered(s: State, labels: seq<nat>) returns (labels': seq<nat>)
    requires Enabled(s, TryRing) && Ordered(s, labels) && |s.lanes[s.turn % LANES].work| < WORK_RING_CACHE_COUNT
    ensures Ordered(Apply(s, TryRing), labels')
  {
    var w: nat, g, t := s.turn % LANES, s.hold.value, Apply(s, TryRing);
    EnqueueFrame(s);
    hide LaneSeq, Picked, RowSeq, Enabled, Apply;
    var rows, before := RowSeq(g, s.groups), s.accepted[..|labels|];
    labels' := labels + seq(|rows|, _ => w);
    assert before + rows == s.accepted;
    forall v | 0 <= v < LANES
      ensures Picked(s.accepted, labels', v) == LaneSeq(t.lanes[v], t.groups)
    {
      PickedMore(before, labels, v, rows, w);
      HandedLane(s, w, v, g, t.lanes);
    }
    NothingHeld(t, labels');
  }

  lemma NothingHeld(s: State, labels: seq<nat>)
    requires s.hold.None? && |labels| == |s.accepted|
    ensures s.accepted[..|labels|] == s.accepted && s.accepted[|labels|..] == ReceiverSeq(s)
  {}

  lemma TryOrdered(s: State, labels: seq<nat>) returns (labels': seq<nat>)
    requires Enabled(s, TryRing) && Ordered(s, labels)
    ensures Ordered(Apply(s, TryRing), labels')
  {
    if |s.lanes[s.turn % LANES].work| < WORK_RING_CACHE_COUNT {
      labels' := HandOrdered(s, labels);
    } else {
      labels' := labels;
      FlagOrdered(s, TryRing, labels);
    }
  }

  lemma EachHasOwner(s: State)
    requires Inv(s)
    ensures |s.lanes| == LANES && OneOwner(s)
  {
    hide LaneOk, OneOwner, NoRowLost, ReceiverOk;
  }

  lemma ReceiverStepOrdered(s: State, a: Action, labels: seq<nat>) returns (labels': seq<nat>)
    requires Enabled(s, a) && !LaneStep(a) && Ordered(s, labels) && OneOwner(s)
    ensures Ordered(Apply(s, a), labels')
  {
    hide Ordered, OneOwner, Enabled, Apply;
    labels' := labels;
    if a.TakeGroup? {
      TakeOrdered(s, labels);
    } else if a.Receive? {
      ReceiveOrdered(s, a.packet, labels);
    } else if a.TryRing? {
      labels' := TryOrdered(s, labels);
    } else {
      FlagOrdered(s, a, labels);
    }
  }

  lemma StepOrdered(s: State, a: Action, labels: seq<nat>) returns (labels': seq<nat>)
    requires Inv(s) && Enabled(s, a) && Ordered(s, labels)
    ensures Ordered(Apply(s, a), labels')
  {
    hide *;
    EachHasOwner(s);
    if LaneStep(a) {
      labels' := labels;
      LaneStepOrdered(s, a, labels);
    } else {
      labels' := ReceiverStepOrdered(s, a, labels);
    }
  }

  lemma {:induction false} RunOrdered(s: State, actions: seq<Action>, labels: seq<nat>) returns (labels': seq<nat>)
    requires Inv(s) && Ordered(s, labels) && Run(s, actions).Some?
    ensures Ordered(Run(s, actions).value, labels')
    decreases |actions|
  {
    hide Inv, Ordered, Apply, Enabled;
    if actions == [] {
      labels' := labels;
    } else {
      var next := StepOrdered(s, actions[0], labels);
      ActionKeepsInv(s, actions[0]);
      labels' := RunOrdered(Apply(s, actions[0]), actions[1..], next);
    }
  }

  /** In every reachable state the packets of each lane are some of those accepted, in the order of their arrival. */
  lemma OrderIsKept(s: State) returns (labels: seq<nat>)
    requires Reachable(s)
    ensures Ordered(s, labels)
  {
    hide Inv, Init, Run, Ordered;
    var room: nat, actions: seq<Action> :| room <= MAX_PACKET_GROUP_SIZE && Run(Init(room), actions) == Some(s);
    InitInv(room);
    InitOrdered(room);
    labels := RunOrdered(Init(room), actions, []);
  }
}
