/** The intervals in the names of files are exact: their bounds are seconds of packets in the file. */
module PipelineTimes {
  import opened Common
  import opened Pipeline
  import opened PipelineInv
  import opened PipelineSteps
  import opened PipelineReceiver
  import opened PipelineSafety
  import opened PipelineOrder

  /** A packet of that second is among the rows. */
  predicate Hits(rows: seq<Packet>, t: int) { exists i :: 0 <= i < |rows| && rows[i].Second() == t }

  predicate Spans(rows: seq<Packet>, t: Times) { Hits(rows, t.start) && Hits(rows, t.end) }

  lemma SpansMore(a: seq<Packet>, b: seq<Packet>, t: Times)
    requires Spans(a, t)
    ensures Spans(a + b, t) && Spans(b + a, t)
  {
    var i :| 0 <= i < |a| && a[i].Second() == t.start;
    var j :| 0 <= j < |a| && a[j].Second() == t.end;
    assert (a + b)[i] == a[i] && (a + b)[j] == a[j];
    assert (b + a)[|b| + i] == a[i] && (b + a)[|b| + j] == a[j];
  }

  /** The least interval with both. */
  function Joined(t: Times, u: Times): Times { Times(Min(t.start, u.start), Max(t.end, u.end)) }

  lemma SpansBoth(a: seq<Packet>, t: Times, b: seq<Packet>, u: Times)
    requires Spans(a, t) && Spans(b, u)
    ensures Spans(a + b, Joined(t, u))
  {
    SpansMore(a, b, t);
    SpansMore(b, a, u);
  }

  function GroupTimes(g: Group): Times { Times(g.start, g.end) }

  predicate GroupTight(g: Group) { g.rows != [] ==> Spans(g.rows, GroupTimes(g)) }

  // ---------------------------------------------------------------- the invariant

  /** The rows the open file is about to get. */
  function Coming(pc: WriterPc, groups: seq<Group>): seq<Packet> { if pc.Ready? then RowSeq(pc.group, groups) else [] }

  predicate FileTight(l: Lane, groups: seq<Group>) {
    l.file.Some? ==> Spans(FileSeq(l.file) + Coming(l.pc, groups), Times(l.file.value.start, l.file.value.end))
  }

  /** The rows of the file that the first of these chunks belongs to. */
  function SeqFrom(q: seq<Chunk>, file: Option<OpenFile>): seq<Packet> {
    if q == [] then FileSeq(file) else if q[0].last then BlockSeq(q[0].blocks) else SeqFrom(q[1..], file)
  }

  predicate QueueTight(q: seq<Chunk>, file: Option<OpenFile>) {
    q != [] ==> Spans(SeqFrom(q, file), TimesOf(q[0])) && QueueTight(q[1..], file)
  }

  predicate StoredTight(r: Stored) {
    Spans(BlockSeq(r.blocks), Times(r.start, r.end)) && (r.under.Some? ==> Spans(BlockSeq(r.blocks), r.under.value))
  }

  ghost predicate LaneTight(l: Lane, groups: seq<Group>) {
    && (forall g :: g in LaneGroups(l) ==> g < |groups| && groups[g].rows != [] && GroupTight(groups[g]))
    && FileTight(l, groups) && QueueTight(Pending(l), l.file)
    && (l.under.Some? ==> Spans(SeqFrom(Pending(l), l.file), l.under.value))
    && forall r :: r in l.stored ==> StoredTight(r)
  }

  ghost predicate Tight(s: State) {
    && |s.lanes| == LANES
    && (s.hold.Some? && s.hold.value < |s.groups| ==> GroupTight(s.groups[s.hold.value]))
    && forall w :: 0 <= w < LANES ==> LaneTight(s.lanes[w], s.groups)
  }

  lemma EmptyTight(groups: seq<Group>)
    ensures LaneTight(EMPTY_LANE, groups)
  {
    assert Pending(EMPTY_LANE) == [];
  }

  lemma InitTight(room: nat)
    ensures Tight(Init(room))
  {
    EmptyTight(Init(room).groups);
    hide LaneTight;
  }

  // ---------------------------------------------------------------- queues

  lemma {:induction false} SeqFromGrows(q: seq<Chunk>, file: Option<OpenFile>, file': Option<OpenFile>, t: Times)
    requires FileSeq(file) <= FileSeq(file') && Spans(SeqFrom(q, file), t)
    ensures Spans(SeqFrom(q, file'), t)
    decreases |q|
  {
    hide Spans, FileSeq, BlockSeq;
    if q == [] {
      var a, b := FileSeq(file), FileSeq(file');
      SpansMore(a, b[|a|..], t);
      assert a + b[|a|..] == b;
    } else if !q[0].last {
      SeqFromGrows(q[1..], file, file', t);
    }
  }

  lemma {:induction false} QueueGrows(q: seq<Chunk>, file: Option<OpenFile>, file': Option<OpenFile>)
    requires FileSeq(file) <= FileSeq(file') && QueueTight(q, file)
    ensures QueueTight(q, file')
    decreases |q|
  {
    if q != [] {
      hide Spans, FileSeq, SeqFrom;
      SeqFromGrows(q, file, file', TimesOf(q[0]));
      QueueGrows(q[1..], file, file');
    }
  }

  /** Handing over a chunk of the open file, which `c` closes if it is the last one. */
  lemma {:induction false} SeqFromSnoc(q: seq<Chunk>, file: Option<OpenFile>, c: Chunk, file': Option<OpenFile>)
    requires SeqFrom([c], file') == FileSeq(file)
    ensures SeqFrom(q + [c], file') == SeqFrom(q, file)
    decreases |q|
  {
    hide FileSeq, BlockSeq;
    if q == [] {
      assert q + [c] == [c];
    } else {
      assert (q + [c])[1..] == q[1..] + [c];
      if !q[0].last {
        SeqFromSnoc(q[1..], file, c, file');
      }
    }
  }

  lemma {:induction false} QueueSnoc(q: seq<Chunk>, file: Option<OpenFile>, c: Chunk, file': Option<OpenFile>)
    requires SeqFrom([c], file') == FileSeq(file) && QueueTight(q, file) && Spans(FileSeq(file), TimesOf(c))
    ensures QueueTight(q + [c], file')
    decreases |q|
  {
    SeqFromSnoc(q, file, c, file');
    hide Spans, FileSeq, SeqFrom;
    if q == [] {
      assert q + [c] == [c] && [c][1..] == [];
    } else {
      assert (q + [c])[1..] == q[1..] + [c];
      QueueSnoc(q[1..], file, c, file');
    }
  }

  // ---------------------------------------------------------------- the lanes' steps

  /** Where only the queue and the file are to be looked at. */
  lemma SameQueue(l: Lane, l': Lane)
    requires Pending(l') == Pending(l) && FileSeq(l.file) <= FileSeq(l'.file) && QueueTight(Pending(l), l.file)
    requires l'.under == l.under && (l.under.Some? ==> Spans(SeqFrom(Pending(l), l.file), l.under.value))
    ensures QueueTight(Pending(l'), l'.file) && (l'.under.Some? ==>
                                                 Spans(SeqFrom(Pending(l'), l'.file), l'.under.value))
  {
    hide Pending, FileSeq, SeqFrom, QueueTight, Spans;
    QueueGrows(Pending(l), l.file, l'.file);
    if l.under.Some? {
      SeqFromGrows(Pending(l), l.file, l'.file, l.under.value);
    }
  }

  /** A step that leaves the queue and only adds to the file. */
  lemma StaysTight(l: Lane, t: Lane, groups: seq<Group>)
    requires LaneTight(l, groups) && FileTight(t, groups) && forall g :: g in LaneGroups(t) ==> g in LaneGroups(l)
    requires Pending(t) == Pending(l) && FileSeq(l.file) <= FileSeq(t.file) && t.under == l.under
      && t.stored == l.stored
    ensures LaneTight(t, groups)
  {
    hide Spans, BlockSeq, FileSeq, FileTight, QueueTight, SeqFrom, StoredTight, Pending, LaneGroups;
    SameQueue(l, t);
  }

  lemma ReadLeaves(s: State, a: Action)
    requires Enabled(s, a) && a.ReadWork?
    ensures a.w < |s.lanes| == |Apply(s, a).lanes| == LANES
    ensures var l := s.lanes[a.w];
      && l.pc.Idle? && l.work != [] && Apply(s, a).lanes[a.w] == l.(work := l.work[1..], pc := Got(l.work[0]))
  {}

  lemma ReadLane(l: Lane, groups: seq<Group>)
    requires l.pc.Idle? && l.work != [] && LaneTight(l, groups)
    ensures LaneTight(l.(work := l.work[1..], pc := Got(l.work[0])), groups)
  {
    var t := l.(work := l.work[1..], pc := Got(l.work[0]));
    assert Pending(t) == Pending(l) && Coming(t.pc, groups) == [] == Coming(l.pc, groups);
    hide LaneTight, Spans, FileSeq, LaneGroups, Pending, Coming;
    ReadWorkHoldings(l, groups);
    SameFile(l, t, groups);
    StaysTight(l, t, groups);
  }

  lemma SameFile(l: Lane, t: Lane, groups: seq<Group>)
    requires LaneTight(l, groups) && t.file == l.file && Coming(t.pc, groups) == Coming(l.pc, groups)
    ensures FileTight(t, groups) && FileSeq(l.file) <= FileSeq(t.file)
  {
    hide Spans, FileSeq, Coming, QueueTight, SeqFrom, Pending, LaneGroups, StoredTight, GroupTight;
  }

  lemma ReadKeepsTight(s: State, a: Action)
    requires Enabled(s, a) && a.ReadWork? && LaneTight(s.lanes[a.w], s.groups)
    ensures |Apply(s, a).lanes| == LANES && LaneTight(Apply(s, a).lanes[a.w], s.groups)
  {
    hide *;
    ReadLeaves(s, a);
    ReadLane(s.lanes[a.w], s.groups);
  }

  /** Steps that leave the file as it is. */
  lemma WaitLeaves(s: State, a: Action)
    requires Enabled(s, a) && (a.FlushIdle? || a.PutBack? || a.WriterTimer?)
    ensures a.w < |s.lanes| == |Apply(s, a).lanes| == LANES
    ensures var l, t := s.lanes[a.w], Apply(s, a).lanes[a.w];
      t == l.(pc := t.pc, flush := t.flush) && (t.pc == l.pc || (t.pc.Deciding? && !l.pc.Ready?))
  {}

  lemma WaitingLane(l: Lane, t: Lane, groups: seq<Group>)
    requires t == l.(pc := t.pc, flush := t.flush) && (t.pc == l.pc || (t.pc.Deciding? && !l.pc.Ready?))
    requires LaneTight(l, groups)
    ensures LaneTight(t, groups)
  {
    assert Pending(t) == Pending(l) && Coming(t.pc, groups) == Coming(l.pc, groups);
    assert forall g :: g in LaneGroups(t) ==> g in LaneGroups(l);
    hide LaneTight, Spans, FileSeq, LaneGroups, Pending, Coming;
    SameFile(l, t, groups);
    StaysTight(l, t, groups);
  }

  lemma WaitKeepsTight(s: State, a: Action)
    requires Enabled(s, a) && (a.FlushIdle? || a.PutBack? || a.WriterTimer?)
    requires LaneTight(s.lanes[a.w], s.groups)
    ensures |Apply(s, a).lanes| == LANES && LaneTight(Apply(s, a).lanes[a.w], s.groups)
  {
    hide *;
    WaitLeaves(s, a);
    WaitingLane(s.lanes[a.w], Apply(s, a).lanes[a.w], s.groups);
  }

  /** Steps that take the group a parquet writer holds into its file. */
  lemma WriteLeaves(s: State, a: Action)
    requires Enabled(s, a) && (a.OpenSink? || a.JoinSink? || a.Append?)
    ensures |Apply(s, a).lanes| == LANES
    ensures var l, t := s.lanes[a.w], Apply(s, a).lanes[a.w];
      && Pending(t) == Pending(l) && t.under == l.under && t.stored == l.stored
      && (forall g :: g in LaneGroups(t) ==> g in LaneGroups(l)) && l.pc.group in LaneGroups(l)
  {}

  lemma OpenLeaves(s: State, a: Action)
    requires Enabled(s, a) && a.OpenSink?
    ensures a.w < |s.lanes| == |Apply(s, a).lanes| == LANES
    ensures var l, t := s.lanes[a.w], Apply(s, a).lanes[a.w];
      && l.pc.Got? && l.pc.group < |s.groups| && l.file.None? && t.pc == Ready(l.pc.group) && t.file.Some?
      && var g, f := s.groups[l.pc.group], t.file.value; f.blocks == [] && f.start == g.start && f.end == g.end
  {}

  lemma OpenLane(l: Lane, t: Lane, groups: seq<Group>)
    requires l.pc.Got? && l.pc.group < |groups| && l.pc.group in LaneGroups(l) && LaneTight(l, groups)
    requires l.file.None? && t.pc == Ready(l.pc.group) && t.file.Some? && t.file.value.blocks == []
    requires var g, f := groups[l.pc.group], t.file.value; f.start == g.start && f.end == g.end
    requires Pending(t) == Pending(l) && t.under == l.under && t.stored == l.stored
    requires forall g :: g in LaneGroups(t) ==> g in LaneGroups(l)
    ensures LaneTight(t, groups)
  {
    EmptyBlocks();
    var g := groups[l.pc.group];
    assert GroupTight(g) && g.rows != [];
    hide LaneTight, Spans, BlockSeq, LaneGroups, Pending;
    assert [] + g.rows == g.rows;
    StaysTight(l, t, groups);
  }

  lemma OpenKeepsTight(s: State, a: Action)
    requires Enabled(s, a) && a.OpenSink? && LaneTight(s.lanes[a.w], s.groups)
    ensures |Apply(s, a).lanes| == LANES && LaneTight(Apply(s, a).lanes[a.w], s.groups)
  {
    hide *;
    OpenLeaves(s, a);
    WriteLeaves(s, a);
    OpenLane(s.lanes[a.w], Apply(s, a).lanes[a.w], s.groups);
  }

  lemma JoinKeepsTight(s: State, a: Action)
    requires Enabled(s, a) && a.JoinSink? && LaneTight(s.lanes[a.w], s.groups)
    ensures |Apply(s, a).lanes| == LANES && LaneTight(Apply(s, a).lanes[a.w], s.groups)
  {
    WriteLeaves(s, a);
    var l, t := s.lanes[a.w], Apply(s, a).lanes[a.w];
    var f, g := l.file.value, s.groups[l.pc.group];
    assert GroupTight(g) && g.rows != [] && FileTight(l, s.groups);
    assert t.file == Some(f.(start := Min(g.start, f.start), end := Max(g.end, f.end))) && t.pc == Ready(l.pc.group);
    hide LaneTight, Spans, BlockSeq, LaneGroups, Pending, Enabled, Apply;
    assert FileSeq(l.file) + [] == FileSeq(l.file);
    SpansBoth(FileSeq(l.file), Times(f.start, f.end), g.rows, GroupTimes(g));
    StaysTight(l, t, s.groups);
  }

  lemma AppendKeepsTight(s: State, a: Action)
    requires Enabled(s, a) && a.Append? && LaneTight(s.lanes[a.w], s.groups)
    ensures |Apply(s, a).lanes| == LANES && LaneTight(Apply(s, a).lanes[a.w], s.groups)
  {
    WriteLeaves(s, a);
    var l, t := s.lanes[a.w], Apply(s, a).lanes[a.w];
    var f, rows := l.file.value, s.groups[l.pc.group].rows;
    assert FileTight(l, s.groups);
    assert t.file == Some(f.(blocks := f.blocks + [Block(rows, a.bytes)])) && t.pc == Written(l.pc.group)
      && l.pc.Ready?;
    BlockSeqSnoc(f.blocks, Block(rows, a.bytes));
    hide LaneTight, Spans, BlockSeq, LaneGroups, Pending, Enabled, Apply;
    assert FileSeq(t.file) == FileSeq(l.file) + rows == FileSeq(t.file) + [];
    StaysTight(l, t, s.groups);
  }

  /** A lane that has handed a chunk of its file over. */
  lemma HandedTight(l: Lane, c: Chunk, t: Lane, groups: seq<Group>)
    requires LaneTight(l, groups) && FileTight(t, groups) && forall x :: x in LaneGroups(t) ==> x in LaneGroups(l)
    requires Pending(t) == Pending(l) + [c] && t.under == l.under && t.stored == l.stored
    requires SeqFrom([c], t.file) == FileSeq(l.file) && Spans(FileSeq(l.file), TimesOf(c))
    ensures LaneTight(t, groups)
  {
    hide Spans, BlockSeq, FileSeq, FileTight, QueueTight, SeqFrom, StoredTight, Pending, LaneGroups;
    QueueSnoc(Pending(l), l.file, c, t.file);
    SeqFromSnoc(Pending(l), l.file, c, t.file);
  }

  /** Between groups the times of a file are seconds of its own packets. */
  lemma FileSpans(l: Lane, groups: seq<Group>)
    requires LaneTight(l, groups) && l.pc.Deciding? && l.file.Some?
    ensures Spans(FileSeq(l.file), Times(l.file.value.start, l.file.value.end))
  {
    assert FileTight(l, groups);
    hide LaneTight, Spans, FileSeq;
    assert FileSeq(l.file) + [] == FileSeq(l.file);
  }

  lemma CloseKeepsTight(l: Lane, c: Chunk, groups: seq<Group>)
    requires LaneTight(l, groups) && l.pc.Deciding? && l.file.Some?
    requires c.last && c.blocks == l.file.value.blocks && TimesOf(c) == Times(l.file.value.start, l.file.value.end)
    ensures LaneTight(Closed(l, c), groups)
  {
    var t := Closed(l, c);
    assert Pending(t) == Pending(l) + [c];
    FileSpans(l, groups);
    hide LaneTight, Spans, BlockSeq, Pending;
    HandedTight(l, c, t, groups);
  }

  lemma HalfKeepsTight(l: Lane, c: Chunk, t: Lane, groups: seq<Group>)
    requires LaneTight(l, groups) && l.pc.Deciding? && l.file.Some? && t.file.Some?
    requires !c.last && TimesOf(c) == Times(l.file.value.start, l.file.value.end)
    requires t.file == Some(l.file.value.(flushed := t.file.value.flushed))
    requires t == l.(chunks := l.chunks + [c], file := t.file, pc := Idle)
    ensures LaneTight(t, groups)
  {
    assert Pending(t) == Pending(l) + [c];
    FileSpans(l, groups);
    hide LaneTight, Spans, BlockSeq, Pending;
    assert FileSeq(t.file) + [] == FileSeq(t.file) == FileSeq(l.file);
    assert [c][1..] == [] && SeqFrom([c], t.file) == FileSeq(l.file);
    HandedTight(l, c, t, groups);
  }

  lemma RestKeepsTight(l: Lane, groups: seq<Group>)
    requires LaneTight(l, groups) && l.pc.Deciding?
    ensures LaneTight(l.(pc := Idle), groups)
  {
    hide Spans, BlockSeq, QueueTight, SeqFrom, StoredTight;
    assert Pending(l.(pc := Idle)) == Pending(l);
  }

  lemma FlushKeepsTight(s: State, a: Action)
    requires Enabled(s, a) && a.Flush? && LaneTight(s.lanes[a.w], s.groups)
    ensures |Apply(s, a).lanes| == LANES && LaneTight(Apply(s, a).lanes[a.w], s.groups)
  {
    hide LaneTight;
    var l := s.lanes[a.w];
    var f := l.file.value;
    if l.flush {
      CloseKeepsTight(l, LastChunk(f, |s.mem[f.bucket] + a.footer|, a.footer), s.groups);
    } else if |s.mem[f.bucket]| - f.flushed >= PARQUET_FILE_CHUNK_SIZE {
      HalfKeepsTight(l, FirstChunk(f), Apply(s, a).lanes[a.w], s.groups);
    } else {
      RestKeepsTight(l, s.groups);
    }
  }

  /** Steps of the file writer before it finishes with a chunk. */
  lemma SaverLeaves(s: State, a: Action)
    requires Enabled(s, a) && (a.ReadChunk? || a.Save?)
    ensures a.w < |s.lanes| == |Apply(s, a).lanes| == LANES
    ensures var l, t := s.lanes[a.w], Apply(s, a).lanes[a.w];
      && Pending(t) == Pending(l) && t.file == l.file && t.stored == l.stored && t.pc == l.pc && t.work == l.work
      && (t.under == l.under || (Pending(l) != [] && t.under == Some(TimesOf(Pending(l)[0]))))
  {
    var l := s.lanes[a.w];
    assert l.chunks != [] ==> l.chunks == [l.chunks[0]] + l.chunks[1..];
  }

  lemma SaverLane(l: Lane, t: Lane, groups: seq<Group>)
    requires LaneTight(l, groups)
    requires Pending(t) == Pending(l) && t.file == l.file && t.stored == l.stored && t.pc == l.pc && t.work == l.work
    requires t.under == l.under || (Pending(l) != [] && t.under == Some(TimesOf(Pending(l)[0])))
    ensures LaneTight(t, groups)
  {
    hide Spans, BlockSeq, FileSeq, SeqFrom, StoredTight, Pending, RowSeq, GroupTight;
    assert LaneGroups(t) == LaneGroups(l);
    assert FileTight(t, groups);
  }

  lemma SaverKeepsTight(s: State, a: Action)
    requires Enabled(s, a) && (a.ReadChunk? || a.Save?) && LaneTight(s.lanes[a.w], s.groups)
    ensures |Apply(s, a).lanes| == LANES && LaneTight(Apply(s, a).lanes[a.w], s.groups)
  {
    hide *;
    SaverLeaves(s, a);
    SaverLane(s.lanes[a.w], Apply(s, a).lanes[a.w], s.groups);
  }

  /** The queue without its first chunk. */
  lemma QueueRest(q: seq<Chunk>, file: Option<OpenFile>)
    requires q != [] && QueueTight(q, file)
    ensures QueueTight(q[1..], file) && Spans(SeqFrom(q, file), TimesOf(q[0]))
    ensures SeqFrom(q, file) == if q[0].last then BlockSeq(q[0].blocks) else SeqFrom(q[1..], file)
  {
    hide Spans, BlockSeq, FileSeq;
  }

  lemma ReleasedQueueIs(l: Lane)
    requires l.saver.Saved?
    ensures var t := ReleasedLane(l);
      && Pending(l) != [] && Pending(l)[0] == l.saver.chunk && Pending(t) == Pending(l)[1..]
      && t.file == l.file && t.pc == l.pc && t.work == l.work
  {}

  lemma ReleaseKeepsTight(l: Lane, groups: seq<Group>)
    requires l.saver.Saved? && LaneTight(l, groups)
    ensures LaneTight(ReleasedLane(l), groups)
  {
    ReleasedQueueIs(l);
    hide Spans, BlockSeq, QueueTight, SeqFrom, Pending, RowSeq, GroupTight;
    QueueRest(Pending(l), l.file);
    var t := ReleasedLane(l);
    assert LaneGroups(t) == LaneGroups(l) && FileTight(t, groups);
    assert l.saver.chunk.last ==> StoredTight(StoredFile(l, l.saver.chunk));
  }

  lemma LaneKeepsTight(s: State, a: Action)
    requires Enabled(s, a) && LaneStep(a) && LaneOf(s, a.w) && LaneTight(s.lanes[a.w], s.groups)
    ensures |Apply(s, a).lanes| == LANES && LaneTight(Apply(s, a).lanes[a.w], s.groups)
  {
    hide LaneTight;
    if a.Release? {
      ReleaseKeepsTight(s.lanes[a.w], s.groups);
    } else {
      hide Enabled, Apply;
      if a.OpenSink? {
        OpenKeepsTight(s, a);
      } else if a.JoinSink? {
        JoinKeepsTight(s, a);
      } else if a.Append? {
        AppendKeepsTight(s, a);
      } else if a.Flush? {
        FlushKeepsTight(s, a);
      } else if a.ReadChunk? || a.Save? {
        SaverKeepsTight(s, a);
      } else if a.ReadWork? {
        ReadKeepsTight(s, a);
      } else {
        WaitKeepsTight(s, a);
      }
    }
  }

  // ---------------------------------------------------------------- the receiver's steps

  lemma TightFrame(l: Lane, groups: seq<Group>, g: nat, group: Group)
    requires LaneTight(l, groups) && g < |groups| && g !in LaneGroups(l)
    ensures LaneTight(l, groups[g := group])
  {
    assert l.pc.Ready? ==> l.pc.group in LaneGroups(l);
    hide Spans, BlockSeq, QueueTight, SeqFrom, StoredTight, GroupTight, LaneGroups, Pending;
  }

  lemma LanesTightFrame(s: State, g: nat, group: Group)
    requires Tight(s) && OneOwner(s) && g < |s.groups| && (g in s.pool || s.hold == Some(g))
    ensures forall w :: 0 <= w < LANES ==> LaneTight(s.lanes[w], s.groups[g := group])
  {
    hide LaneTight, OneOwner;
    forall w | 0 <= w < LANES ensures LaneTight(s.lanes[w], s.groups[g := group]) {
      GroupsApart(s, w, w, g);
      TightFrame(s.lanes[w], s.groups, g, group);
    }
  }

  lemma RowSpans(g: Group, p: Packet)
    requires GroupTight(g) && (g.rows == [] ==> g.start == LLONG_MAX && g.end == LLONG_MIN)
    ensures GroupTight(Group(g.rows + [p], Min(g.start, p.Second()), Max(g.end, p.Second())))
  {
    var t := Times(p.Second(), p.Second());
    assert [p][0].Second() == p.Second();
    assert Spans([p], t);
    if g.rows == [] {
      assert g.rows + [p] == [p];
    } else {
      hide Spans;
      SpansBoth(g.rows, GroupTimes(g), [p], t);
    }
  }

  lemma HandKeepsTight(l: Lane, g: nat, groups: seq<Group>)
    requires LaneTight(l, groups) && g < |groups| && groups[g].rows != [] && GroupTight(groups[g])
    ensures LaneTight(l.(work := l.work + [g]), groups)
  {
    hide Spans, BlockSeq, QueueTight, SeqFrom, StoredTight;
    var t := l.(work := l.work + [g]);
    assert Pending(t) == Pending(l);
    assert forall x :: x in LaneGroups(t) ==> x == g || x in LaneGroups(l);
  }

  /** A group that is still empty has the bounds it was given when it was taken. */
  ghost predicate Fresh(s: State) {
    s.hold.Some? && s.hold.value < |s.groups| && s.groups[s.hold.value].rows == [] ==>
      s.groups[s.hold.value] == Group([], LLONG_MAX, LLONG_MIN)
  }

  lemma StepFresh(s: State, a: Action)
    requires Fresh(s) && Enabled(s, a)
    ensures Fresh(Apply(s, a))
  {}

  lemma ReceiverKeepsTight(s: State, a: Action)
    requires Tight(s) && Fresh(s) && OneOwner(s) && ReceiverOk(s) && Enabled(s, a) && !LaneStep(a)
    ensures Tight(Apply(s, a))
  {
    hide LaneTight, OneOwner, Spans;
    if a.TakeGroup? {
      LanesTightFrame(s, s.pool[0], Group([], LLONG_MAX, LLONG_MIN));
    } else if a.Receive? {
      var g := s.hold.value;
      RowSpans(s.groups[g], a.packet);
      LanesTightFrame(s, g, Apply(s, a).groups[g]);
    } else if a.TryRing? && |s.lanes[s.turn % LANES].work| < WORK_RING_CACHE_COUNT {
      EnqueueFrame(s);
      HandKeepsTight(s.lanes[s.turn % LANES], s.hold.value, s.groups);
    }
  }

  lemma LaneStepTight(s: State, a: Action)
    requires Tight(s) && Enabled(s, a) && LaneStep(a)
    ensures Tight(Apply(s, a))
  {
    hide LaneTight, Enabled, Apply, GroupTight;
    LaneStepFrame(s, a);
    LaneKeepsTight(s, a);
  }

  lemma StepTight(s: State, a: Action)
    requires Inv(s) && Tight(s) && Fresh(s) && Enabled(s, a)
    ensures Tight(Apply(s, a)) && Fresh(Apply(s, a))
  {
    hide *;
    StepFresh(s, a);
    LanesAndReceiver(s);
    EachHasOwner(s);
    if LaneStep(a) {
      LaneStepTight(s, a);
    } else {
      ReceiverKeepsTight(s, a);
    }
  }

  lemma {:induction false} RunTight(s: State, actions: seq<Action>)
    requires Inv(s) && Tight(s) && Fresh(s) && Run(s, actions).Some?
    ensures Tight(Run(s, actions).value)
    decreases |actions|
  {
    hide Inv, Tight, Fresh, Apply, Enabled;
    if actions != [] {
      StepTight(s, actions[0]);
      ActionKeepsInv(s, actions[0]);
      RunTight(Apply(s, actions[0]), actions[1..]);
    }
  }

  lemma ReachableTight(s: State)
    requires Reachable(s)
    ensures Tight(s)
  {
    hide Inv, Tight, Run;
    var room: nat, actions: seq<Action> :| room <= MAX_PACKET_GROUP_SIZE && Run(Init(room), actions) == Some(s);
    InitInv(room);
    InitTight(room);
    RunTight(Init(room), actions);
  }

  /**
    In every reachable state the interval a finished file is named by runs from the least to the greatest second of its
    packets, and the interval it was opened under has such seconds for its bounds.
   */
  lemma NamesAreExact(s: State, w: nat, i: nat)
    requires Reachable(s) && LaneOf(s, w) && i < |s.lanes[w].stored|
    ensures var r := s.lanes[w].stored[i];
      && Hits(BlockSeq(r.blocks), r.start) && Hits(BlockSeq(r.blocks), r.end)
      && (r.under.Some? ==>
            Hits(BlockSeq(r.blocks), r.under.value.start) && Hits(BlockSeq(r.blocks), r.under.value.end))
      && forall k :: 0 <= k < |BlockSeq(r.blocks)| ==> r.start <= BlockSeq(r.blocks)[k].Second() <= r.end
  {
    var l := s.lanes[w];
    ReachableTight(s);
    FinishedFilesAreWhole(s, w, i);
    hide Reachable, Hits, BlockSeq;
    assert StoredTight(l.stored[i]);
    AllInTimes(l.stored[i].blocks, l.stored[i].start, l.stored[i].end);
  }

  lemma {:induction false} AllInTimes(blocks: seq<Block>, start: int, end: int)
    requires BlocksInTimes(blocks, start, end)
    ensures forall k :: 0 <= k < |BlockSeq(blocks)| ==> start <= BlockSeq(blocks)[k].Second() <= end
  {
    if blocks != [] {
      AllInTimes(blocks[..|blocks| - 1], start, end);
      assert InTimes(blocks[|blocks| - 1].rows, start, end);
    }
  }
}
