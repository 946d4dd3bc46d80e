/** Every action of the pipeline keeps the invariant. */
module PipelineSteps {
  import opened Common
  import opened Pipeline
  import opened PipelineInv
  import opened PipelineFrame

  // ---------------------------------------------------------------- queues of chunks

  lemma AddAssoc<T>(a: multiset<T>, b: multiset<T>, c: multiset<T>)
    ensures a + (b + c) == a + b + c
  {}

  lemma {:induction false} FinalsSnoc(q: seq<Chunk>, c: Chunk)
    ensures Finals(q + [c]) == Finals(q) + (if c.last then multiset{c.bucket} else multiset{})
    ensures FinalRows(q + [c]) == FinalRows(q) + (if c.last then BlockRows(c.blocks) else multiset{})
  {
    hide BlockRows;
    if q == [] {
      assert q + [c] == [c] && [c][1..] == [];
    } else {
      FinalsSnoc(q[1..], c);
      assert (q + [c])[1..] == q[1..] + [c] && (q + [c])[0] == q[0];
      var a := if q[0].last then multiset{q[0].bucket} else multiset{};
      var r := if q[0].last then BlockRows(q[0].blocks) else multiset{};
      AddAssoc(a, Finals(q[1..]), if c.last then multiset{c.bucket} else multiset{});
      AddAssoc(r, FinalRows(q[1..]), if c.last then BlockRows(c.blocks) else multiset{});
    }
  }

  /** Only the bucket and the flushed size of the open file matter to the chunks before it. */
  lemma {:induction false} TiledFile(q: seq<Chunk>, pos: nat, cur: nat, file: Option<OpenFile>,
                                     file': Option<OpenFile>, mem: seq<seq<octet>>)
    requires Tiled(q, pos, cur, file, mem)
    requires file'.Some?
    requires if file.Some? then file'.value.bucket == file.value.bucket && file'.value.flushed == file.value.flushed
             else file'.value.flushed == 0
    ensures Tiled(q, pos, cur, file', mem)
    decreases |q|
  {
    if q != [] {
      if q[0].last {
        TiledFile(q[1..], 0, 0, file, file', mem);
      } else {
        TiledFile(q[1..], PARQUET_FILE_CHUNK_SIZE, q[0].bucket, file, file', mem);
      }
    }
  }

  /** Closing the file: its last chunk joins the queue. */
  lemma {:induction false} TiledClose(q: seq<Chunk>, pos: nat, cur: nat, f: OpenFile, mem: seq<seq<octet>>, c: Chunk)
    requires Tiled(q, pos, cur, Some(f), mem)
    requires c.last && c.bucket == f.bucket && c.offset == f.flushed && LastOk(c, mem)
    ensures Tiled(q + [c], pos, cur, None, mem)
    decreases |q|
  {
    if q == [] {
      assert q + [c] == [c] && [c][1..] == [];
    } else {
      assert (q + [c])[1..] == q[1..] + [c];
      if q[0].last {
        TiledClose(q[1..], 0, 0, f, mem, c);
      } else {
        TiledClose(q[1..], PARQUET_FILE_CHUNK_SIZE, q[0].bucket, f, mem, c);
      }
    }
  }

  /** Handing over the first half of the file. */
  lemma {:induction false} TiledPartial(q: seq<Chunk>, pos: nat, cur: nat, f: OpenFile, mem: seq<seq<octet>>, c: Chunk)
    requires Tiled(q, pos, cur, Some(f), mem)
    requires !c.last && c.bucket == f.bucket && c.offset == f.flushed == 0 && c.length == PARQUET_FILE_CHUNK_SIZE
      && Timed(c)
    ensures Tiled(q + [c], pos, cur, Some(f.(flushed := PARQUET_FILE_CHUNK_SIZE)), mem)
    decreases |q|
  {
    if q == [] {
      assert q + [c] == [c] && [c][1..] == [];
    } else {
      assert (q + [c])[1..] == q[1..] + [c];
      if q[0].last {
        TiledPartial(q[1..], 0, 0, f, mem, c);
      } else {
        TiledPartial(q[1..], PARQUET_FILE_CHUNK_SIZE, q[0].bucket, f, mem, c);
      }
    }
  }

  lemma BlocksSnoc(blocks: seq<Block>, b: Block)
    ensures Bytes(blocks + [b]) == Bytes(blocks) + b.bytes
    ensures BlockRows(blocks + [b]) == BlockRows(blocks) + multiset(b.rows)
  {
    assert (blocks + [b])[..|blocks|] == blocks;
  }

  lemma StoredSnoc(stored: seq<Stored>, r: Stored)
    ensures StoredRows(stored + [r]) == StoredRows(stored) + BlockRows(r.blocks)
  {
    assert (stored + [r])[..|stored|] == stored;
  }

  // ---------------------------------------------------------------- steps inside one lane

  /** A lane that stays in order and neither gains nor loses a group, a bucket or a row. */
  ghost predicate SameHoldings(l: Lane, l': Lane, groups: seq<Group>) {
    && LaneGroups(l') == LaneGroups(l) && LaneBuckets(l') == LaneBuckets(l)
    && LaneRows(l', groups) == LaneRows(l, groups) && |l'.work| <= |l.work|
  }

  lemma KeepLaneStep(s: State, w: nat, l: Lane)
    requires Inv(s) && w < LANES
    requires LaneOk(l, s.groups, s.mem, s.room) && SameHoldings(s.lanes[w], l, s.groups)
    ensures Inv(WithLane(s, w, l))
  {
    hide LaneOk, OneOwner, NoRowLost, ReceiverOk, LaneGroups, LaneBuckets, LaneRows;
    assert s.mem[0 := s.mem[0]] == s.mem;
    KeepInv(s, WithLane(s, w, l), w, 0);
  }

  lemma LaneIsOk(s: State, w: nat)
    requires Inv(s) && w < LANES
    ensures LaneOk(s.lanes[w], s.groups, s.mem, s.room) && |s.lanes| == LANES
  {
    hide LaneOk, OneOwner, NoRowLost, ReceiverOk;
  }

  lemma ReadWorkHoldings(l: Lane, groups: seq<Group>)
    requires l.pc.Idle? && l.work != []
    ensures var l' := l.(work := l.work[1..], pc := Got(l.work[0]));
      LaneGroups(l') == LaneGroups(l) && GroupRows(l', groups) == GroupRows(l, groups)
  {
    assert l.work == [l.work[0]] + l.work[1..];
    assert HeldRows(Got(l.work[0]), groups) == RowsOf(l.work[0], groups);
  }

  lemma ReadWorkLane(l: Lane, groups: seq<Group>, mem: seq<seq<octet>>, room: nat)
    requires LaneOk(l, groups, mem, room) && l.pc.Idle? && l.work != []
    ensures var l' := l.(work := l.work[1..], pc := Got(l.work[0]));
      LaneOk(l', groups, mem, room) && SameHoldings(l, l', groups)
  {
    hide Tiled, StoredOk, LaneGroups, GroupRows, EncodedRows, BlockRows, Bytes, GroupOk;
    var l' := l.(work := l.work[1..], pc := Got(l.work[0]));
    ReadWorkHoldings(l, groups);
    assert Pending(l') == Pending(l);
    assert EncodedRows(l') == EncodedRows(l) by {
      EncodedRowsOnly(l, l');
    }
  }

  lemma EncodedRowsOnly(l: Lane, l': Lane)
    requires Pending(l') == Pending(l) && l'.stored == l.stored && FileRows(l'.file) == FileRows(l.file)
    ensures EncodedRows(l') == EncodedRows(l)
  {}

  lemma KeepReadWork(s: State, w: nat)
    requires Inv(s) && Enabled(s, ReadWork(w))
    ensures Inv(Apply(s, ReadWork(w)))
  {
    hide LaneOk, Inv, SameHoldings;
    LaneIsOk(s, w);
    var l := s.lanes[w];
    ReadWorkLane(l, s.groups, s.mem, s.room);
    KeepLaneStep(s, w, l.(work := l.work[1..], pc := Got(l.work[0])));
  }

  lemma FlagLane(l: Lane, groups: seq<Group>, mem: seq<seq<octet>>, room: nat)
    requires LaneOk(l, groups, mem, room)
    ensures LaneOk(l.(flush := true), groups, mem, room) && SameHoldings(l, l.(flush := true), groups)
    ensures l.pc.Idle? && l.file.Some? && l.flush && room <= MAX_PACKET_GROUP_SIZE ==>
      LaneOk(l.(pc := Deciding), groups, mem, room) && SameHoldings(l, l.(pc := Deciding), groups)
  {
    hide *;
    LaneParts(l, groups, mem, room);
    var flagged, deciding := l.(flush := true), l.(pc := Deciding);
    FileStays(l, flagged, mem);
    FileStays(l, deciding, mem);
    FlagHoldings(l, groups, mem, room);
    WorkStays(l, flagged, groups);
    LaneMade(flagged, groups, mem, room);
    if l.pc.Idle? && l.file.Some? && l.flush && room <= MAX_PACKET_GROUP_SIZE {
      WorkStays(l, deciding, groups);
      LaneMade(deciding, groups, mem, room);
    }
  }

  lemma FlagHoldings(l: Lane, groups: seq<Group>, mem: seq<seq<octet>>, room: nat)
    requires FileOk(l, groups, mem, room)
    ensures var t := l.(flush := true);
      SameHoldings(l, t, groups) && LaneGroups(t) == LaneGroups(l) && FileOk(t, groups, mem, room)
    ensures l.pc.Idle? && l.file.Some? && l.flush && room <= MAX_PACKET_GROUP_SIZE ==>
      var d := l.(pc := Deciding);
      SameHoldings(l, d, groups) && LaneGroups(d) == LaneGroups(l) && FileOk(d, groups, mem, room)
  {
    hide Finals, FinalRows, StoredRows, BlockRows, WorkRows, Bytes, BlocksInTimes;
    assert Pending(l.(flush := true)) == Pending(l) == Pending(l.(pc := Deciding));
  }

  lemma KeepFlushIdle(s: State, w: nat)
    requires Inv(s) && Enabled(s, FlushIdle(w))
    ensures Inv(Apply(s, FlushIdle(w)))
  {
    hide LaneOk, SameHoldings, LanesOk, OneOwner, NoRowLost, ReceiverOk;
    LaneIsOk(s, w);
    FlagLane(s.lanes[w], s.groups, s.mem, s.room);
    KeepLaneStep(s, w, s.lanes[w].(pc := Deciding));
  }

  lemma KeepWriterTimer(s: State, w: nat)
    requires Inv(s) && Enabled(s, WriterTimer(w))
    ensures Inv(Apply(s, WriterTimer(w)))
  {
    hide LaneOk, SameHoldings, Inv;
    LaneIsOk(s, w);
    FlagLane(s.lanes[w], s.groups, s.mem, s.room);
    KeepLaneStep(s, w, s.lanes[w].(flush := true));
  }

  lemma ReadChunkLane(l: Lane, groups: seq<Group>, mem: seq<seq<octet>>, room: nat)
    requires LaneOk(l, groups, mem, room) && l.saver.Waiting? && l.chunks != []
    ensures var l' := l.(saver := Holding(l.chunks[0]), chunks := l.chunks[1..]);
      LaneOk(l', groups, mem, room) && SameHoldings(l, l', groups)
  {
    hide Tiled, StoredOk, Finals, FinalRows, StoredRows, BlockRows, Bytes, WorkRows;
    var l' := l.(saver := Holding(l.chunks[0]), chunks := l.chunks[1..]);
    assert Pending(l') == Pending(l);
  }

  lemma KeepReadChunk(s: State, w: nat)
    requires Inv(s) && Enabled(s, ReadChunk(w))
    ensures Inv(Apply(s, ReadChunk(w)))
  {
    hide LaneOk, SameHoldings, Inv;
    LaneIsOk(s, w);
    var l := s.lanes[w];
    ReadChunkLane(l, s.groups, s.mem, s.room);
    KeepLaneStep(s, w, l.(saver := Holding(l.chunks[0]), chunks := l.chunks[1..]));
  }

  lemma JoinLane(l: Lane, groups: seq<Group>, mem: seq<seq<octet>>, room: nat)
    requires LaneOk(l, groups, mem, room) && l.pc.Got? && l.file.Some? && l.pc.group < |groups|
    ensures var g, f := groups[l.pc.group], l.file.value;
      var l' := l.(file := Some(f.(start := Min(g.start, f.start), end := Max(g.end, f.end))), pc := Ready(l.pc.group));
      LaneOk(l', groups, mem, room) && SameHoldings(l, l', groups)
  {
    hide *;
    var g, f := groups[l.pc.group], l.file.value;
    var l' := l.(file := Some(f.(start := Min(g.start, f.start), end := Max(g.end, f.end))), pc := Ready(l.pc.group));
    LaneParts(l, groups, mem, room);
    JoinHoldings(l, groups, l'.file.value);
    JoinFile(l, groups, mem, room);
    TiledFile(Pending(l), Pos(l.pieces), Cur(l.pieces), l.file, l'.file, mem);
    WorkStays(l, l', groups);
    LaneMade(l', groups, mem, room);
  }

  lemma JoinHoldings(l: Lane, groups: seq<Group>, f: OpenFile)
    requires l.pc.Got? && l.file.Some? && f.bucket == l.file.value.bucket && f.blocks == l.file.value.blocks
    ensures var l' := l.(file := Some(f), pc := Ready(l.pc.group));
      SameHoldings(l, l', groups) && Pending(l') == Pending(l) && LaneGroups(l') == LaneGroups(l)
    ensures forall mem :: OutOk(l, mem) ==> OutOk(l.(file := Some(f), pc := Ready(l.pc.group)), mem)
  {
    hide Finals, FinalRows, StoredRows, BlockRows, WorkRows;
    assert Pending(l.(file := Some(f), pc := Ready(l.pc.group))) == Pending(l);
  }

  lemma JoinFile(l: Lane, groups: seq<Group>, mem: seq<seq<octet>>, room: nat)
    requires FileOk(l, groups, mem, room) && WorkOk(l, groups) && l.pc.Got? && l.file.Some? && l.pc.group < |groups|
    ensures var g, f := groups[l.pc.group], l.file.value;
      FileOk(l.(file := Some(f.(start := Min(g.start, f.start), end := Max(g.end, f.end))), pc := Ready(l.pc.group)),
             groups, mem, room)
  {
    hide Bytes;
    assert l.pc.group in LaneGroups(l);
  }

  lemma KeepJoinSink(s: State, w: nat)
    requires Inv(s) && Enabled(s, JoinSink(w))
    ensures Inv(Apply(s, JoinSink(w)))
  {
    hide LaneOk, SameHoldings, Inv;
    LaneIsOk(s, w);
    JoinLane(s.lanes[w], s.groups, s.mem, s.room);
    KeepLaneStep(s, w, Apply(s, JoinSink(w)).lanes[w]);
  }
}
