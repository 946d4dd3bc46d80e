/** The steps that write memory or move buckets keep the invariant. */
module PipelineWriters {
  import opened Common
  import opened Pipeline
  import opened PipelineInv
  import opened PipelineFrame
  import opened PipelineSteps

  // ---------------------------------------------------------------- opening a file

  lemma OpenHoldings(l: Lane, groups: seq<Group>, f: OpenFile)
    requires l.pc.Got? && l.file.None? && f.blocks == []
    ensures var l' := l.(file := Some(f), pc := Ready(l.pc.group));
      LaneGroups(l') == LaneGroups(l) && LaneBuckets(l') == multiset{f.bucket} + LaneBuckets(l)
        && LaneRows(l', groups) == LaneRows(l, groups)
  {
    hide Finals, FinalRows, StoredRows, WorkRows;
    var l' := l.(file := Some(f), pc := Ready(l.pc.group));
    assert Pending(l') == Pending(l);
  }

  lemma OpenLane(l: Lane, groups: seq<Group>, mem: seq<seq<octet>>, room: nat, b: nat)
    requires LaneOk(l, groups, mem, room) && l.pc.Got? && l.file.None? && l.pc.group < |groups|
    requires b < |mem| && mem[b] == []
    ensures var g := groups[l.pc.group];
      LaneOk(l.(file := Some(OpenFile(b, 0, [], g.start, g.end)), pc := Ready(l.pc.group)), groups, mem, room)
  {
    hide Tiled, StoredOk, Finals, FinalRows, StoredRows, BlockRows, WorkRows;
    var g := groups[l.pc.group];
    var l' := l.(file := Some(OpenFile(b, 0, [], g.start, g.end)), pc := Ready(l.pc.group));
    assert Pending(l') == Pending(l);
    assert l.pc.group in LaneGroups(l);
    TiledFile(Pending(l), Pos(l.pieces), Cur(l.pieces), l.file, l'.file, mem);
  }

  lemma KeepOpenSink(s: State, w: nat)
    requires Inv(s) && Enabled(s, OpenSink(w))
    ensures Inv(Apply(s, OpenSink(w)))
  {
    hide LaneOk, NoRowLost, ReceiverOk, OneOwner, LaneGroups, LaneBuckets, LaneRows;
    LaneIsOk(s, w);
    var l, s', b := s.lanes[w], Apply(s, OpenSink(w)), s.buckets[0];
    var g := s.groups[l.pc.group];
    BucketsApart(s, w, w, b);
    LaneFrame(l, s.groups, s.mem, s.groups, s'.mem, s.room);
    OpenLane(l, s.groups, s'.mem, s.room, b);
    OpenHoldings(l, s.groups, OpenFile(b, 0, [], g.start, g.end));
    assert s.buckets == [b] + s.buckets[1..];
    assert multiset(s.buckets) == multiset{b} + multiset(s'.buckets);
    assert s' == s.(lanes := s.lanes[w := s'.lanes[w]], pool := s'.pool, buckets := s'.buckets,
                    mem := s.mem[b := s'.mem[b]]);
    KeepInv(s, s', w, b);
  }

  // ---------------------------------------------------------------- encoding a group

  lemma AppendHoldings(l: Lane, groups: seq<Group>, bytes: seq<octet>)
    requires l.pc.Ready? && l.file.Some? && l.pc.group < |groups|
    ensures var f := l.file.value;
      var l' := l.(file := Some(f.(blocks := f.blocks + [Block(groups[l.pc.group].rows, bytes)])),
                   pc := Written(l.pc.group));
      LaneGroups(l') == LaneGroups(l) && LaneBuckets(l') == LaneBuckets(l)
        && LaneRows(l', groups) == LaneRows(l, groups)
  {
    hide Finals, FinalRows, StoredRows, WorkRows, BlockRows;
    var f := l.file.value;
    var b := Block(groups[l.pc.group].rows, bytes);
    var l' := l.(file := Some(f.(blocks := f.blocks + [b])), pc := Written(l.pc.group));
    assert Pending(l') == Pending(l);
    BlocksSnoc(f.blocks, b);
    MoveRows(WorkRows(l.work, groups), multiset(b.rows), BlockRows(f.blocks), FinalRows(Pending(l)),
             StoredRows(l.stored));
  }

  lemma MoveRows<T>(work: multiset<T>, rows: multiset<T>, file: multiset<T>, finals: multiset<T>, stored: multiset<T>)
    ensures work + multiset{} + (file + rows + finals + stored) == work + rows + (file + finals + stored)
  {
    assert file + rows + finals + stored == rows + (file + finals + stored);
    AddAssoc(work, rows, file + finals + stored);
    assert work + multiset{} == work;
  }

  /** The open file's bucket is no last chunk's. */
  lemma FileBucketAlone(l: Lane)
    requires l.file.Some? && LaneBuckets(l)[l.file.value.bucket] == 1
    ensures l.file.value.bucket !in Finals(Pending(l))
  {}

  lemma GrowLane(l: Lane, mem: seq<seq<octet>>, bytes: seq<octet>)
    requires l.file.Some? && l.file.value.bucket < |mem| && LaneBuckets(l)[l.file.value.bucket] == 1
    requires l.file.value.flushed <= |mem[l.file.value.bucket]| && PiecesOk(l.pieces)
    requires Tiled(Pending(l), Pos(l.pieces), Cur(l.pieces), l.file, mem) && OutOk(l, mem)
    ensures var b := l.file.value.bucket; var mem' := mem[b := mem[b] + bytes];
      && Tiled(Pending(l), Pos(l.pieces), Cur(l.pieces), l.file, mem') && OutOk(l, mem')
  {
    hide Tiled, OutOk, LaneBuckets, Finals;
    var b := l.file.value.bucket;
    var mem' := mem[b := mem[b] + bytes];
    FileBucketAlone(l);
    TiledFrame(Pending(l), Pos(l.pieces), Cur(l.pieces), l.file, mem, mem');
    OutFrame(l, mem, mem');
  }

  lemma AppendLane(l: Lane, groups: seq<Group>, mem: seq<seq<octet>>, room: nat, bytes: seq<octet>)
    requires LaneOk(l, groups, mem, room) && l.pc.Ready? && l.file.Some? && l.pc.group < |groups|
    requires LaneBuckets(l)[l.file.value.bucket] == 1 && |bytes| + room <= MAX_PACKET_GROUP_SIZE
    ensures var f := l.file.value;
      var l' := l.(file := Some(f.(blocks := f.blocks + [Block(groups[l.pc.group].rows, bytes)])),
                   pc := Written(l.pc.group));
      LaneOk(l', groups, mem[f.bucket := mem[f.bucket] + bytes], room)
  {
    var f, b := l.file.value, Block(groups[l.pc.group].rows, bytes);
    var l' := l.(file := Some(f.(blocks := f.blocks + [b])), pc := Written(l.pc.group));
    var mem' := mem[f.bucket := mem[f.bucket] + bytes];
    hide *;
    LaneParts(l, groups, mem, room);
    AppendFile(l, groups, mem, room, bytes);
    GrowLane(l, mem, bytes);
    AppendQueue(l, l');
    TiledFile(Pending(l), Pos(l.pieces), Cur(l.pieces), l.file, l'.file, mem');
    SameOut(l, l', mem');
    WorkStays(l, l', groups);
    LaneMade(l', groups, mem', room);
  }

  lemma AppendFile(l: Lane, groups: seq<Group>, mem: seq<seq<octet>>, room: nat, bytes: seq<octet>)
    requires FileOk(l, groups, mem, room) && l.pc.Ready? && l.file.Some? && l.pc.group < |groups|
    requires |bytes| + room <= MAX_PACKET_GROUP_SIZE
    ensures var f := l.file.value;
      var l' := l.(file := Some(f.(blocks := f.blocks + [Block(groups[l.pc.group].rows, bytes)])),
                   pc := Written(l.pc.group));
      && f.bucket < |mem| && f.flushed <= |mem[f.bucket]|
      && FileOk(l', groups, mem[f.bucket := mem[f.bucket] + bytes], room)
  {
    hide Bytes, InTimes;
    BlocksSnoc(l.file.value.blocks, Block(groups[l.pc.group].rows, bytes));
  }

  lemma AppendQueue(l: Lane, l': Lane)
    requires l.pc.Ready? && l' == l.(file := l'.file, pc := Written(l.pc.group))
    ensures Pending(l') == Pending(l) && LaneGroups(l') == LaneGroups(l)
  {}

  lemma SameOut(l: Lane, l': Lane, mem: seq<seq<octet>>)
    requires OutOk(l, mem) && l'.saver == l.saver && l'.pieces == l.pieces
    requires l'.under == l.under && l'.out == l.out && l'.broken == l.broken
    ensures OutOk(l', mem)
  {}

  lemma KeepAppend(s: State, w: nat, bytes: seq<octet>)
    requires Inv(s) && Enabled(s, Append(w, bytes))
    ensures Inv(Apply(s, Append(w, bytes)))
  {
    hide LaneOk, NoRowLost, ReceiverOk, OneOwner, LaneGroups, LaneRows, Finals;
    LaneIsOk(s, w);
    var l, s' := s.lanes[w], Apply(s, Append(w, bytes));
    var b := l.file.value.bucket;
    BucketsApart(s, w, w, b);
    AppendLane(l, s.groups, s.mem, s.room, bytes);
    AppendHoldings(l, s.groups, bytes);
    assert s' == s.(lanes := s.lanes[w := s'.lanes[w]], pool := s'.pool, buckets := s'.buckets,
                    mem := s.mem[b := s'.mem[b]]);
    KeepInv(s, s', w, b);
  }

  // ---------------------------------------------------------------- returning the group

  lemma PutBackLane(l: Lane, groups: seq<Group>, mem: seq<seq<octet>>, room: nat)
    requires LaneOk(l, groups, mem, room) && l.pc.Written? && l.file.Some? && l.file.value.bucket < |mem|
    ensures var size := |mem[l.file.value.bucket]|;
      var l' := l.(pc := Deciding, flush := l.flush || size >= PARQUET_FILE_FLUSH_SIZE);
      && LaneOk(l', groups, mem, room)
      && multiset{l.pc.group} + LaneGroups(l') == LaneGroups(l) && LaneBuckets(l') == LaneBuckets(l)
        && LaneRows(l', groups) == LaneRows(l, groups)
  {
    hide *;
    var size := |mem[l.file.value.bucket]|;
    var l' := l.(pc := Deciding, flush := l.flush || size >= PARQUET_FILE_FLUSH_SIZE);
    LaneParts(l, groups, mem, room);
    FileStays(l, l', mem);
    PutBackFile(l, groups, mem, room);
    PutBackHoldings(l, groups, l'.flush);
    WorkStays(l, l', groups);
    LaneMade(l', groups, mem, room);
  }

  lemma PutBackFile(l: Lane, groups: seq<Group>, mem: seq<seq<octet>>, room: nat)
    requires FileOk(l, groups, mem, room) && l.pc.Written? && l.file.Some? && l.file.value.bucket < |mem|
    ensures var size := |mem[l.file.value.bucket]|;
      FileOk(l.(pc := Deciding, flush := l.flush || size >= PARQUET_FILE_FLUSH_SIZE), groups, mem, room)
  {
    hide Bytes, BlocksInTimes;
  }

  lemma PutBackHoldings(l: Lane, groups: seq<Group>, flush: bool)
    requires l.pc.Written?
    ensures var l' := l.(pc := Deciding, flush := flush);
      && multiset{l.pc.group} + LaneGroups(l') == LaneGroups(l) && LaneGroups(l') <= LaneGroups(l)
      && LaneBuckets(l') == LaneBuckets(l) && LaneRows(l', groups) == LaneRows(l, groups)
  {
    hide Finals, FinalRows, StoredRows, BlockRows, WorkRows;
    var l' := l.(pc := Deciding, flush := flush);
    assert Pending(l') == Pending(l);
  }

  lemma KeepPutBack(s: State, w: nat)
    requires Inv(s) && Enabled(s, PutBack(w))
    ensures Inv(Apply(s, PutBack(w)))
  {
    hide LaneOk, NoRowLost, ReceiverOk, OneOwner, LaneGroups, LaneBuckets, LaneRows;
    LaneIsOk(s, w);
    var l, s' := s.lanes[w], Apply(s, PutBack(w));
    PutBackLane(l, s.groups, s.mem, s.room);
    assert multiset(s'.pool) == multiset(s.pool) + multiset{l.pc.group};
    AddAssoc(multiset(s.pool), multiset{l.pc.group}, LaneGroups(s'.lanes[w]));
    assert s.mem[0 := s.mem[0]] == s.mem;
    assert s' == s.(lanes := s.lanes[w := s'.lanes[w]], pool := s'.pool, buckets := s'.buckets,
                    mem := s.mem[0 := s'.mem[0]]);
    KeepInv(s, s', w, 0);
  }

  // ---------------------------------------------------------------- handing over a chunk

  lemma CloseHoldings(l: Lane, groups: seq<Group>, c: Chunk)
    requires l.pc.Deciding? && l.file.Some? && c.last && c.bucket == l.file.value.bucket
      && c.blocks == l.file.value.blocks
    ensures var l' := l.(chunks := l.chunks + [c], file := None, flush := false, pc := Idle);
      LaneGroups(l') == LaneGroups(l) && LaneBuckets(l') == LaneBuckets(l)
        && LaneRows(l', groups) == LaneRows(l, groups)
  {
    hide Finals, FinalRows, StoredRows, WorkRows, BlockRows;
    var l' := l.(chunks := l.chunks + [c], file := None, flush := false, pc := Idle);
    assert Pending(l') == Pending(l) + [c];
    FinalsSnoc(Pending(l), c);
    var a, b, d := BlockRows(c.blocks), FinalRows(Pending(l)), StoredRows(l.stored);
    assert multiset{} + (b + a) + d == a + b + d;
    assert multiset{c.bucket} + Finals(Pending(l)) == multiset{} + (Finals(Pending(l)) + multiset{c.bucket});
  }

  lemma CloseLane(l: Lane, groups: seq<Group>, mem: seq<seq<octet>>, room: nat, footer: seq<octet>)
    requires LaneOk(l, groups, mem, room) && l.pc.Deciding? && l.file.Some? && |l.chunks| < PARQUET_FILE_CHUNK_COUNT
    requires LaneBuckets(l)[l.file.value.bucket] == 1 && |footer| <= room
    ensures var f := l.file.value; var all := mem[f.bucket] + footer;
      LaneOk(l.(chunks := l.chunks + [LastChunk(f, |all|, footer)], file := None, flush := false, pc := Idle), groups,
             mem[f.bucket := all], room)
  {
    hide Tiled, StoredOk, Finals, FinalRows, StoredRows, BlockRows, WorkRows, LaneBuckets, OutOk;
    var f := l.file.value;
    var all := mem[f.bucket] + footer;
    var mem', c := mem[f.bucket := all], LastChunk(f, |all|, footer);
    var l' := l.(chunks := l.chunks + [c], file := None, flush := false, pc := Idle);
    GrowLane(l, mem, footer);
    assert Pending(l') == Pending(l) + [c];
    TiledClose(Pending(l), Pos(l.pieces), Cur(l.pieces), f, mem', c);
    SameOut(l, l', mem');
  }

  lemma FileBucketOwned(l: Lane)
    requires l.file.Some?
    ensures l.file.value.bucket in LaneBuckets(l)
  {}

  /** A step of lane `w` that writes its own bucket `b`. */
  lemma KeepLaneWrite(s: State, w: nat, l: Lane, b: nat, bytes: seq<octet>)
    requires Inv(s) && w < LANES && b < |s.mem| && b in LaneBuckets(s.lanes[w])
    requires LaneOk(l, s.groups, s.mem[b := bytes], s.room) && SameHoldings(s.lanes[w], l, s.groups)
    ensures Inv(WithLane(s, w, l).(mem := s.mem[b := bytes]))
  {
    hide LaneOk, OneOwner, NoRowLost, ReceiverOk, LaneGroups, LaneBuckets, LaneRows;
    KeepInv(s, WithLane(s, w, l).(mem := s.mem[b := bytes]), w, b);
  }

  lemma CloseStep(s: State, w: nat, footer: seq<octet>)
    requires Inv(s) && w < LANES && s.lanes[w].pc.Deciding? && s.lanes[w].file.Some?
      && |s.lanes[w].chunks| < PARQUET_FILE_CHUNK_COUNT
    requires |footer| <= s.room
    requires s.lanes[w].file.value.bucket < |s.mem|
      && s.lanes[w].file.value.flushed <= |s.mem[s.lanes[w].file.value.bucket]|
    ensures var f := s.lanes[w].file.value; var all := s.mem[f.bucket] + footer;
      Inv(WithLane(s, w, Closed(s.lanes[w], LastChunk(f, |all|, footer))).(mem := s.mem[f.bucket := all]))
  {
    hide LaneOk, NoRowLost, ReceiverOk, OneOwner, LaneGroups, LaneRows, LaneBuckets;
    LaneIsOk(s, w);
    var l, f := s.lanes[w], s.lanes[w].file.value;
    var all := s.mem[f.bucket] + footer;
    FileBucketOwned(l);
    BucketsApart(s, w, w, f.bucket);
    CloseLane(l, s.groups, s.mem, s.room, footer);
    CloseHoldings(l, s.groups, LastChunk(f, |all|, footer));
    KeepLaneWrite(s, w, Closed(l, LastChunk(f, |all|, footer)), f.bucket, all);
  }

  lemma HalfHoldings(l: Lane, groups: seq<Group>)
    requires l.pc.Deciding? && l.file.Some?
    ensures var f := l.file.value;
      var l' := l.(chunks := l.chunks + [FirstChunk(f)],
                   file := Some(f.(flushed := f.flushed + PARQUET_FILE_CHUNK_SIZE)), pc := Idle);
      SameHoldings(l, l', groups)
  {
    hide Finals, FinalRows, StoredRows, WorkRows, BlockRows;
    var f := l.file.value;
    var l' := l.(chunks := l.chunks + [FirstChunk(f)],
                 file := Some(f.(flushed := f.flushed + PARQUET_FILE_CHUNK_SIZE)), pc := Idle);
    assert Pending(l') == Pending(l) + [FirstChunk(f)];
    FinalsSnoc(Pending(l), FirstChunk(f));
  }

  lemma HalfLane(l: Lane, groups: seq<Group>, mem: seq<seq<octet>>, room: nat)
    requires LaneOk(l, groups, mem, room) && l.pc.Deciding? && l.file.Some? && !l.flush
      && |l.chunks| < PARQUET_FILE_CHUNK_COUNT
    requires l.file.value.bucket < |mem| && |mem[l.file.value.bucket]| - l.file.value.flushed >= PARQUET_FILE_CHUNK_SIZE
    ensures var f := l.file.value;
      LaneOk(l.(chunks := l.chunks + [FirstChunk(f)],
                file := Some(f.(flushed := f.flushed + PARQUET_FILE_CHUNK_SIZE)), pc := Idle), groups, mem, room)
  {
    var f := l.file.value;
    var l' := l.(chunks := l.chunks + [FirstChunk(f)],
                 file := Some(f.(flushed := f.flushed + PARQUET_FILE_CHUNK_SIZE)), pc := Idle);
    hide *;
    LaneParts(l, groups, mem, room);
    HalfFile(l, groups, mem, room);
    HalfQueue(l, l');
    TiledPartial(Pending(l), Pos(l.pieces), Cur(l.pieces), f, mem, FirstChunk(f));
    SameOut(l, l', mem);
    WorkStays(l, l', groups);
    LaneMade(l', groups, mem, room);
  }

  lemma HalfQueue(l: Lane, l': Lane)
    requires l.pc.Deciding? && l.file.Some?
    requires l' == l.(chunks := l.chunks + [FirstChunk(l.file.value)], file := l'.file, pc := Idle)
    ensures Pending(l') == Pending(l) + [FirstChunk(l.file.value)] && LaneGroups(l') == LaneGroups(l)
  {}

  lemma HalfFile(l: Lane, groups: seq<Group>, mem: seq<seq<octet>>, room: nat)
    requires FileOk(l, groups, mem, room) && l.pc.Deciding? && l.file.Some? && !l.flush
    requires l.file.value.bucket < |mem| && |mem[l.file.value.bucket]| - l.file.value.flushed >= PARQUET_FILE_CHUNK_SIZE
    ensures var f, c := l.file.value, FirstChunk(l.file.value);
      && f.flushed == 0 && !c.last && c.bucket == f.bucket && c.offset == 0 && c.length == PARQUET_FILE_CHUNK_SIZE
        && Timed(c)
      && FileOk(l.(chunks := l.chunks + [c], file := Some(f.(flushed := f.flushed + PARQUET_FILE_CHUNK_SIZE)),
                   pc := Idle), groups, mem, room)
  {
    hide Bytes;
  }

  lemma RestLane(l: Lane, groups: seq<Group>, mem: seq<seq<octet>>, room: nat)
    requires LaneOk(l, groups, mem, room) && l.pc.Deciding? && l.file.Some? && !l.flush
    requires l.file.value.bucket < |mem| && |mem[l.file.value.bucket]| - l.file.value.flushed < PARQUET_FILE_CHUNK_SIZE
    ensures LaneOk(l.(pc := Idle), groups, mem, room) && SameHoldings(l, l.(pc := Idle), groups)
  {
    hide Tiled, StoredOk, Finals, FinalRows, StoredRows, BlockRows, WorkRows, Bytes;
    assert Pending(l.(pc := Idle)) == Pending(l);
    assert LaneGroups(l.(pc := Idle)) == LaneGroups(l);
  }

  lemma KeepFlush(s: State, w: nat, footer: seq<octet>)
    requires Inv(s) && Enabled(s, Flush(w, footer))
    ensures Inv(Apply(s, Flush(w, footer)))
  {
    hide LaneOk, Inv, SameHoldings;
    LaneIsOk(s, w);
    var l := s.lanes[w];
    var f := l.file.value;
    if l.flush {
      CloseStep(s, w, footer);
    } else if |s.mem[f.bucket]| - f.flushed >= PARQUET_FILE_CHUNK_SIZE {
      HalfLane(l, s.groups, s.mem, s.room);
      HalfHoldings(l, s.groups);
      KeepLaneStep(s, w, Apply(s, Flush(w, footer)).lanes[w]);
    } else {
      RestLane(l, s.groups, s.mem, s.room);
      KeepLaneStep(s, w, l.(pc := Idle));
    }
  }
}
