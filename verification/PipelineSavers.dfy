/** The steps of the file writers and of the receiver keep the invariant. */
module PipelineSavers {
  import opened Common
  import opened Pipeline
  import opened PipelineInv
  import opened PipelineFrame
  import opened PipelineSteps

  // ---------------------------------------------------------------- writing a chunk

  lemma SaveOut(l: Lane, mem: seq<seq<octet>>, isOpen: bool, count: nat)
    requires l.saver.Holding? && OutOk(l, mem) && PiecesOk(l.pieces)
    requires Tiled(Pending(l), Pos(l.pieces), Cur(l.pieces), l.file, mem)
    requires var c := l.saver.chunk; count <= c.length && InBucket(c.bucket, c.offset + c.length, mem)
    ensures OutOk(SavedLane(l, mem, isOpen, count), mem)
  {
    var c := l.saver.chunk;
    assert Pending(l)[0] == c;
    assert c.offset == Pos(l.pieces);
    if !SavedLane(l, mem, isOpen, count).broken {
      var m := mem[c.bucket];
      assert m[..c.offset] + m[c.offset..c.offset + count] == m[..c.offset + c.length];
      if l.pieces == [] {
        assert [] + m[0..count] == m[..c.length];
      }
    }
  }

  lemma SaveLane(l: Lane, groups: seq<Group>, mem: seq<seq<octet>>, room: nat, isOpen: bool, count: nat)
    requires LaneOk(l, groups, mem, room) && l.saver.Holding?
    requires var c := l.saver.chunk; count <= c.length && c.bucket < |mem| && c.offset + c.length <= |mem[c.bucket]|
    ensures LaneOk(SavedLane(l, mem, isOpen, count), groups, mem, room)
    ensures SameHoldings(l, SavedLane(l, mem, isOpen, count), groups)
  {
    hide *;
    var l' := SavedLane(l, mem, isOpen, count);
    LaneParts(l, groups, mem, room);
    SaveOut(l, mem, isOpen, count);
    SaveHoldings(l, groups, mem, room, isOpen, count);
    WorkStays(l, l', groups);
    LaneMade(l', groups, mem, room);
  }

  lemma SaveHoldings(l: Lane, groups: seq<Group>, mem: seq<seq<octet>>, room: nat, isOpen: bool, count: nat)
    requires l.saver.Holding? && FileOk(l, groups, mem, room)
    requires var c := l.saver.chunk; count <= c.length && c.bucket < |mem| && c.offset + c.length <= |mem[c.bucket]|
    ensures var l' := SavedLane(l, mem, isOpen, count);
      && SameHoldings(l, l', groups) && Pending(l') == Pending(l) && LaneGroups(l') == LaneGroups(l)
        && l'.work == l.work
      && l'.chunks == l.chunks && l'.pieces == l.pieces && l'.file == l.file && l'.stored == l.stored
        && FileOk(l', groups, mem, room)
  {
    hide Finals, FinalRows, StoredRows, BlockRows, WorkRows, Bytes;
    assert Pending(SavedLane(l, mem, isOpen, count)) == Pending(l);
  }

  lemma KeepSave(s: State, w: nat, isOpen: bool, count: nat)
    requires Inv(s) && Enabled(s, Save(w, isOpen, count))
    ensures Inv(Apply(s, Save(w, isOpen, count)))
  {
    hide LaneOk, Inv, SameHoldings;
    LaneIsOk(s, w);
    SaveLane(s.lanes[w], s.groups, s.mem, s.room, isOpen, count);
    KeepLaneStep(s, w, SavedLane(s.lanes[w], s.mem, isOpen, count));
  }

  // ---------------------------------------------------------------- finishing a chunk

  /** The record of a file whose last chunk is done. */
  lemma FinishedFile(l: Lane, mem: seq<seq<octet>>)
    requires l.saver.Saved? && l.saver.chunk.last && OutOk(l, mem) && PiecesOk(l.pieces)
    requires Tiled(Pending(l), Pos(l.pieces), Cur(l.pieces), l.file, mem)
    ensures StoredOk(StoredFile(l, l.saver.chunk))
  {
    hide Bytes;
    var c := l.saver.chunk;
    assert Pending(l)[0] == c;
    assert mem[c.bucket][..c.offset + c.length] == mem[c.bucket];
    var p := l.pieces + [c];
    if l.pieces != [] {
      assert p == [l.pieces[0], c];
    }
  }

  lemma ReleaseLastLane(l: Lane, groups: seq<Group>, mem: seq<seq<octet>>, room: nat)
    requires LaneOk(l, groups, mem, room) && l.saver.Saved? && l.saver.chunk.last
    ensures LaneOk(ReleasedLane(l), groups, mem, room)
  {
    hide OutOk, StoredOk, Finals, FinalRows, StoredRows, BlockRows, Bytes, WorkRows, LastOk;
    var l' := ReleasedLane(l);
    FinishedFile(l, mem);
    assert Pending(l) == [l.saver.chunk] + Pending(l') && Pending(l)[1..] == Pending(l');
    EmptyOut(l', mem);
  }

  lemma EmptyOut(l: Lane, mem: seq<seq<octet>>)
    requires l.saver.Waiting? && l.pieces == [] && !l.broken && l.under == None && l.out == None
    ensures OutOk(l, mem)
  {}

  lemma ReleaseHoldings(l: Lane, groups: seq<Group>)
    requires l.saver.Saved?
    ensures var c, l' := l.saver.chunk, ReleasedLane(l);
      && LaneGroups(l') == LaneGroups(l)
      && (if c.last then multiset{c.bucket} else multiset{}) + LaneBuckets(l') == LaneBuckets(l)
      && LaneRows(l', groups) == LaneRows(l, groups)
  {
    hide StoredRows, WorkRows, BlockRows;
    var c, l' := l.saver.chunk, ReleasedLane(l);
    assert Pending(l) == [c] + Pending(l') && Pending(l)[1..] == Pending(l');
    if c.last {
      StoredSnoc(l.stored, StoredFile(l, c));
      var a, b, d, e := FileRows(l.file), BlockRows(c.blocks), FinalRows(Pending(l')), StoredRows(l.stored);
      assert a + (b + d) + e == a + d + (e + b);
    }
  }

  lemma ReleaseFirstLane(l: Lane, groups: seq<Group>, mem: seq<seq<octet>>, room: nat)
    requires LaneOk(l, groups, mem, room) && l.saver.Saved? && !l.saver.chunk.last
    ensures LaneOk(ReleasedLane(l), groups, mem, room)
  {
    hide *;
    LaneParts(l, groups, mem, room);
    var l' := ReleasedLane(l);
    FirstReleased(l, mem);
    ReleasedSame(l, groups, mem, room);
    WorkStays(l, l', groups);
    LaneMade(l', groups, mem, room);
  }

  lemma FirstReleased(l: Lane, mem: seq<seq<octet>>)
    requires l.saver.Saved? && !l.saver.chunk.last && OutOk(l, mem) && PiecesOk(l.pieces)
    requires Tiled(Pending(l), Pos(l.pieces), Cur(l.pieces), l.file, mem)
    ensures var l' := ReleasedLane(l);
      PiecesOk(l'.pieces) && Tiled(Pending(l'), Pos(l'.pieces), Cur(l'.pieces), l'.file, mem) && OutOk(l', mem)
  {
    hide LastOk;
    var c, l' := l.saver.chunk, ReleasedLane(l);
    assert Pending(l) == [c] + Pending(l') && Pending(l)[1..] == Pending(l');
    assert l.pieces == [];
    assert l'.pieces == [c];
  }

  lemma ReleasedSame(l: Lane, groups: seq<Group>, mem: seq<seq<octet>>, room: nat)
    requires l.saver.Saved? && FileOk(l, groups, mem, room)
    ensures var l' := ReleasedLane(l);
      && LaneGroups(l') == LaneGroups(l) && l'.work == l.work && l'.chunks == l.chunks && FileOk(l', groups, mem, room)
      && (!l.saver.chunk.last ==> l'.stored == l.stored)
  {
    hide Bytes;
  }

  lemma KeepRelease(s: State, w: nat)
    requires Inv(s) && Enabled(s, Release(w))
    ensures Inv(Apply(s, Release(w)))
  {
    hide LaneOk, OneOwner, NoRowLost, ReceiverOk, LaneGroups, LaneBuckets, LaneRows;
    LaneIsOk(s, w);
    var l, l', c := s.lanes[w], ReleasedLane(s.lanes[w]), s.lanes[w].saver.chunk;
    ReleaseHoldings(l, s.groups);
    if c.last {
      ReleaseLastLane(l, s.groups, s.mem, s.room);
      var s' := WithLane(s, w, l').(buckets := s.buckets + [c.bucket]);
      assert multiset(s'.buckets) == multiset(s.buckets) + multiset{c.bucket};
      AddAssoc(multiset(s.buckets), multiset{c.bucket}, LaneBuckets(l'));
      assert s.mem[0 := s.mem[0]] == s.mem;
      KeepInv(s, s', w, 0);
    } else {
      ReleaseFirstLane(l, s.groups, s.mem, s.room);
      assert multiset{} + LaneBuckets(l') == LaneBuckets(l');
      KeepLaneStep(s, w, l');
    }
  }
}
