/** A finished file is marked intact exactly when it was opened and holds all that was encoded. */
module PipelineIntact {
  import opened Common
  import opened Pipeline
  import opened PipelineInv
  import opened PipelineSteps
  import opened PipelineOrder
  import opened PipelineRequests
  import opened PipelineSafety

  /** How much of the current file the chunks taken so far make up. */
  function Reached(l: Lane): nat {
    match l.saver
    case Saved(c) => c.offset + c.length
    case _ => Pos(l.pieces)
  }

  /** Something is missing. */
  predicate Lacks(out: Option<seq<octet>>, size: nat) { out.None? || |out.value| < size }

  ghost predicate StoredExact(r: Stored) { !r.intact ==> r.under.None? || |r.content| < |Image(r)| }

  ghost predicate LaneExact(l: Lane) {
    && (l.broken ==> Lacks(l.out, Reached(l)))
    && (!l.broken && l.out.Some? ==> |l.out.value| == Reached(l))
    && (l.out.None? && Reached(l) > 0 ==> l.broken)
    && forall i :: 0 <= i < |l.stored| ==> StoredExact(l.stored[i])
  }

  /** Before the first chunk of a file nothing has failed. */
  predicate Begins(l: Lane) { l.pieces == [] && !l.saver.Saved? ==> !l.broken && l.out == None }

  lemma SaveExact(l: Lane, mem: seq<seq<octet>>, isOpen: bool, count: nat)
    requires l.saver.Holding? && LaneExact(l) && Begins(l)
    requires var c := l.saver.chunk;
      c.offset == Pos(l.pieces) && count <= c.length && InBucket(c.bucket, c.offset + c.length, mem)
    ensures LaneExact(SavedLane(l, mem, isOpen, count))
  {
    var c := l.saver.chunk;
    assert |mem[c.bucket][c.offset..c.offset + count]| == count;
  }

  /** Once the file is open nothing asks whether it could be opened. */
  lemma OpenedOnce(l: Lane, mem: seq<seq<octet>>, count: nat)
    requires l.saver.Holding? && l.out.Some?
    requires var c := l.saver.chunk; count <= c.length && InBucket(c.bucket, c.offset + c.length, mem)
    ensures SavedLane(l, mem, false, count) == SavedLane(l, mem, true, count)
  {}

  lemma ReleaseExact(l: Lane, mem: seq<seq<octet>>)
    requires l.saver.Saved? && LaneExact(l) && OpenedOk(l.under, l.out)
    requires var c := l.saver.chunk;
      c.offset == Pos(l.pieces) && if c.last then LastOk(c, mem)
        else l.pieces == [] && c.length == PARQUET_FILE_CHUNK_SIZE
    ensures LaneExact(ReleasedLane(l))
  {
    hide Bytes;
    var c := l.saver.chunk;
    if c.last {
      assert Image(StoredFile(l, c)) == Bytes(c.blocks) + c.footer;
    }
  }

  /** What the invariant says of the chunk a file writer holds. */
  lemma ChunkFacts(s: State, w: nat)
    requires LaneOf(s, w) && Inv(s)
    ensures var l := s.lanes[w];
      && Begins(l) && OpenedOk(l.under, l.out)
      && (!l.saver.Waiting? ==>
            var c := l.saver.chunk;
            && c.offset == Pos(l.pieces)
            && if c.last then LastOk(c, s.mem) else l.pieces == [] && c.length == PARQUET_FILE_CHUNK_SIZE)
  {
    assert w < LANES;
    var l := s.lanes[w];
    hide *;
    LaneIsOk(s, w);
    LaneParts(l, s.groups, s.mem, s.room);
    HeadFacts(l, s.mem);
  }

  lemma HeadFacts(l: Lane, mem: seq<seq<octet>>)
    requires PiecesOk(l.pieces) && Tiled(Pending(l), Pos(l.pieces), Cur(l.pieces), l.file, mem) && OutOk(l, mem)
    ensures Begins(l) && OpenedOk(l.under, l.out)
    ensures !l.saver.Waiting? ==>
      var c := l.saver.chunk;
      && c.offset == Pos(l.pieces)
      && if c.last then LastOk(c, mem) else l.pieces == [] && c.length == PARQUET_FILE_CHUNK_SIZE
  {
    hide LastOk;
    assert !l.saver.Waiting? ==> Pending(l)[0] == l.saver.chunk;
  }

  /** The steps that leave the file writer's side alone. */
  lemma OwnLeavesSaver(s: State, a: Action)
    requires Enabled(s, a) && LaneStep(a) && !a.ReadChunk? && !a.Save? && !a.Release? && LaneOf(s, a.w)
    ensures LaneOf(Apply(s, a), a.w)
    ensures var l, l' := s.lanes[a.w], Apply(s, a).lanes[a.w];
      && l'.saver == l.saver && l'.under == l.under && l'.out == l.out && l'.broken == l.broken
      && l'.pieces == l.pieces && l'.stored == l.stored
  {
    hide SavedLane, ReleasedLane, ApplyTakeGroup, ApplyReceive, ApplyTryRing, ApplyRelease, LastChunk, FirstChunk;
  }

  /** What the file writer's own steps make of its lane. */
  lemma SaverStep(s: State, a: Action)
    requires Enabled(s, a) && LaneStep(a) && LaneOf(s, a.w)
    ensures LaneOf(Apply(s, a), a.w)
    ensures var l, l' := s.lanes[a.w], Apply(s, a).lanes[a.w];
      && (a.ReadChunk? ==> l.saver.Waiting? && l.chunks != []
                           && l' == l.(saver := Holding(l.chunks[0]), chunks := l.chunks[1..]))
      && (a.Save? ==> l.saver.Holding? && a.count <= l.saver.chunk.length
                      && InBucket(l.saver.chunk.bucket, l.saver.chunk.offset + l.saver.chunk.length, s.mem)
                      && l' == SavedLane(l, s.mem, a.isOpen, a.count))
      && (a.Release? ==> l.saver.Saved? && l' == ReleasedLane(l))
  {
    hide SavedLane, ReleasedLane;
  }

  lemma StepExact(s: State, a: Action, w: nat)
    requires Enabled(s, a) && LaneOf(s, w) && LaneExact(s.lanes[w]) && Inv(s)
    ensures LaneOf(Apply(s, a), w) && LaneExact(Apply(s, a).lanes[w])
  {
    hide Inv, Enabled, Apply, Lacks, StoredExact, Begins, LastOk, OpenedOk;
    if !LaneStep(a) || a.w != w {
      OthersAddWork(s, a, w);
    } else {
      ChunkFacts(s, w);
      SaverStep(s, a);
      if a.Save? {
        SaveExact(s.lanes[w], s.mem, a.isOpen, a.count);
      } else if a.Release? {
        ReleaseExact(s.lanes[w], s.mem);
      } else if !a.ReadChunk? {
        OwnLeavesSaver(s, a);
      }
    }
  }

  lemma {:induction false} RunExact(s: State, actions: seq<Action>, w: nat)
    requires LaneOf(s, w) && LaneExact(s.lanes[w]) && Run(s, actions).Some? && Inv(s)
    ensures var t := Run(s, actions).value; LaneOf(t, w) && LaneExact(t.lanes[w])
    decreases |actions|
  {
    hide Inv, LaneExact, Apply, Enabled;
    if actions != [] {
      StepExact(s, actions[0], w);
      ActionKeepsInv(s, actions[0]);
      RunExact(Apply(s, actions[0]), actions[1..], w);
    }
  }

  lemma InitExact(room: nat, w: nat)
    requires w < LANES
    ensures LaneOf(Init(room), w) && LaneExact(Init(room).lanes[w])
  {}

  lemma ReachableExact(s: State, w: nat)
    requires Reachable(s) && LaneOf(s, w)
    ensures LaneExact(s.lanes[w])
  {
    hide Inv, Run, Init, LaneExact, Apply, Enabled;
    var room: nat, actions: seq<Action> :| room <= MAX_PACKET_GROUP_SIZE && Run(Init(room), actions) == Some(s);
    InitInv(room);
    InitExact(room, w);
    RunExact(Init(room), actions, w);
  }

  /**
    In every reachable state a finished file is marked intact exactly when it was opened and holds its row groups and
    its footer, and whether an earlier file has failed makes no difference.
   */
  lemma IntactExactly(s: State, w: nat, i: nat)
    requires Reachable(s) && LaneOf(s, w) && i < |s.lanes[w].stored|
    ensures var r := s.lanes[w].stored[i]; r.intact <==> r.under.Some? && r.content == Image(r)
  {
    FinishedFilesAreWhole(s, w, i);
    ReachableExact(s, w);
    hide Reachable, Inv, PiecesTile, BlocksInTimes, Image, Timed, Lacks, Reached;
    assert StoredExact(s.lanes[w].stored[i]);
  }
}
