/** A flush that was asked for is not forgotten, and the rings are tried in turn. */
module PipelineRequests {
  import opened Common
  import opened Pipeline
  import opened PipelineSafety
  import opened PipelineOrder

  // ---------------------------------------------------------------- the receiver

  predicate NoAttempts(actions: seq<Action>) { forall i :: 0 <= i < |actions| ==> !actions[i].TryRing? }

  lemma KeepsRequest(s: State, a: Action)
    requires Enabled(s, a) && s.flush && !a.TryRing?
    ensures Apply(s, a).flush
  {}

  lemma {:induction false} RunKeepsRequest(s: State, actions: seq<Action>)
    requires s.flush && NoAttempts(actions) && Run(s, actions).Some?
    ensures Run(s, actions).value.flush
    decreases |actions|
  {
    hide Apply, Enabled;
    if actions != [] {
      KeepsRequest(s, actions[0]);
      assert forall i :: 0 <= i < |actions[1..]| ==> actions[1..][i] == actions[i + 1];
      RunKeepsRequest(Apply(s, actions[0]), actions[1..]);
    }
  }

  /** Whatever happens after the receiver was asked to flush, it begins to hand its group over once that has a row. */
  lemma ReceiverAnswers(s: State, actions: seq<Action>, t: State)
    requires s.flush && NoAttempts(actions) && Run(s, actions) == Some(t)
    requires Enabled(t, Check) && t.groups[t.hold.value].rows != []
    ensures Apply(t, Check).pc.Scanning?
  {
    RunKeepsRequest(s, actions);
  }

  // ---------------------------------------------------------------- the parquet writers

  predicate NoFlushOf(actions: seq<Action>, w: nat) {
    forall i :: 0 <= i < |actions| ==> !(actions[i].Flush? && actions[i].w == w)
  }

  lemma OwnKeepsRequest(s: State, a: Action)
    requires Enabled(s, a) && LaneStep(a) && LaneOf(s, a.w) && s.lanes[a.w].flush && !a.Flush?
    ensures LaneOf(Apply(s, a), a.w) && Apply(s, a).lanes[a.w].flush
  {}

  lemma LaneKeepsRequest(s: State, a: Action, w: nat)
    requires Enabled(s, a) && LaneOf(s, w) && s.lanes[w].flush && !(a.Flush? && a.w == w)
    ensures LaneOf(Apply(s, a), w) && Apply(s, a).lanes[w].flush
  {
    hide Apply, Enabled;
    if LaneStep(a) && a.w == w {
      OwnKeepsRequest(s, a);
    } else {
      OthersAddWork(s, a, w);
    }
  }

  lemma {:induction false} RunKeepsLaneRequest(s: State, actions: seq<Action>, w: nat)
    requires LaneOf(s, w) && s.lanes[w].flush && NoFlushOf(actions, w) && Run(s, actions).Some?
    ensures var t := Run(s, actions).value; LaneOf(t, w) && t.lanes[w].flush
    decreases |actions|
  {
    hide Apply, Enabled;
    if actions != [] {
      LaneKeepsRequest(s, actions[0], w);
      assert forall i :: 0 <= i < |actions[1..]| ==> actions[1..][i] == actions[i + 1];
      RunKeepsLaneRequest(Apply(s, actions[0]), actions[1..], w);
    }
  }

  /** Whatever happens after a parquet writer was asked to flush, the next time it decides it closes its file. */
  lemma WriterAnswers(s: State, actions: seq<Action>, t: State, w: nat, footer: seq<octet>)
    requires LaneOf(s, w) && s.lanes[w].flush && NoFlushOf(actions, w) && Run(s, actions) == Some(t)
    requires Enabled(t, Flush(w, footer))
    ensures var l, l' := t.lanes[w], Apply(t, Flush(w, footer)).lanes[w];
      && l'.file.None? && |l'.chunks| == |l.chunks| + 1
      && var c := l'.chunks[|l.chunks|];
         && c.last && c.blocks == l.file.value.blocks && c.bucket == l.file.value.bucket
         && c.offset == l.file.value.flushed && c.offset + c.length == |t.mem[c.bucket]| + |footer|
  {
    RunKeepsLaneRequest(s, actions, w);
  }

  predicate NoReadOf(actions: seq<Action>, w: nat) { forall i :: 0 <= i < |actions| ==> actions[i] != ReadWork(w) }

  /** The writer between two groups, with another on its ring. */
  predicate HasNext(l: Lane) { l.pc.Idle? && l.work != [] }

  lemma OwnLeavesFile(s: State, a: Action)
    requires Enabled(s, a) && LaneStep(a) && LaneOf(s, a.w) && HasNext(s.lanes[a.w]) && !a.ReadWork?
    ensures LaneOf(Apply(s, a), a.w)
    ensures var l, l' := s.lanes[a.w], Apply(s, a).lanes[a.w]; HasNext(l') && l'.file == l.file && l.work <= l'.work
  {}

  lemma StepLeavesFile(s: State, a: Action, w: nat)
    requires Enabled(s, a) && LaneOf(s, w) && HasNext(s.lanes[w]) && a != ReadWork(w)
    ensures LaneOf(Apply(s, a), w)
    ensures var l, l' := s.lanes[w], Apply(s, a).lanes[w]; HasNext(l') && l'.file == l.file && l.work <= l'.work
  {
    hide Apply, Enabled;
    if LaneStep(a) && a.w == w {
      OwnLeavesFile(s, a);
    } else {
      OthersAddWork(s, a, w);
    }
  }

  /** As long as a group is on its ring a parquet writer closes no file before it has taken that group. */
  lemma {:induction false} WorkComesFirst(s: State, actions: seq<Action>, w: nat)
    requires LaneOf(s, w) && HasNext(s.lanes[w]) && NoReadOf(actions, w) && Run(s, actions).Some?
    ensures var t := Run(s, actions).value;
      LaneOf(t, w) && HasNext(t.lanes[w]) && t.lanes[w].file == s.lanes[w].file && s.lanes[w].work <= t.lanes[w].work
    decreases |actions|
  {
    hide Apply, Enabled;
    if actions != [] {
      StepLeavesFile(s, actions[0], w);
      assert forall i :: 0 <= i < |actions[1..]| ==> actions[1..][i] == actions[i + 1];
      WorkComesFirst(Apply(s, actions[0]), actions[1..], w);
    }
  }

  // ---------------------------------------------------------------- the rings in turn

  /** How often a ring was tried. */
  function Attempts(actions: seq<Action>): nat {
    if actions == [] then 0
    else Attempts(actions[..|actions| - 1]) + if actions[|actions| - 1].TryRing? then 1 else 0
  }

  lemma TurnMoves(s: State, a: Action)
    requires Reachable(s) && Enabled(s, a)
    ensures Apply(s, a).turn == s.turn + if a.TryRing? then 1 else 0
  {
    if a.TryRing? {
      if Apply(s, a).pc.Scanning? {
        WriteNeverRepeats(s);
      }
      hide Reachable;
      AttemptMoves(s);
    } else {
      OthersLeaveTurn(s, a);
    }
  }

  /** An attempt at a ring, unless it is the last of a fruitless scan. */
  lemma AttemptMoves(s: State)
    requires Enabled(s, TryRing)
    requires Apply(s, TryRing).pc.Scanning? ==> Apply(s, TryRing).pc == s.pc.(tries := s.pc.tries + 1)
    ensures Apply(s, TryRing).turn == s.turn + 1
  {}

  lemma OthersLeaveTurn(s: State, a: Action)
    requires Enabled(s, a) && !a.TryRing?
    ensures Apply(s, a).turn == s.turn
  {}

  lemma {:induction false} RunPrefix(s: State, actions: seq<Action>, n: nat)
    requires n <= |actions| && Run(s, actions).Some?
    ensures Run(s, actions[..n]).Some? && Run(Run(s, actions[..n]).value, actions[n..]) == Run(s, actions)
    decreases |actions|
  {
    hide Apply, Enabled;
    if n == 0 {
      assert actions[0..] == actions && actions[..0] == [];
    } else {
      RunPrefix(Apply(s, actions[0]), actions[1..], n - 1);
      assert actions[..n][1..] == actions[1..][..n - 1] && actions[1..][n - 1..] == actions[n..];
    }
  }

  /** The rings are tried one after another, each attempt the one behind that of the attempt before. */
  lemma {:induction false} RingsTakeTurns(room: nat, actions: seq<Action>)
    requires room <= MAX_PACKET_GROUP_SIZE && Run(Init(room), actions).Some?
    ensures Run(Init(room), actions).value.turn == Attempts(actions)
    decreases |actions|
  {
    if actions != [] {
      var n := |actions| - 1;
      var a := actions[n];
      RunPrefix(Init(room), actions, n);
      assert actions[n..] == [a];
      hide Apply, Enabled;
      RingsTakeTurns(room, actions[..n]);
      var s := Run(Init(room), actions[..n]).value;
      OneStep(s, a);
      assert Run(Init(room), actions[..n]) == Some(s);
      TurnMoves(s, a);
    }
  }

  lemma OneStep(s: State, a: Action)
    requires Run(s, [a]).Some?
    ensures Enabled(s, a) && Run(s, [a]) == Some(Apply(s, a))
  {
    hide Apply, Enabled;
    assert [a][1..] == [];
  }
  // ---------------------------------------------------------------- the pools

  function Takes(actions: seq<Action>): nat {
    if actions == [] then 0 else (if actions[0].TakeGroup? then 1 else 0) + Takes(actions[1..])
  }

  function Opens(actions: seq<Action>): nat {
    if actions == [] then 0 else (if actions[0].OpenSink? then 1 else 0) + Opens(actions[1..])
  }

  lemma StepPool(s: State, a: Action)
    requires Enabled(s, a)
    ensures if a.TakeGroup? then s.pool != [] && Apply(s, a).pool == s.pool[1..] else s.pool <= Apply(s, a).pool
  {}

  lemma StepBuckets(s: State, a: Action)
    requires Enabled(s, a)
    ensures if a.OpenSink? then s.buckets != [] && Apply(s, a).buckets == s.buckets[1..]
      else s.buckets <= Apply(s, a).buckets
  {}

  /** Groups leave their pool in the order in which they have come to it: what is there is taken first. */
  lemma {:induction false} GroupsQueue(s: State, actions: seq<Action>)
    requires Run(s, actions).Some? && Takes(actions) <= |s.pool|
    ensures s.pool[Takes(actions)..] <= Run(s, actions).value.pool
    decreases |actions|
  {
    hide Apply, Enabled;
    if actions != [] {
      StepPool(s, actions[0]);
      GroupsQueue(Apply(s, actions[0]), actions[1..]);
    }
  }

  /** And so do buckets. */
  lemma {:induction false} BucketsQueue(s: State, actions: seq<Action>)
    requires Run(s, actions).Some? && Opens(actions) <= |s.buckets|
    ensures s.buckets[Opens(actions)..] <= Run(s, actions).value.buckets
    decreases |actions|
  {
    hide Apply, Enabled;
    if actions != [] {
      StepBuckets(s, actions[0]);
      BucketsQueue(Apply(s, actions[0]), actions[1..]);
    }
  }
}
