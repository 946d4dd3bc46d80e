/** The pipeline always comes to rest, and every accepted packet can be brought into a finished file. */
module PipelineDrains {
  import opened Common
  import opened Pipeline
  import opened PipelineInv
  import opened PipelineReceiver
  import opened PipelineSafety
  import opened PipelineProgress

  // ---------------------------------------------------------------- how much there is to do

  function SaverRank(c: SaverPc): nat {
    match c
    case Waiting => 0
    case Saved(_) => 1
    case Holding(_) => 2
  }

  function WriterRank(l: Lane): nat {
    match l.pc
    case Idle => if l.file.Some? then 6 else 0
    case Deciding => if l.flush then 5 else 10
    case Written(_) => 11
    case Ready(_) => 12
    case Got(_) => 13
  }

  /** More than the steps a lane can take before it needs a new group or its timer. */
  function Rank(l: Lane): nat { 20 * |l.work| + WriterRank(l) + 3 * |l.chunks| + SaverRank(l.saver) }

  function Work(s: State): nat
    requires |s.lanes| == LANES
  {
    Rank(s.lanes[0]) + Rank(s.lanes[1]) + Rank(s.lanes[2]) + Rank(s.lanes[3])
  }

  /** What one of the two writers of lane `w` does. */
  predicate LaneAction(a: Action, w: nat) { WriterAction(a, w) || SaverAction(a, w) }

  /** `t` is `s` but for lane `w`, which has less to do. */
  predicate LaneWorked(s: State, t: State, w: nat) {
    && LaneOf(s, w) && |t.lanes| == LANES && Rank(t.lanes[w]) < Rank(s.lanes[w])
    && forall v :: 0 <= v < LANES && v != w ==> t.lanes[v] == s.lanes[v]
  }

  lemma WriterActionWorks(s: State, a: Action, w: nat)
    requires Enabled(s, a) && WriterAction(a, w)
    ensures LaneWorked(s, Apply(s, a), w)
  {}

  lemma SaverActionWorks(s: State, a: Action, w: nat)
    requires Enabled(s, a) && SaverAction(a, w)
    ensures LaneWorked(s, Apply(s, a), w)
  {}

  /** A lane's step changes no other lane and leaves the lane less to do. */
  lemma LaneActionWorks(s: State, a: Action, w: nat)
    requires Enabled(s, a) && LaneAction(a, w)
    ensures LaneWorked(s, Apply(s, a), w)
  {
    hide Enabled, Apply, LaneWorked, WriterAction, SaverAction;
    if WriterAction(a, w) {
      WriterActionWorks(s, a, w);
    } else {
      SaverActionWorks(s, a, w);
    }
  }

  lemma LaneActionKeeps(s: State, a: Action, w: nat)
    requires Enabled(s, a) && LaneAction(a, w)
    ensures var t := Apply(s, a);
      t.hold == s.hold && t.pc == s.pc && t.turn == s.turn && t.flush == s.flush && t.groups == s.groups
        && t.accepted == s.accepted
  {}

  lemma WorkShrinks(s: State, a: Action, w: nat)
    requires Enabled(s, a) && LaneAction(a, w)
    ensures |s.lanes| == LANES == |Apply(s, a).lanes| && Work(Apply(s, a)) < Work(s)
  {
    hide Enabled, Apply, Rank, LaneAction;
    LaneActionWorks(s, a, w);
  }

  ghost predicate OfSomeLane(a: Action) { exists w :: LaneAction(a, w) }

  ghost predicate LanesOnly(actions: seq<Action>) { forall i :: 0 <= i < |actions| ==> OfSomeLane(actions[i]) }

  /**
    The writers cannot go on for ever by themselves: between two deeds of the receiver or a timer they take no more
    steps than there is work.
   */
  lemma {:induction false} RunsAreBounded(s: State, actions: seq<Action>)
    requires |s.lanes| == LANES && LanesOnly(actions) && Run(s, actions).Some?
    ensures var t := Run(s, actions).value; |t.lanes| == LANES && |actions| + Work(t) <= Work(s)
    decreases |actions|
  {
    hide Enabled, Apply, LaneAction, Work;
    if actions != [] {
      assert OfSomeLane(actions[0]);
      var w :| LaneAction(actions[0], w);
      WorkShrinks(s, actions[0], w);
      assert forall i :: 0 <= i < |actions[1..]| ==> actions[1..][i] == actions[i + 1];
      RunsAreBounded(Apply(s, actions[0]), actions[1..]);
    }
  }

  // ---------------------------------------------------------------- coming to rest

  /** A lane with no step of its own to take. */
  predicate AtRest(l: Lane) { NoGroup(l) && Pending(l) == [] && (l.file.Some? ==> !l.flush) }

  /** While some lane is not at rest, a step of a lane is possible. */
  lemma RestlessMoves(s: State, w: nat) returns (a: Action, v: nat)
    requires Reachable(s) && LaneOf(s, w) && !AtRest(s.lanes[w])
    ensures Enabled(s, a) && LaneAction(a, v) && Succeeds(s, a)
  {
    hide Reachable;
    if !NoGroup(s.lanes[w]) {
      a, v := WriterMoves(s, w);
      if WriterAction(a, w) {
        v := w;
      } else if SaverAction(a, w) {
        v := w;
      }
    } else if Pending(s.lanes[w]) != [] {
      a := SaverMoves(s, w);
      v := w;
    } else {
      a, v := FlushIdle(w), w;
    }
  }

  predicate AllIntact(stored: seq<Stored>) { forall i :: 0 <= i < |stored| ==> stored[i].intact }

  predicate LaneIntact(l: Lane) { !l.broken && AllIntact(l.stored) }

  /** No file has failed, neither a finished one nor one being written. */
  predicate NothingFailed(s: State) { |s.lanes| == LANES && forall w :: 0 <= w < LANES ==> LaneIntact(s.lanes[w]) }

  /** What is recorded of the files of lane `v` is the same. */
  predicate SameFiles(s: State, t: State, v: nat)
    requires LaneOf(s, v)
  {
    |t.lanes| == LANES && t.lanes[v].broken == s.lanes[v].broken && t.lanes[v].stored == s.lanes[v].stored
  }

  lemma WriterKeepsFiles(s: State, a: Action, w: nat, v: nat)
    requires Enabled(s, a) && WriterAction(a, w) && LaneOf(s, v)
    ensures SameFiles(s, Apply(s, a), v)
  {}

  lemma OthersKeepFiles(s: State, a: Action, v: nat)
    requires Enabled(s, a) && LaneOf(s, v)
    requires ReceiverAction(a) || a.ReceiverTimer? || a.WriterTimer? || a.ReadChunk?
    ensures SameFiles(s, Apply(s, a), v)
  {}

  /** Only writing a chunk and finishing with it touch what is recorded of the files. */
  lemma FilesStay(s: State, a: Action, v: nat)
    requires Enabled(s, a) && !a.Save? && !a.Release? && LaneOf(s, v)
    ensures SameFiles(s, Apply(s, a), v)
  {
    hide Enabled, Apply, SameFiles;
    if ReceiverAction(a) || a.ReceiverTimer? || a.WriterTimer? || a.ReadChunk? {
      OthersKeepFiles(s, a, v);
    } else {
      WriterKeepsFiles(s, a, a.w, v);
    }
  }

  lemma SaveSucceeds(s: State, a: Action, v: nat)
    requires Enabled(s, a) && a.Save? && Succeeds(s, a) && LaneOf(s, v)
    ensures SameFiles(s, Apply(s, a), v)
  {}

  lemma ReleaseStores(s: State, a: Action, v: nat)
    requires Enabled(s, a) && a.Release? && LaneOf(s, v) && LaneIntact(s.lanes[v])
    ensures var t := Apply(s, a); |t.lanes| == LANES && LaneIntact(t.lanes[v])
  {}

  /** As long as every write succeeds, nothing fails. */
  lemma SuccessKeeps(s: State, a: Action)
    requires Enabled(s, a) && Succeeds(s, a) && NothingFailed(s)
    ensures NothingFailed(Apply(s, a))
  {
    hide Enabled, Apply, Succeeds, LaneIntact;
    LaneStaysIntact(s, a, 0);
    forall v | 0 <= v < LANES ensures |Apply(s, a).lanes| == LANES && LaneIntact(Apply(s, a).lanes[v]) {
      LaneStaysIntact(s, a, v);
    }
  }

  lemma LaneStaysIntact(s: State, a: Action, v: nat)
    requires Enabled(s, a) && Succeeds(s, a) && LaneOf(s, v) && LaneIntact(s.lanes[v])
    ensures |Apply(s, a).lanes| == LANES && LaneIntact(Apply(s, a).lanes[v])
  {
    hide Enabled, Apply, Succeeds;
    if a.Release? {
      ReleaseStores(s, a, v);
    } else if a.Save? {
      SaveSucceeds(s, a, v);
    } else {
      FilesStay(s, a, v);
    }
  }

  /** `t` comes after `s`, with no packet arriving in between. */
  ghost predicate LeadsTo(s: State, t: State) {
    exists actions :: NoArrivals(actions) && Run(s, actions) == Some(t)
  }

  ghost predicate NoArrivals(actions: seq<Action>) { forall i :: 0 <= i < |actions| ==> !actions[i].Receive? }

  lemma LeadsToItself(s: State)
    ensures LeadsTo(s, s)
  {
    assert NoArrivals([]) && Run(s, []) == Some(s);
  }

  lemma LeadsOn(s: State, t: State, a: Action) returns (t': State)
    requires Reachable(t) && LeadsTo(s, t) && Enabled(t, a) && !a.Receive? && Succeeds(t, a)
    ensures Reachable(t') && LeadsTo(s, t') && t' == Apply(t, a)
    ensures NothingFailed(t) ==> NothingFailed(t')
  {
    hide Reachable, Enabled, Apply, Run, Succeeds, NothingFailed;
    t' := Steps(t, a);
    if NothingFailed(t) {
      SuccessKeeps(t, a);
    }
    var actions :| NoArrivals(actions) && Run(s, actions) == Some(t);
    RunAppend(s, actions, a);
    assert NoArrivals(actions + [a]) && Run(s, actions + [a]) == Some(t');
  }

  /** A lane that closes its file before it rests: it has none, or is asked to flush. */
  predicate Closing(l: Lane) {
    l.work == [] && (l.pc.Idle? || (l.pc.Deciding? && l.flush)) && (l.file.Some? ==> l.flush)
  }

  lemma ClosingStays(s: State, a: Action, w: nat, v: nat)
    requires Enabled(s, a) && LaneAction(a, w) && v < LANES && Closing(s.lanes[v])
    ensures |Apply(s, a).lanes| == LANES && Closing(Apply(s, a).lanes[v])
  {
    LaneActionWorks(s, a, w);
  }

  /** What the lanes do not touch. */
  predicate SameReceiver(s: State, t: State) {
    t.hold == s.hold && t.pc == s.pc && t.turn == s.turn && t.flush == s.flush && t.groups == s.groups
      && t.accepted == s.accepted
  }

  predicate AllAtRest(s: State) { |s.lanes| == LANES && forall w :: 0 <= w < LANES ==> AtRest(s.lanes[w]) }

  lemma {:induction false} Settle(s0: State, s: State) returns (t: State)
    requires Reachable(s) && LeadsTo(s0, s) && |s.lanes| == LANES
    ensures Reachable(t) && LeadsTo(s0, t) && AllAtRest(t) && SameReceiver(s, t)
    ensures forall v :: 0 <= v < LANES && Closing(s.lanes[v]) ==> Closing(t.lanes[v])
    ensures NothingFailed(s) ==> NothingFailed(t)
    decreases Work(s)
  {
    hide Reachable, LeadsTo, Succeeds, NothingFailed, AtRest, Closing, Enabled, Apply, LaneAction, Work;
    if w :| 0 <= w < LANES && !AtRest(s.lanes[w]) {
      var a, v := RestlessMoves(s, w);
      LaneIsNoArrival(a, v);
      var s1 := LeadsOn(s0, s, a);
      WorkShrinks(s, a, v);
      LaneActionKeeps(s, a, v);
      forall u | 0 <= u < LANES && Closing(s.lanes[u]) ensures Closing(s1.lanes[u]) {
        ClosingStays(s, a, v, u);
      }
      t := Settle(s0, s1);
    } else {
      t := s;
    }
  }

  lemma LaneIsNoArrival(a: Action, w: nat)
    requires LaneAction(a, w)
    ensures !a.Receive?
  {}

  // ---------------------------------------------------------------- storing everything

  /** A receiver that holds packets comes to the point where it looks for a ring. */
  lemma ComesToScan(s0: State, s: State) returns (t: State)
    requires Reachable(s) && LeadsTo(s0, s) && |s.lanes| == LANES
    requires s.hold.Some? && s.hold.value < |s.groups| && s.groups[s.hold.value].rows != []
    ensures Reachable(t) && LeadsTo(s0, t) && t.pc.Scanning?
    ensures t == s.(pc := t.pc, flush := t.flush)
    ensures NothingFailed(s) ==> NothingFailed(t)
  {
    hide Reachable, LeadsTo;
    t := s;
    if t.pc.Receiving? {
      t := LeadsOn(s0, t, ReceiveNothing);
    }
    if t.pc.Checking? {
      t := LeadsOn(s0, t, ReceiverTimer);
      t := LeadsOn(s0, t, Check);
    }
  }

  /** With the rings empty, a receiver that holds packets can hand them over. */
  lemma HandOver(s0: State, s: State) returns (t: State)
    requires Reachable(s) && LeadsTo(s0, s) && AllAtRest(s)
    ensures Reachable(t) && LeadsTo(s0, t) && |t.lanes| == LANES && t.accepted == s.accepted
    ensures t.hold.Some? ==> t.hold.value < |t.groups| && t.groups[t.hold.value].rows == []
    ensures NothingFailed(s) ==> NothingFailed(t)
  {
    HeldExists(s);
    hide Reachable, LeadsTo;
    t := s;
    if s.hold.Some? && s.groups[s.hold.value].rows != [] {
      t := ComesToScan(s0, s);
      assert AtRest(t.lanes[t.turn % LANES]);
      t := LeadsOn(s0, t, TryRing);
    }
  }

  lemma HeldExists(s: State)
    requires Reachable(s)
    ensures |s.lanes| == LANES && (s.hold.Some? ==> s.hold.value < |s.groups|)
  {
    ReachableInv(s);
    LanesAndReceiver(s);
    hide Inv, Reachable;
  }

  /** The timer of a parquet writer with an open file asks for it to be closed; without one it does nothing. */
  lemma AskOne(s0: State, s: State, w: nat) returns (t: State)
    requires Reachable(s) && LeadsTo(s0, s) && LaneOf(s, w) && AtRest(s.lanes[w])
    ensures Reachable(t) && LeadsTo(s0, t) && |t.lanes| == LANES && SameReceiver(s, t)
    ensures Closing(t.lanes[w]) && forall v :: 0 <= v < LANES && v != w ==> t.lanes[v] == s.lanes[v]
    ensures NothingFailed(s) ==> NothingFailed(t)
  {
    hide Reachable, LeadsTo, NothingFailed;
    t := s;
    if s.lanes[w].file.Some? {
      t := LeadsOn(s0, s, WriterTimer(w));
    }
  }

  /** The timers ask every lane to close its file. */
  lemma AskToClose(s0: State, s: State) returns (t: State)
    requires Reachable(s) && LeadsTo(s0, s) && AllAtRest(s)
    ensures Reachable(t) && LeadsTo(s0, t) && |t.lanes| == LANES && SameReceiver(s, t)
    ensures forall w :: 0 <= w < LANES ==> Closing(t.lanes[w])
    ensures NothingFailed(s) ==> NothingFailed(t)
  {
    hide Reachable, LeadsTo, NothingFailed, AtRest, Closing;
    t := AskOne(s0, s, 0);
    t := AskOne(s0, t, 1);
    t := AskOne(s0, t, 2);
    t := AskOne(s0, t, 3);
  }

  /** Nothing is on its way: every accepted packet is in a finished file. */
  predicate NothingPending(s: State) {
    && |s.lanes| == LANES && (s.hold.Some? ==> s.hold.value < |s.groups| && s.groups[s.hold.value].rows == [])
    && forall w :: 0 <= w < LANES ==> NoGroup(s.lanes[w]) && Pending(s.lanes[w]) == [] && s.lanes[w].file.None?
  }

  /** Nothing is on its way, and nothing failed on the way. */
  predicate AllIsStored(s: State) { NothingPending(s) && forall w :: 0 <= w < LANES ==> AllIntact(s.lanes[w].stored) }

  /**
    From every reachable state the pipeline can store all it has accepted, without waiting for another packet; and if
    nothing has failed so far, nothing need fail.
   */
  lemma EverythingCanBeStored(s: State) returns (t: State)
    requires Reachable(s)
    ensures Reachable(t) && LeadsTo(s, t) && t.accepted == s.accepted && NothingPending(t)
    ensures NothingFailed(s) ==> AllIsStored(t)
  {
    HeldExists(s);
    LeadsToItself(s);
    hide Reachable, LeadsTo, Closing, AtRest;
    t := Settle(s, s);
    t := HandOver(s, t);
    t := Settle(s, t);
    t := AskToClose(s, t);
    t := Settle(s, t);
    forall w | 0 <= w < LANES ensures NoGroup(t.lanes[w]) && Pending(t.lanes[w]) == [] && t.lanes[w].file.None? {
      RestsClosed(t.lanes[w]);
    }
  }

  lemma RestsClosed(l: Lane)
    requires AtRest(l) && Closing(l)
    ensures NoGroup(l) && Pending(l) == [] && l.file.None?
  {}
}
