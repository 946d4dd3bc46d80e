/** A run in which one file writer gives two files the same name. */
module FileClash {
  import opened Common
  import opened Pipeline
  import opened PipelineSafety
  import opened FileStore

  /** A lane with nothing to do. */
  predicate Rests(l: Lane) { l == EMPTY_LANE.(stored := l.stored) }

  /** Everything is in its pool. */
  ghost predicate Quiet(s: State) {
    && |s.groups| == 8 && |s.mem| == 8 && |s.lanes| == LANES && s.hold.None? && s.pc.Receiving? && !s.flush
    && |s.pool| == 8 && (forall g :: g in s.pool ==> g < 8) && |s.buckets| == 8
      && (forall b :: b in s.buckets ==> b < 8)
    && forall w :: 0 <= w < LANES ==> Rests(s.lanes[w])
  }

  /** The group after one packet. */
  function OneRow(p: Packet): Group { Group([p], p.Second(), p.Second()) }

  /** One packet is received, and its group handed to the next lane. */
  lemma ReceiveOne(s: State, p: Packet) returns (t: State)
    requires Reachable(s) && Quiet(s)
    ensures Reachable(t) && s.pool[0] < 8
    ensures var w, g := s.turn % LANES, s.pool[0];
      t == s.(pool := s.pool[1..], groups := s.groups[g := OneRow(p)], turn := s.turn + 1, accepted := s.accepted + [p],
              lanes := s.lanes[w := s.lanes[w].(work := [g])])
  {
    hide Reachable;
    var w, g := s.turn % LANES, s.pool[0];
    assert g in s.pool;
    t := Steps(s, TakeGroup);
    t := Steps(t, Receive(p));
    assert t.groups == s.groups[g := OneRow(p)] by {
      assert [] + [p] == [p];
    }
    t := Steps(t, ReceiverTimer);
    t := Steps(t, Check);
    assert s.lanes[w].work + [g] == [g];
    t := Steps(t, TryRing);
  }

  /** The lane encodes it into a new file, which the timer then closes. */
  lemma WriteOne(s: State, w: nat, g: nat) returns (t: State)
    requires Reachable(s) && LaneOf(s, w) && g < |s.groups| && |s.mem| == 8 && |s.pool| < 8
    requires s.lanes[w] == EMPTY_LANE.(work := [g], stored := s.lanes[w].stored)
    requires s.buckets != [] && s.buckets[0] < 8 && s.room <= MAX_PACKET_GROUP_SIZE
    ensures Reachable(t)
    ensures var b, gr := s.buckets[0], s.groups[g];
      var c := Chunk(b, 0, 0, true, gr.start, gr.end, [Block(gr.rows, [])], []);
      t == s.(pool := s.pool + [g], buckets := s.buckets[1..], mem := s.mem[b := []],
              lanes := s.lanes[w := s.lanes[w].(work := [], chunks := [c])])
  {
    hide Reachable;
    var l, b, gr := s.lanes[w], s.buckets[0], s.groups[g];
    assert [g][1..] == [];
    t := Steps(s, ReadWork(w));
    assert t == s.(lanes := s.lanes[w := l.(work := [], pc := Got(g))]);
    t := OpenAndAppend(t, w, g);
    assert t.lanes == s.lanes[w := l.(work := [], pc := Written(g),
                                      file := Some(OpenFile(b, 0, [Block(gr.rows, [])], gr.start, gr.end)))];
    t := CloseIt(t, w, g);
    assert t.lanes == s.lanes[w := l.(work := [],
                                      chunks := [Chunk(b, 0, 0, true, gr.start, gr.end, [Block(gr.rows, [])], [])])];
  }

  lemma OpenAndAppend(s: State, w: nat, g: nat) returns (t: State)
    requires Reachable(s) && LaneOf(s, w) && g < |s.groups| && |s.mem| == 8
    requires s.lanes[w] == EMPTY_LANE.(pc := Got(g), stored := s.lanes[w].stored)
    requires s.buckets != [] && s.buckets[0] < 8 && s.room <= MAX_PACKET_GROUP_SIZE
    ensures Reachable(t)
    ensures var b, gr := s.buckets[0], s.groups[g];
      t == s.(buckets := s.buckets[1..], mem := s.mem[b := []],
              lanes := s.lanes[w := s.lanes[w].(pc := Written(g),
                                                file := Some(OpenFile(b, 0, [Block(gr.rows, [])], gr.start, gr.end)))])
  {
    hide Reachable;
    var l, b, gr := s.lanes[w], s.buckets[0], s.groups[g];
    t := Steps(s, OpenSink(w));
    assert [] + [Block(gr.rows, [])] == [Block(gr.rows, [])] && t.mem[b] + [] == [];
    t := Steps(t, Append(w, []));
    assert t.mem == s.mem[b := []];
    assert t.lanes == s.lanes[w := l.(pc := Written(g),
                                      file := Some(OpenFile(b, 0, [Block(gr.rows, [])], gr.start, gr.end)))];
  }

  lemma CloseIt(s: State, w: nat, g: nat) returns (t: State)
    requires Reachable(s) && LaneOf(s, w) && |s.pool| < 8 && s.lanes[w].file.Some?
    requires var f := s.lanes[w].file.value;
      && f.bucket < |s.mem| && s.mem[f.bucket] == [] && f.flushed == 0
      && s.lanes[w] == EMPTY_LANE.(pc := Written(g), file := Some(f), stored := s.lanes[w].stored)
    ensures Reachable(t)
    ensures var f := s.lanes[w].file.value;
      t == s.(pool := s.pool + [g],
              lanes := s.lanes[w := EMPTY_LANE.(stored := s.lanes[w].stored,
                                                chunks := [Chunk(f.bucket, 0, 0, true, f.start, f.end, f.blocks, [])])])
  {
    hide Reachable;
    var l, f := s.lanes[w], s.lanes[w].file.value;
    t := Steps(s, PutBack(w));
    assert t == s.(pool := s.pool + [g], lanes := s.lanes[w := l.(pc := Deciding)]);
    t := Steps(t, WriterTimer(w));
    assert t == s.(pool := s.pool + [g], lanes := s.lanes[w := l.(pc := Deciding, flush := true)]);
    var u := FlushIt(t, w);
    assert u.lanes == s.lanes[w := u.lanes[w]];
    t := u;
  }

  lemma FlushIt(s: State, w: nat) returns (t: State)
    requires Reachable(s) && LaneOf(s, w) && s.lanes[w].file.Some?
    requires var f := s.lanes[w].file.value;
      && f.bucket < |s.mem| && s.mem[f.bucket] == [] && f.flushed == 0
      && s.lanes[w] == EMPTY_LANE.(pc := Deciding, flush := true, file := Some(f), stored := s.lanes[w].stored)
    ensures Reachable(t)
    ensures var f := s.lanes[w].file.value;
      t == s.(lanes := s.lanes[w := EMPTY_LANE.(stored := s.lanes[w].stored,
                                                chunks := [Chunk(f.bucket, 0, 0, true, f.start, f.end, f.blocks, [])])])
  {
    hide Reachable;
    var f := s.lanes[w].file.value;
    var c := Chunk(f.bucket, 0, 0, true, f.start, f.end, f.blocks, []);
    assert s.mem[f.bucket] + [] == [] && [] + [c] == [c];
    t := Steps(s, Flush(w, []));
    assert t.mem == s.mem;
  }

  /** The file of a chunk that is all there is of it, and empty. */
  function Only(c: Chunk): Stored { Stored(c.start, c.end, Some(TimesOf(c)), [], c.blocks, c.footer, [c], true) }

  /** The lane while that file is open. */
  function Opening(stored: seq<Stored>, c: Chunk): Lane {
    EMPTY_LANE.(saver := Saved(c), under := Some(TimesOf(c)), out := Some([]), stored := stored)
  }

  /** The file writer opens the file and writes it. */
  lemma OpenOne(s: State, w: nat, c: Chunk) returns (t: State)
    requires Reachable(s) && LaneOf(s, w) && c.offset == c.length == 0 && c.bucket < |s.mem|
    requires s.lanes[w] == EMPTY_LANE.(chunks := [c], stored := s.lanes[w].stored)
    ensures Reachable(t) && t == s.(lanes := s.lanes[w := Opening(s.lanes[w].stored, c)])
  {
    hide Reachable;
    var l := s.lanes[w];
    assert [c][1..] == [];
    t := Steps(s, ReadChunk(w));
    assert t == s.(lanes := s.lanes[w := l.(chunks := [], saver := Holding(c))]);
    assert [] + s.mem[c.bucket][0..0] == [];
    t := Steps(t, Save(w, true, 0));
  }

  /** It closes and renames it. */
  lemma ReleaseOne(s: State, w: nat, c: Chunk) returns (t: State)
    requires Reachable(s) && LaneOf(s, w) && c.last && |s.buckets| < 8
    requires s.lanes[w] == Opening(s.lanes[w].stored, c)
    ensures Reachable(t)
    ensures t == s.(buckets := s.buckets + [c.bucket],
              lanes := s.lanes[w := EMPTY_LANE.(stored := s.lanes[w].stored + [Only(c)])])
  {
    hide Reachable;
    assert [] + [c] == [c];
    t := Steps(s, Release(w));
  }

  /** From a quiet state to the next, with one packet written into a file that the lane whose turn it was has open. */
  lemma OneOpen(s: State, p: Packet) returns (t: State, c: Chunk)
    requires Reachable(s) && Quiet(s) && s.room <= MAX_PACKET_GROUP_SIZE
    ensures Reachable(t) && c.last && c.start == c.end == p.Second() && c.bucket == s.buckets[0]
    ensures var w, g, b := s.turn % LANES, s.pool[0], s.buckets[0];
      && g < 8 && b < 8
      && t == s.(pool := s.pool[1..] + [g], buckets := s.buckets[1..], turn := s.turn + 1,
                 groups := s.groups[g := OneRow(p)],
                 mem := s.mem[b := []], accepted := s.accepted + [p],
                   lanes := s.lanes[w := Opening(s.lanes[w].stored, c)])
  {
    hide Reachable;
    var w, g, b := s.turn % LANES, s.pool[0], s.buckets[0];
    assert g in s.pool && b in s.buckets;
    t := ReceiveOne(s, p);
    t := WriteOne(t, w, g);
    c := t.lanes[w].chunks[0];
    t := OpenOne(t, w, c);
    assert t.lanes == s.lanes[w := Opening(s.lanes[w].stored, c)];
  }

  /** From a quiet state to the next, with one file more in the lane whose turn it was. */
  lemma OneFile(s: State, p: Packet) returns (t: State)
    requires Reachable(s) && Quiet(s) && s.room <= MAX_PACKET_GROUP_SIZE
    ensures Reachable(t) && Quiet(t) && t.room == s.room && t.turn == s.turn + 1
    ensures var w := s.turn % LANES;
      && (forall v :: 0 <= v < LANES && v != w ==> t.lanes[v] == s.lanes[v])
      && exists r :: t.lanes[w].stored == s.lanes[w].stored + [r] && Bears(r, p)
  {
    hide Reachable;
    var w, g, b := s.turn % LANES, s.pool[0], s.buckets[0];
    assert g in s.pool && b in s.buckets;
    var u, c := OneOpen(s, p);
    t := ReleaseOne(u, w, c);
    assert t.lanes[w].stored == s.lanes[w].stored + [Only(c)] && Bears(Only(c), p);
    assert t.pool == s.pool[1..] + [g] && t.buckets == s.buckets[1..] + [b];
    assert forall x :: x in t.pool ==> x in s.pool;
    assert forall x :: x in t.buckets ==> x in s.buckets;
    assert forall v :: 0 <= v < LANES ==> Rests(t.lanes[v]);
  }

  /** The file was opened and named with the second of `p` alone, and holds what it should. */
  predicate Bears(r: Stored, p: Packet) {
    r.under == Some(FinalTimes(r)) && FinalTimes(r) == Times(p.Second(), p.Second()) && r.intact
  }

  /** Four packets of one second, each in a file of its own. */
  lemma FourFiles(p: Packet) returns (s: State)
    ensures Reachable(s) && Quiet(s) && s.room == 0 && s.turn == 4
    ensures |s.lanes[0].stored| == 1 && Bears(s.lanes[0].stored[0], p)
  {
    s := Init(0);
    assert Run(s, []) == Some(s);
    hide Reachable, Run;
    s := OneFile(s, p);
    s := OneFile(s, p);
    s := OneFile(s, p);
    s := OneFile(s, p);
  }

  /** After a fifth the first lane has two files of one interval, of which one is not found. */
  lemma NamesCanClash(p: Packet, dir: string) returns (s: State)
    requires '-' !in dir
    ensures Reachable(s) && |s.lanes| == LANES && !LaneFound(dir, 0, s.lanes[0])
    ensures |s.lanes[0].stored| == 2 && s.lanes[0].stored[0].intact && s.lanes[0].stored[1].intact
      && s.lanes[0].under.None?
  {
    s := FourFiles(p);
    hide Reachable, LaneFound, LaneClear;
    s := OneFile(s, p);
    StoredAreFoundExactly(s, 0, dir);
    SecondClashes(s.lanes[0]);
  }

  lemma SecondClashes(l: Lane)
    requires |l.stored| == 2 && l.stored[1].under.Some? && l.stored[0].under.Some?
    requires FinalTimes(l.stored[0]) == FinalTimes(l.stored[1])
    ensures !LaneClear(l)
  {}

  /** Already when the fifth file has been opened, the first one has gone, and nothing else is there under its name. */
  lemma OpeningCanReplace(p: Packet, dir: string) returns (s: State)
    requires '-' !in dir
    ensures Reachable(s) && |s.lanes| == LANES && !LaneFound(dir, 0, s.lanes[0])
    ensures |s.lanes[0].stored| == 1 && s.lanes[0].stored[0].intact && !s.lanes[0].broken
  {
    s := FourFiles(p);
    hide Reachable, LaneFound, LaneClear;
    var c;
    s, c := OneOpen(s, p);
    StoredAreFoundExactly(s, 0, dir);
    OpenClashes(s.lanes[0]);
  }

  lemma OpenClashes(l: Lane)
    requires |l.stored| == 1 && l.stored[0].under.Some? && l.under == Some(FinalTimes(l.stored[0]))
    ensures !LaneClear(l)
  {}
}
