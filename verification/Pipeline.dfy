/**
  The receive pipeline as a transition system: one receiver thread, four
  parquet writers and four file writers, joined by rings and by two pools.
  One action is one thread's step between two points where other threads can
  act; whatever the environment decides is an argument of the action.
 */
module Pipeline {
  import opened Common

  /** A received packet; `time` is seconds and a fraction as a 32.32 fixed-point number. */
  datatype Packet = Packet(time: u64, sip: u32, dip: u32, sport: word, dport: word, dsize: word, proto: word,
                           payload: seq<octet>)
  {
    function Second(): nat { time / 0x1_0000_0000 }
  }

  // ---------------------------------------------------------------- constants

  const MAX_PACKET_COUNT := 100000
  const MAX_PACKET_GROUP_SIZE := 0x0A00_0000
  const MAX_PARQUET_FILE_SIZE := 0x4000_0000
  const PARQUET_FILE_CHUNK_SIZE := 0x2000_0000
  const PARQUET_FILE_FLUSH_SIZE := MAX_PARQUET_FILE_SIZE - MAX_PACKET_GROUP_SIZE
  const LANES := 4
  const WORK_RING_CACHE_COUNT := 2
  const PARQUET_FILE_CHUNK_COUNT := WORK_RING_CACHE_COUNT * (MAX_PARQUET_FILE_SIZE / PARQUET_FILE_CHUNK_SIZE)
  const PACKET_GROUP_COUNT := WORK_RING_CACHE_COUNT * LANES
  const PARQUET_MEM_COUNT := WORK_RING_CACHE_COUNT * LANES

  // ---------------------------------------------------------------- state

  /** A packet group: its rows and the least and greatest second among them. */
  datatype Group = Group(rows: seq<Packet>, start: int, end: int)

  /** A row group as it was encoded into a file. */
  datatype Block = Block(rows: seq<Packet>, bytes: seq<octet>)

  /** A file being built in a bucket; `blocks` records what was encoded into it. */
  datatype OpenFile = OpenFile(bucket: nat, flushed: nat, blocks: seq<Block>, start: int, end: int)

  /**
    A piece of a file handed to the file writer. Only the last one owns the bucket;
    its `blocks` and `footer` record what the whole file holds.
   */
  datatype Chunk = Chunk(bucket: nat, offset: nat, length: nat, last: bool, start: int, end: int, blocks: seq<Block>,
                         footer: seq<octet>)

  /** The interval in a file's name. */
  datatype Times = Times(start: int, end: int)

  function TimesOf(c: Chunk): Times { Times(c.start, c.end) }

  /**
    A file a file writer is done with: the interval it was to be renamed to, the one it was opened under if it could be
    opened at all, what was written, and the record of what should have been.
   */
  datatype Stored = Stored(
    start: int, end: int, under: Option<Times>, content: seq<octet>,
    blocks: seq<Block>, footer: seq<octet>, pieces: seq<Chunk>, intact: bool)

  /** Where a parquet writer stands, and the group it holds. */
  datatype WriterPc = Idle | Got(group: nat) | Ready(group: nat) | Written(group: nat) | Deciding

  /** Where a file writer stands, and the chunk it holds. */
  datatype SaverPc = Waiting | Holding(chunk: Chunk) | Saved(chunk: Chunk)

  /**
    A parquet writer, the ring that feeds it, and the file writer it feeds. `out` is what is written of the file that is
    open, and `under` the interval in the name it was opened under.
   */
  datatype Lane = Lane(
    work: seq<nat>, pc: WriterPc, file: Option<OpenFile>, flush: bool,
    chunks: seq<Chunk>, saver: SaverPc, under: Option<Times>, out: Option<seq<octet>>, broken: bool,
    pieces: seq<Chunk>, stored: seq<Stored>)

  /** `before` records how many groups each ring held when the scan began. */
  datatype ReceiverPc = Receiving | Checking | Scanning(tries: nat, before: seq<nat>)

  /**
    `pool` and `buckets` are the two resource pools, `groups` and `mem` what the groups and buckets hold.
    `room` bounds a file's footer; `accepted` records every packet taken in.
   */
  datatype State = State(
    room: nat, pool: seq<nat>, buckets: seq<nat>, groups: seq<Group>, mem: seq<seq<octet>>,
    hold: Option<nat>, pc: ReceiverPc, flush: bool, turn: nat, lanes: seq<Lane>, accepted: seq<Packet>)

  const LLONG_MAX := 0x7fff_ffff_ffff_ffff
  const LLONG_MIN := -0x8000_0000_0000_0000

  const EMPTY_LANE := Lane([], Idle, None, false, [], Waiting, None, None, false, [], [])

  /** What `Configs::init` sets up: all groups and buckets in their pools, all rings empty. */
  function Init(room: nat): State {
    State(room, seq(8, i => i), seq(8, i => i), seq(8, _ => Group([], LLONG_MAX, LLONG_MIN)), seq(8, _ => []),
          None, Receiving, false, 0, [EMPTY_LANE, EMPTY_LANE, EMPTY_LANE, EMPTY_LANE], [])
  }

  // ---------------------------------------------------------------- actions

  datatype Action =
    | TakeGroup                               // the receiver takes an empty group from the pool
    | Receive(packet: Packet)                 // a packet arrives
    | ReceiveNothing                          // the receive call times out
    | ReceiverTimer                           // the timer asks for a flush
    | Check                                   // the end of `recv_packet`: flush or go on
    | TryRing                                 // one enqueue attempt of the round-robin scan
    | ReadWork(w: nat)                        // a parquet writer takes a group from its ring
    | FlushIdle(w: nat)                       // ... or finds none and a flush asked for
    | OpenSink(w: nat)                        // it takes a bucket for a new file
    | JoinSink(w: nat)                        // ... or goes on with the open one
    | Append(w: nat, bytes: seq<octet>)       // it encodes the group into the bucket
    | PutBack(w: nat)                         // it returns the group to the pool
    | Flush(w: nat, footer: seq<octet>)       // it hands over a chunk if one is due
    | WriterTimer(w: nat)                     // the timer asks for a flush of the file
    | ReadChunk(w: nat)                       // a file writer takes a chunk
    | Save(w: nat, isOpen: bool, count: nat)  // it writes `count` bytes of it, if the file could be opened
    | Release(w: nat)                         // it finishes with the chunk

  predicate LaneOf(s: State, w: nat) { w < LANES && |s.lanes| == LANES }

  function WithLane(s: State, w: nat, l: Lane): State
    requires LaneOf(s, w)
  {
    s.(lanes := s.lanes[w := l])
  }

  predicate Enabled(s: State, a: Action) {
    match a
    case TakeGroup => s.hold.None? && s.pool != [] && s.pool[0] < |s.groups|
    case Receive(_) => s.hold.Some? && s.pc.Receiving? && s.hold.value < |s.groups|
    case ReceiveNothing => s.hold.Some? && s.pc.Receiving?
    case ReceiverTimer => true
    case Check => s.hold.Some? && s.pc.Checking? && s.hold.value < |s.groups| && |s.lanes| == LANES
    case TryRing => s.hold.Some? && s.pc.Scanning? && |s.lanes| == LANES
    case ReadWork(w) => LaneOf(s, w) && s.lanes[w].pc.Idle? && s.lanes[w].work != []
    case FlushIdle(w) =>
      && LaneOf(s, w) && s.lanes[w].pc.Idle? && s.lanes[w].work == [] && s.lanes[w].file.Some? && s.lanes[w].flush
    case OpenSink(w) =>
      && LaneOf(s, w) && s.lanes[w].pc.Got? && s.lanes[w].file.None?
      && s.buckets != [] && s.buckets[0] < |s.mem| && s.lanes[w].pc.group < |s.groups|
    case JoinSink(w) => LaneOf(s, w) && s.lanes[w].pc.Got? && s.lanes[w].file.Some? && s.lanes[w].pc.group < |s.groups|
    case Append(w, bytes) =>
      && LaneOf(s, w) && s.lanes[w].pc.Ready? && s.lanes[w].file.Some? && s.lanes[w].pc.group < |s.groups|
      && s.lanes[w].file.value.bucket < |s.mem| && |bytes| + s.room <= MAX_PACKET_GROUP_SIZE
    case PutBack(w) =>
      && LaneOf(s, w) && s.lanes[w].pc.Written? && |s.pool| < PACKET_GROUP_COUNT
      && s.lanes[w].file.Some? && s.lanes[w].file.value.bucket < |s.mem|
    case Flush(w, footer) =>
      && LaneOf(s, w) && s.lanes[w].pc.Deciding? && s.lanes[w].file.Some? && s.lanes[w].file.value.bucket < |s.mem|
      && |footer| <= s.room && (ChunkDue(s, w) ==> |s.lanes[w].chunks| < PARQUET_FILE_CHUNK_COUNT)
      && s.lanes[w].file.value.flushed <= |s.mem[s.lanes[w].file.value.bucket]|
    case WriterTimer(w) => LaneOf(s, w)
    case ReadChunk(w) => LaneOf(s, w) && s.lanes[w].saver.Waiting? && s.lanes[w].chunks != []
    case Save(w, _, count) =>
      && LaneOf(s, w) && s.lanes[w].saver.Holding?
      && var c := s.lanes[w].saver.chunk;
         count <= c.length && c.bucket < |s.mem| && c.offset + c.length <= |s.mem[c.bucket]|
    case Release(w) =>
      LaneOf(s, w) && s.lanes[w].saver.Saved? && (s.lanes[w].saver.chunk.last ==> |s.buckets| < PARQUET_MEM_COUNT)
  }

  /** A flush is asked for, or a whole chunk is waiting. */
  predicate ChunkDue(s: State, w: nat)
    requires LaneOf(s, w) && s.lanes[w].file.Some? && s.lanes[w].file.value.bucket < |s.mem|
  {
    var f := s.lanes[w].file.value;
    s.lanes[w].flush || |s.mem[f.bucket]| - f.flushed >= PARQUET_FILE_CHUNK_SIZE
  }

  function Apply(s: State, a: Action): State
    requires Enabled(s, a)
  {
    match a
    case TakeGroup => ApplyTakeGroup(s)
    case Receive(packet) => ApplyReceive(s, packet)
    case ReceiveNothing => s.(pc := Checking)
    case ReceiverTimer => s.(flush := true)
    case Check =>
      if s.flush && s.groups[s.hold.value].rows != [] then s.(pc := Scanning(0, WorkCounts(s.lanes)))
      else s.(pc := Receiving)
    case TryRing => ApplyTryRing(s)
    case ReadWork(w) =>
      var l := s.lanes[w];
      WithLane(s, w, l.(work := l.work[1..], pc := Got(l.work[0])))
    case FlushIdle(w) => WithLane(s, w, s.lanes[w].(pc := Deciding))
    case OpenSink(w) => ApplyOpenSink(s, w)
    case JoinSink(w) => ApplyJoinSink(s, w)
    case Append(w, bytes) => ApplyAppend(s, w, bytes)
    case PutBack(w) => ApplyPutBack(s, w)
    case Flush(w, footer) => ApplyFlush(s, w, footer)
    case WriterTimer(w) => WithLane(s, w, s.lanes[w].(flush := true))
    case ReadChunk(w) =>
      var l := s.lanes[w];
      WithLane(s, w, l.(saver := Holding(l.chunks[0]), chunks := l.chunks[1..]))
    case Save(w, isOpen, count) => WithLane(s, w, SavedLane(s.lanes[w], s.mem, isOpen, count))
    case Release(w) => ApplyRelease(s, w)
  }

  function WorkCounts(lanes: seq<Lane>): seq<nat>
    requires |lanes| == LANES
  {
    [|lanes[0].work|, |lanes[1].work|, |lanes[2].work|, |lanes[3].work|]
  }

  function ApplyTakeGroup(s: State): State
    requires Enabled(s, TakeGroup)
  {
    var g := s.pool[0];
    s.(pool := s.pool[1..], hold := Some(g), groups := s.groups[g := Group([], LLONG_MAX, LLONG_MIN)])
  }

  /** `add_to_packet_group`, and asking for a flush when the group is full. */
  function ApplyReceive(s: State, p: Packet): State
    requires Enabled(s, Receive(p))
  {
    var g := s.hold.value;
    var group := s.groups[g];
    var rows := group.rows + [p];
    s.(groups := s.groups[g := Group(rows, Min(group.start, p.Second()), Max(group.end, p.Second()))],
       accepted := s.accepted + [p],
       flush := s.flush || |rows| == MAX_PACKET_COUNT,
       pc := Checking)
  }

  /** One turn of the loop in `write_packet_group_work`; after a fruitless scan the caller starts another. */
  function ApplyTryRing(s: State): State
    requires Enabled(s, TryRing)
  {
    var w := s.turn % LANES;
    var l := s.lanes[w];
    if |l.work| < WORK_RING_CACHE_COUNT then
      WithLane(s, w, l.(work := l.work + [s.hold.value]))
        .(hold := None, pc := Receiving, flush := false, turn := s.turn + 1)
    else if s.pc.tries + 1 < LANES then
      s.(turn := s.turn + 1, pc := s.pc.(tries := s.pc.tries + 1))
    else
      s.(turn := s.turn + 2, pc := Scanning(0, WorkCounts(s.lanes)))
  }

  function ApplyOpenSink(s: State, w: nat): State
    requires Enabled(s, OpenSink(w))
  {
    var l, b := s.lanes[w], s.buckets[0];
    var g := s.groups[l.pc.group];
    WithLane(s, w, l.(file := Some(OpenFile(b, 0, [], g.start, g.end)), pc := Ready(l.pc.group)))
      .(buckets := s.buckets[1..], mem := s.mem[b := []])
  }

  function ApplyJoinSink(s: State, w: nat): State
    requires Enabled(s, JoinSink(w))
  {
    var l := s.lanes[w];
    var g, f := s.groups[l.pc.group], l.file.value;
    WithLane(s, w, l.(file := Some(f.(start := Min(g.start, f.start), end := Max(g.end, f.end))),
                      pc := Ready(l.pc.group)))
  }

  function ApplyAppend(s: State, w: nat, bytes: seq<octet>): State
    requires Enabled(s, Append(w, bytes))
  {
    var l := s.lanes[w];
    var g, f := s.groups[l.pc.group], l.file.value;
    WithLane(s, w, l.(file := Some(f.(blocks := f.blocks + [Block(g.rows, bytes)])), pc := Written(l.pc.group)))
      .(mem := s.mem[f.bucket := s.mem[f.bucket] + bytes])
  }

  function ApplyPutBack(s: State, w: nat): State
    requires Enabled(s, PutBack(w))
  {
    var l := s.lanes[w];
    var size := |s.mem[l.file.value.bucket]|;
    WithLane(s, w, l.(pc := Deciding, flush := l.flush || size >= PARQUET_FILE_FLUSH_SIZE))
      .(pool := s.pool + [l.pc.group])
  }

  /** The chunk that closes a file. */
  function LastChunk(f: OpenFile, size: nat, footer: seq<octet>): Chunk
    requires f.flushed <= size
  {
    Chunk(f.bucket, f.flushed, size - f.flushed, true, f.start, f.end, f.blocks, footer)
  }

  /** The chunk that hands over the first half of a file. */
  function FirstChunk(f: OpenFile): Chunk {
    Chunk(f.bucket, f.flushed, PARQUET_FILE_CHUNK_SIZE, false, f.start, f.end, [], [])
  }

  /** The lane after `parquet_mem_flush_to_dfs(1)` has handed over `c`. */
  function Closed(l: Lane, c: Chunk): Lane { l.(chunks := l.chunks + [c], file := None, flush := false, pc := Idle) }

  /** The end of `write_to_mem`: the file is closed, or a whole chunk is handed over, or neither. */
  function ApplyFlush(s: State, w: nat, footer: seq<octet>): State
    requires Enabled(s, Flush(w, footer))
  {
    var l := s.lanes[w];
    var f := l.file.value;
    var bytes := s.mem[f.bucket];
    if l.flush then
      var all := bytes + footer;
      WithLane(s, w, Closed(l, LastChunk(f, |all|, footer))).(mem := s.mem[f.bucket := all])
    else if |bytes| - f.flushed >= PARQUET_FILE_CHUNK_SIZE then
      WithLane(s, w, l.(chunks := l.chunks + [FirstChunk(f)],
                        file := Some(f.(flushed := f.flushed + PARQUET_FILE_CHUNK_SIZE)), pc := Idle))
    else WithLane(s, w, l.(pc := Idle))
  }

  /** The body of `write_to_hdfs` up to `clean`; `count` is what the write reports. */
  function SavedLane(l: Lane, mem: seq<seq<octet>>, isOpen: bool, count: nat): Lane
    requires l.saver.Holding?
    requires var c := l.saver.chunk; count <= c.length && c.bucket < |mem| && c.offset + c.length <= |mem[c.bucket]|
  {
    var c := l.saver.chunk;
    if l.out.None? && !isOpen then l.(saver := Saved(c), broken := true)
    else
      var sofar := if l.out.Some? then l.out.value else [];
      l.(saver := Saved(c), under := if l.out.Some? then l.under else Some(TimesOf(c)),
         out := Some(sofar + mem[c.bucket][c.offset..c.offset + count]), broken := l.broken || count < c.length)
  }

  function StoredFile(l: Lane, c: Chunk): Stored {
    var content := if l.out.Some? then l.out.value else [];
    Stored(c.start, c.end, l.under, content, c.blocks, c.footer, l.pieces + [c], !l.broken)
  }

  /** From `clean` on: the last chunk closes the file and renames it to its interval. */
  function ReleasedLane(l: Lane): Lane
    requires l.saver.Saved?
  {
    var c := l.saver.chunk;
    if c.last then
      l.(saver := Waiting, under := None, out := None, broken := false, pieces := [],
         stored := l.stored + [StoredFile(l, c)])
    else l.(saver := Waiting, pieces := l.pieces + [c])
  }

  /** Deleting a last chunk returns its bucket to the pool. */
  function ApplyRelease(s: State, w: nat): State
    requires Enabled(s, Release(w))
  {
    var c := s.lanes[w].saver.chunk;
    var s' := WithLane(s, w, ReleasedLane(s.lanes[w]));
    if c.last then s'.(buckets := s.buckets + [c.bucket]) else s'
  }

  // ---------------------------------------------------------------- runs

  /** The state after a run, if every action of it was enabled in its turn. */
  function Run(s: State, actions: seq<Action>): Option<State>
    decreases |actions|
  {
    if actions == [] then Some(s)
    else if Enabled(s, actions[0]) then Run(Apply(s, actions[0]), actions[1..])
    else None
  }

  ghost predicate Reachable(s: State) {
    exists room: nat, actions: seq<Action> :: room <= MAX_PACKET_GROUP_SIZE && Run(Init(room), actions) == Some(s)
  }
}
