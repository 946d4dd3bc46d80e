/** What every state of the pipeline keeps. */
module PipelineInv {
  import opened Common
  import opened Pipeline

  // ---------------------------------------------------------------- who owns what

  const ALL := multiset{0, 1, 2, 3, 4, 5, 6, 7}

  function HeldBy(pc: WriterPc): multiset<nat> {
    match pc
    case Got(g) => multiset{g}
    case Ready(g) => multiset{g}
    case Written(g) => multiset{g}
    case _ => multiset{}
  }

  function LaneGroups(l: Lane): multiset<nat> { multiset(l.work) + HeldBy(l.pc) }

  /** The chunks that were handed over and not yet released, oldest first. */
  function Pending(l: Lane): seq<Chunk> {
    match l.saver
    case Waiting => l.chunks
    case Holding(c) => [c] + l.chunks
    case Saved(c) => [c] + l.chunks
  }

  /** The buckets owned by last chunks. */
  function Finals(q: seq<Chunk>): multiset<nat> {
    if q == [] then multiset{} else (if q[0].last then multiset{q[0].bucket} else multiset{}) + Finals(q[1..])
  }

  function FileBucket(file: Option<OpenFile>): multiset<nat> {
    if file.Some? then multiset{file.value.bucket} else multiset{}
  }

  function LaneBuckets(l: Lane): multiset<nat> { FileBucket(l.file) + Finals(Pending(l)) }

  function GroupParts(lanes: seq<Lane>): (m: seq<multiset<nat>>)
    requires |lanes| == LANES
    ensures |m| == LANES && forall w :: 0 <= w < LANES ==> m[w] == LaneGroups(lanes[w])
  {
    seq(LANES, w requires 0 <= w < LANES => LaneGroups(lanes[w]))
  }

  function BucketParts(lanes: seq<Lane>): (m: seq<multiset<nat>>)
    requires |lanes| == LANES
    ensures |m| == LANES && forall w :: 0 <= w < LANES ==> m[w] == LaneBuckets(lanes[w])
  {
    seq(LANES, w requires 0 <= w < LANES => LaneBuckets(lanes[w]))
  }

  function Whole<T>(free: multiset<T>, m: seq<multiset<T>>): multiset<T>
    requires |m| == LANES
  {
    free + (m[0] + m[1] + m[2] + m[3])
  }

  function Held(hold: Option<nat>): multiset<nat> { if hold.Some? then multiset{hold.value} else multiset{} }

  function FreeGroups(s: State): multiset<nat> { multiset(s.pool) + Held(s.hold) }

  /** Every group is in exactly one place, and so is every bucket. */
  ghost predicate OneOwner(s: State)
    requires |s.lanes| == LANES
  {
    && Whole(FreeGroups(s), GroupParts(s.lanes)) == ALL
    && Whole(multiset(s.buckets), BucketParts(s.lanes)) == ALL
  }

  // ---------------------------------------------------------------- rows

  function WorkRows(work: seq<nat>, groups: seq<Group>): multiset<Packet> {
    if work == [] then multiset{}
    else (if work[0] < |groups| then multiset(groups[work[0]].rows) else multiset{}) + WorkRows(work[1..], groups)
  }

  function BlockRows(blocks: seq<Block>): multiset<Packet> {
    if blocks == [] then multiset{} else BlockRows(blocks[..|blocks| - 1]) + multiset(blocks[|blocks| - 1].rows)
  }

  function FinalRows(q: seq<Chunk>): multiset<Packet> {
    if q == [] then multiset{} else (if q[0].last then BlockRows(q[0].blocks) else multiset{}) + FinalRows(q[1..])
  }

  function StoredRows(stored: seq<Stored>): multiset<Packet> {
    if stored == [] then multiset{} else StoredRows(stored[..|stored| - 1]) + BlockRows(stored[|stored| - 1].blocks)
  }

  function RowsOf(g: nat, groups: seq<Group>): multiset<Packet> {
    if g < |groups| then multiset(groups[g].rows) else multiset{}
  }

  /** The rows a parquet writer holds and has not encoded yet. */
  function HeldRows(pc: WriterPc, groups: seq<Group>): multiset<Packet> {
    match pc
    case Got(g) => RowsOf(g, groups)
    case Ready(g) => RowsOf(g, groups)
    case _ => multiset{}
  }

  function FileRows(file: Option<OpenFile>): multiset<Packet> {
    if file.Some? then BlockRows(file.value.blocks) else multiset{}
  }

  function LaneRows(l: Lane, groups: seq<Group>): multiset<Packet> {
    GroupRows(l, groups) + EncodedRows(l)
  }

  /** The rows of a lane that are still in groups. */
  function GroupRows(l: Lane, groups: seq<Group>): multiset<Packet> {
    WorkRows(l.work, groups) + HeldRows(l.pc, groups)
  }

  /** The rows of a lane that are in files, open, handed over or finished. */
  function EncodedRows(l: Lane): multiset<Packet> { FileRows(l.file) + FinalRows(Pending(l)) + StoredRows(l.stored) }

  function RowParts(lanes: seq<Lane>, groups: seq<Group>): (m: seq<multiset<Packet>>)
    requires |lanes| == LANES
    ensures |m| == LANES && forall w :: 0 <= w < LANES ==> m[w] == LaneRows(lanes[w], groups)
  {
    seq(LANES, w requires 0 <= w < LANES => LaneRows(lanes[w], groups))
  }

  function ReceiverRows(hold: Option<nat>, groups: seq<Group>): multiset<Packet> {
    if hold.Some? then RowsOf(hold.value, groups) else multiset{}
  }

  /** Every accepted packet is in exactly one place. */
  ghost predicate NoRowLost(s: State)
    requires |s.lanes| == LANES
  {
    multiset(s.accepted) == Whole(ReceiverRows(s.hold, s.groups), RowParts(s.lanes, s.groups))
  }

  // ---------------------------------------------------------------- groups and files

  predicate InTimes(rows: seq<Packet>, start: int, end: int) {
    && 0 <= start && (rows != [] ==> 0 <= end)
    && forall i :: 0 <= i < |rows| ==> start <= rows[i].Second() <= end
  }

  predicate BlocksInTimes(blocks: seq<Block>, start: int, end: int) {
    0 <= start && 0 <= end && forall i :: 0 <= i < |blocks| ==> InTimes(blocks[i].rows, start, end)
  }

  predicate GroupOk(g: Group) { 1 <= |g.rows| <= MAX_PACKET_COUNT && InTimes(g.rows, g.start, g.end) }

  /** The bytes of the row groups of a file. */
  function Bytes(blocks: seq<Block>): seq<octet> {
    if blocks == [] then [] else Bytes(blocks[..|blocks| - 1]) + blocks[|blocks| - 1].bytes
  }

  ghost predicate WorkOk(l: Lane, groups: seq<Group>) {
    && |l.work| <= WORK_RING_CACHE_COUNT
    && forall g :: g in LaneGroups(l) ==> g < |groups| && GroupOk(groups[g])
  }

  /** The open file: its bucket holds its row groups, its times cover them, and its size is bounded. */
  ghost predicate FileOk(l: Lane, groups: seq<Group>, mem: seq<seq<octet>>, room: nat) {
    match l.file
    case None => l.pc.Idle? || l.pc.Got?
    case Some(f) =>
      && f.bucket < |mem|
      && mem[f.bucket] == Bytes(f.blocks)
      && (f.flushed == 0 || f.flushed == PARQUET_FILE_CHUNK_SIZE)
      && f.flushed <= |mem[f.bucket]|
      && BlocksInTimes(f.blocks, f.start, f.end)
      && SizeOk(l, f, |mem[f.bucket]|, room)
      && (l.pc.Ready? ==> l.pc.group < |groups| && InTimes(groups[l.pc.group].rows, f.start, f.end))
  }

  predicate SizeOk(l: Lane, f: OpenFile, size: nat, room: nat) {
    if l.pc.Written? || l.pc.Deciding? then
      size + room < MAX_PARQUET_FILE_SIZE && (l.pc.Deciding? && size >= PARQUET_FILE_FLUSH_SIZE ==> l.flush)
    else size < PARQUET_FILE_FLUSH_SIZE && size - f.flushed < PARQUET_FILE_CHUNK_SIZE
  }

  // ---------------------------------------------------------------- chunks

  /** The pieces of a file already released, if it is between its two pieces. */
  predicate PiecesOk(pieces: seq<Chunk>) {
    pieces == [] ||
    (|pieces| == 1 && !pieces[0].last && pieces[0].offset == 0 && pieces[0].length == PARQUET_FILE_CHUNK_SIZE
     && Timed(pieces[0]))
  }

  /** A chunk bears the times its file had when it was handed over. */
  predicate Timed(c: Chunk) { 0 <= c.start && 0 <= c.end }

  function Pos(pieces: seq<Chunk>): nat { if pieces == [] then 0 else PARQUET_FILE_CHUNK_SIZE }

  function Cur(pieces: seq<Chunk>): nat { if pieces == [] then 0 else pieces[0].bucket }

  /**
    The chunks of `q` take the files up where byte `pos` of bucket `cur` left off: each starts where the
    one before ended, a last one ends with its file, and after them comes the open file, if there is one.
   */
  ghost predicate Tiled(q: seq<Chunk>, pos: nat, cur: nat, file: Option<OpenFile>, mem: seq<seq<octet>>)
    decreases |q|
  {
    if q == [] then
      if file.None? then pos == 0 else file.value.flushed == pos && (pos > 0 ==> file.value.bucket == cur)
    else
      && q[0].offset == pos && (pos > 0 ==> q[0].bucket == cur)
      && if q[0].last then LastOk(q[0], mem) && Tiled(q[1..], 0, 0, file, mem)
         else
           && pos == 0 && q[0].length == PARQUET_FILE_CHUNK_SIZE && Timed(q[0])
           && Tiled(q[1..], PARQUET_FILE_CHUNK_SIZE, q[0].bucket, file, mem)
  }

  /** A last chunk ends with its file, the bucket holds the whole file, and the times cover its rows. */
  ghost predicate LastOk(c: Chunk, mem: seq<seq<octet>>) {
    && c.bucket < |mem|
    && mem[c.bucket] == Bytes(c.blocks) + c.footer
    && c.offset + c.length == |mem[c.bucket]| <= MAX_PARQUET_FILE_SIZE
    && BlocksInTimes(c.blocks, c.start, c.end)
  }

  predicate InBucket(bucket: nat, size: nat, mem: seq<seq<octet>>) { bucket < |mem| && size <= |mem[bucket]| }

  /** What the file writer has written of the current file, as long as nothing failed. */
  ghost predicate OutOk(l: Lane, mem: seq<seq<octet>>) {
    && OpenedOk(l.under, l.out)
    && match l.saver
       case Saved(c) =>
         !l.broken ==>
           && InBucket(c.bucket, c.offset + c.length, mem) && l.out == Some(mem[c.bucket][..c.offset + c.length])
           && l.under == Some(TimesOf((l.pieces + [c])[0]))
       case _ =>
         if l.pieces == [] then !l.broken && l.out == None
         else !l.broken ==>
           && InBucket(Cur(l.pieces), Pos(l.pieces), mem) && l.out == Some(mem[Cur(l.pieces)][..Pos(l.pieces)])
           && l.under == Some(TimesOf(l.pieces[0]))
  }

  /** A file that is open has a name with an interval. */
  predicate OpenedOk(under: Option<Times>, out: Option<seq<octet>>) {
    && (under.Some? <==> out.Some?)
    && (under.Some? ==> 0 <= under.value.start && 0 <= under.value.end)
  }

  // ---------------------------------------------------------------- finished files

  function Image(r: Stored): seq<octet> { Bytes(r.blocks) + r.footer }

  /** The pieces cover `0 .. size` in order without gap or overlap, and only the final one is marked last. */
  predicate PiecesTile(pieces: seq<Chunk>, size: nat) {
    && pieces != []
    && pieces[0].offset == 0
    && (forall i :: 0 <= i < |pieces| - 1 ==>
        pieces[i + 1].offset == pieces[i].offset + pieces[i].length && !pieces[i].last)
    && pieces[|pieces| - 1].last && pieces[|pieces| - 1].offset + pieces[|pieces| - 1].length == size
  }

  ghost predicate StoredOk(r: Stored) {
    && PiecesTile(r.pieces, |Image(r)|) && |r.pieces| <= 2
    && |Image(r)| <= MAX_PARQUET_FILE_SIZE
    && (r.intact ==> r.content == Image(r) && r.under == Some(TimesOf(r.pieces[0])))
    && (r.under.Some? ==> 0 <= r.under.value.start && 0 <= r.under.value.end)
    && BlocksInTimes(r.blocks, r.start, r.end)
    && Timed(r.pieces[0]) && r.pieces[|r.pieces| - 1].start == r.start && r.pieces[|r.pieces| - 1].end == r.end
  }

  ghost predicate AllStoredOk(stored: seq<Stored>) { forall i :: 0 <= i < |stored| ==> StoredOk(stored[i]) }

  // ---------------------------------------------------------------- the invariant

  ghost predicate LaneOk(l: Lane, groups: seq<Group>, mem: seq<seq<octet>>, room: nat) {
    && WorkOk(l, groups)
    && FileOk(l, groups, mem, room)
    && |l.chunks| <= PARQUET_FILE_CHUNK_COUNT
    && PiecesOk(l.pieces)
    && Tiled(Pending(l), Pos(l.pieces), Cur(l.pieces), l.file, mem)
    && OutOk(l, mem)
    && AllStoredOk(l.stored)
  }

  lemma LaneParts(l: Lane, groups: seq<Group>, mem: seq<seq<octet>>, room: nat)
    requires LaneOk(l, groups, mem, room)
    ensures WorkOk(l, groups) && FileOk(l, groups, mem, room) && |l.chunks| <= PARQUET_FILE_CHUNK_COUNT
      && PiecesOk(l.pieces)
    ensures Tiled(Pending(l), Pos(l.pieces), Cur(l.pieces), l.file, mem) && OutOk(l, mem) && AllStoredOk(l.stored)
  {
    hide WorkOk, FileOk, PiecesOk, Tiled, Pending, Pos, Cur, OutOk, AllStoredOk;
  }

  lemma LaneMade(l: Lane, groups: seq<Group>, mem: seq<seq<octet>>, room: nat)
    requires WorkOk(l, groups) && FileOk(l, groups, mem, room) && |l.chunks| <= PARQUET_FILE_CHUNK_COUNT
      && PiecesOk(l.pieces)
    requires Tiled(Pending(l), Pos(l.pieces), Cur(l.pieces), l.file, mem) && OutOk(l, mem) && AllStoredOk(l.stored)
    ensures LaneOk(l, groups, mem, room)
  {
    hide WorkOk, FileOk, PiecesOk, Tiled, Pending, Pos, Cur, OutOk, AllStoredOk;
  }

  /** Both writers' sides of a lane stay right when neither the chunks nor the file change. */
  lemma FileStays(l: Lane, l': Lane, mem: seq<seq<octet>>)
    requires l'.chunks == l.chunks && l'.saver == l.saver && l'.pieces == l.pieces && l'.file == l.file
    requires l'.under == l.under && l'.out == l.out && l'.broken == l.broken
    requires Tiled(Pending(l), Pos(l.pieces), Cur(l.pieces), l.file, mem) && OutOk(l, mem)
    ensures Pending(l') == Pending(l)
    ensures Tiled(Pending(l'), Pos(l'.pieces), Cur(l'.pieces), l'.file, mem) && OutOk(l', mem)
  {
    hide Tiled, Pos, Cur;
  }

  lemma WorkStays(l: Lane, l': Lane, groups: seq<Group>)
    requires WorkOk(l, groups) && |l'.work| <= |l.work| && LaneGroups(l') <= LaneGroups(l)
    ensures WorkOk(l', groups)
  {
    hide LaneGroups;
    assert forall g :: g in LaneGroups(l') ==> g in LaneGroups(l);
  }

  /** The rings a scan has passed were full when it began, and no ring has filled up since. */
  predicate ScanOk(tries: nat, before: seq<nat>, turn: nat, lanes: seq<Lane>)
    requires |lanes| == LANES
  {
    && |before| == LANES && tries < LANES && tries <= turn
    && before[0] + before[1] + before[2] + before[3] < PACKET_GROUP_COUNT
    && (forall i :: 0 <= i < LANES ==> |lanes[i].work| <= before[i] <= WORK_RING_CACHE_COUNT)
    && (tries >= 1 ==> before[(turn - 1) % LANES] == WORK_RING_CACHE_COUNT)
    && (tries >= 2 ==> before[(turn - 2) % LANES] == WORK_RING_CACHE_COUNT)
    && (tries >= 3 ==> before[(turn - 3) % LANES] == WORK_RING_CACHE_COUNT)
  }

  ghost predicate ReceiverOk(s: State)
    requires |s.lanes| == LANES
  {
    match s.hold
    case None => s.pc.Receiving?
    case Some(g) =>
      && g < |s.groups|
      && var rows := s.groups[g].rows;
      && InTimes(rows, s.groups[g].start, s.groups[g].end)
      && match s.pc
         case Receiving => |rows| < MAX_PACKET_COUNT
         case Checking => |rows| <= MAX_PACKET_COUNT && (|rows| == MAX_PACKET_COUNT ==> s.flush)
         case Scanning(tries, before) => 1 <= |rows| <= MAX_PACKET_COUNT && ScanOk(tries, before, s.turn, s.lanes)
  }

  ghost predicate LanesOk(s: State) {
    |s.lanes| == LANES && forall w :: 0 <= w < LANES ==> LaneOk(s.lanes[w], s.groups, s.mem, s.room)
  }

  ghost predicate Inv(s: State) {
    && s.room <= MAX_PACKET_GROUP_SIZE && |s.groups| == PACKET_GROUP_COUNT && |s.mem| == PARQUET_MEM_COUNT
    && LanesOk(s) && OneOwner(s) && NoRowLost(s) && ReceiverOk(s)
  }

  // ---------------------------------------------------------------- how the sums change

  /** Moving `x` from one part to the free ones, or back, or within a part, keeps the whole. */
  lemma WholeMoves<T>(free: multiset<T>, m: seq<multiset<T>>, w: nat, free': multiset<T>, m': seq<multiset<T>>)
    requires |m| == LANES && |m'| == LANES && w < LANES
    requires forall v :: 0 <= v < LANES && v != w ==> m'[v] == m[v]
    requires free' + m'[w] == free + m[w]
    ensures Whole(free', m') == Whole(free, m)
  {
    assert w == 0 || w == 1 || w == 2 || w == 3;
    var r := if w == 0 then m[1] + m[2] + m[3] else if w == 1 then m[0] + m[2] + m[3]
             else if w == 2 then m[0] + m[1] + m[3] else m[0] + m[1] + m[2];
    assert m[0] + m[1] + m[2] + m[3] == m[w] + r;
    assert m'[0] + m'[1] + m'[2] + m'[3] == m'[w] + r;
    assert free + (m[w] + r) == free + m[w] + r;
    assert free' + (m'[w] + r) == free' + m'[w] + r;
  }

  lemma WholeCount(free: multiset<nat>, m: seq<multiset<nat>>, x: nat)
    requires |m| == LANES
    ensures Whole(free, m)[x] == free[x] + m[0][x] + m[1][x] + m[2][x] + m[3][x]
  {}

  lemma AllOnce(x: nat)
    ensures ALL[x] == if x < 8 then 1 else 0
  {}

  /** Of eight things, each in one place: what one part has, no other has. */
  lemma OncePart(free: multiset<nat>, m: seq<multiset<nat>>, v: nat, w: nat, x: nat)
    requires |m| == LANES && Whole(free, m) == ALL && v < LANES && w < LANES
    ensures x in m[v] && v != w ==> x !in m[w]
    ensures x in free ==> x < 8 && x !in m[w]
    ensures x in m[w] ==> x < 8 && m[w][x] == 1
    ensures free[x] <= 1
  {
    hide Whole;
    WholeCount(free, m, x);
    AllOnce(x);
    assert v == 0 || v == 1 || v == 2 || v == 3;
    assert w == 0 || w == 1 || w == 2 || w == 3;
  }

  /** A group that one lane has, no other lane has, nor the pool or the receiver. */
  lemma GroupsApart(s: State, v: nat, w: nat, g: nat)
    requires |s.lanes| == LANES && OneOwner(s) && v < LANES && w < LANES
    ensures v != w && g in LaneGroups(s.lanes[v]) ==> g !in LaneGroups(s.lanes[w])
    ensures g in s.pool || s.hold == Some(g) ==> g < 8 && g !in LaneGroups(s.lanes[w])
  {
    OncePart(FreeGroups(s), GroupParts(s.lanes), v, w, g);
    assert g in s.pool || s.hold == Some(g) ==> g in FreeGroups(s);
  }

  lemma BucketsApart(s: State, v: nat, w: nat, b: nat)
    requires |s.lanes| == LANES && OneOwner(s) && v < LANES && w < LANES
    ensures v != w && b in LaneBuckets(s.lanes[v]) ==> b !in LaneBuckets(s.lanes[w])
    ensures b in s.buckets ==> b < 8 && b !in LaneBuckets(s.lanes[w])
    ensures b in LaneBuckets(s.lanes[w]) ==> b < 8 && LaneBuckets(s.lanes[w])[b] == 1
  {
    OncePart(multiset(s.buckets), BucketParts(s.lanes), v, w, b);
    assert b in s.buckets ==> b in multiset(s.buckets);
  }
}
