/** From the packets accepted to the packets a search finds. */
module EndToEnd {
  import opened FileNames
  import opened Pipeline
  import opened PipelineInv
  import opened PipelineSafety
  import opened PipelineProgress
  import opened PipelineDrains
  import opened FileStore
  import opened FileSearch
  import opened SearchReader

  // ---------------------------------------------------------------- what a directory holds

  /** What decoding a finished file gives: its row groups, or none if writing it failed somewhere. */
  function Decoded(r: Stored): seq<seq<Packet>> { if r.intact then BlockGroups(r.blocks) else [] }

  /** The file behind a name, as the search decodes it; one that is still open has no footer and gives nothing. */
  function FileNamed(name: string, d: map<string, nat>, stored: seq<Stored>): DfsFile {
    DfsFile(name, if name in d && d[name] < |stored| then Decoded(stored[d[name]]) else [])
  }

  function FileOf(dir: string, w: nat, r: Stored): DfsFile
    requires HasTimes(r)
  {
    DfsFile(NameOf(dir, w, FinalTimes(r)), Decoded(r))
  }

  /** The files of one writer in the directory, the open one included. */
  ghost function InDirectory(dir: string, w: nat, l: Lane): set<DfsFile>
    requires LaneTimed(l)
  {
    set name | name in LaneDirectory(dir, w, l) :: FileNamed(name, LaneDirectory(dir, w, l), l.stored)
  }

  ghost predicate Once<T>(s: seq<T>) { forall i, j :: 0 <= i < j < |s| ==> s[i] != s[j] }

  ghost predicate AllLanesTimed(s: State) { |s.lanes| == LANES && forall w :: 0 <= w < LANES ==> LaneTimed(s.lanes[w]) }

  /** `entries` lists the directory, in any order. */
  ghost predicate Lists(entries: seq<DfsFile>, dir: string, s: State) {
    && AllLanesTimed(s) && Once(entries)
    && forall f :: f in entries <==>
         || f in InDirectory(dir, 0, s.lanes[0]) || f in InDirectory(dir, 1, s.lanes[1])
         || f in InDirectory(dir, 2, s.lanes[2]) || f in InDirectory(dir, 3, s.lanes[3])
  }

  /** The finished files that could be opened, in the order they were written. */
  function StoredFiles(dir: string, w: nat, stored: seq<Stored>): seq<DfsFile>
    requires AllTimed(stored)
  {
    if stored == [] then []
    else
      var r := stored[|stored| - 1];
      StoredFiles(dir, w, stored[..|stored| - 1]) + if r.under.Some? then [FileOf(dir, w, r)] else []
  }

  /** The file that is open, as the search finds it. */
  function OpenFiles(dir: string, w: nat, l: Lane): seq<DfsFile>
    requires LaneTimed(l)
  {
    if l.under.Some? then [DfsFile(NameOf(dir, w, l.under.value), [])] else []
  }

  function LaneFiles(dir: string, w: nat, l: Lane): seq<DfsFile>
    requires LaneTimed(l)
  {
    StoredFiles(dir, w, l.stored) + OpenFiles(dir, w, l)
  }

  function AllFiles(dir: string, s: State): seq<DfsFile>
    requires AllLanesTimed(s)
  {
    LaneFiles(dir, 0, s.lanes[0]) + LaneFiles(dir, 1, s.lanes[1]) + LaneFiles(dir, 2, s.lanes[2])
      + LaneFiles(dir, 3, s.lanes[3])
  }

  ghost predicate IsStoredFile(f: DfsFile, dir: string, w: nat, stored: seq<Stored>)
    requires AllTimed(stored)
  {
    exists i :: 0 <= i < |stored| && stored[i].under.Some? && f == FileOf(dir, w, stored[i])
  }

  lemma {:induction false} StoredFilesAre(dir: string, w: nat, stored: seq<Stored>)
    requires AllTimed(stored)
    ensures forall f :: f in StoredFiles(dir, w, stored) <==> IsStoredFile(f, dir, w, stored)
  {
    if stored != [] {
      hide FileOf;
      var n := |stored| - 1;
      var init := stored[..n];
      StoredFilesAre(dir, w, init);
      hide StoredFiles;
      forall f ensures IsStoredFile(f, dir, w, stored) <==>
        IsStoredFile(f, dir, w, init) || (stored[n].under.Some? && f == FileOf(dir, w, stored[n]))
      {
        if i :| 0 <= i < |stored| && stored[i].under.Some? && f == FileOf(dir, w, stored[i]) {
          assert i < n ==> init[i] == stored[i];
        }
        if i :| 0 <= i < |init| && init[i].under.Some? && f == FileOf(dir, w, init[i]) {
          assert stored[i] == init[i];
        }
      }
      StoredFilesNext(dir, w, stored);
    }
  }

  lemma StoredFilesNext(dir: string, w: nat, stored: seq<Stored>)
    requires AllTimed(stored) && stored != []
    ensures var n := |stored| - 1;
      forall f :: f in StoredFiles(dir, w, stored) <==>
        f in StoredFiles(dir, w, stored[..n]) || (stored[n].under.Some? && f == FileOf(dir, w, stored[n]))
  {}

  /** When no intervals clash, the directory holds the files of the writer under their own names, and nothing else. */
  lemma LaneIsListed(dir: string, w: nat, l: Lane)
    requires '-' !in dir && LaneTimed(l) && LaneClear(l)
    ensures forall f :: f in LaneFiles(dir, w, l) <==> f in InDirectory(dir, w, l)
  {
    hide Directory, NameOf, LaneClear, NamesClear, NameClear, StoredFiles, Decoded;
    var stored, files, under := l.stored, AllNames(dir, w, l.stored), NameUnder(dir, w, l.under);
    ClearExactly(l, w, dir);
    AllFoundExactly(files, under);
    ClearIsFound(files);
    StoredFilesAre(dir, w, stored);
    forall f | f in LaneFiles(dir, w, l) ensures f in InDirectory(dir, w, l) {
      FileIsThere(dir, w, l, f);
    }
    forall f | f in InDirectory(dir, w, l) ensures f in LaneFiles(dir, w, l) {
      NothingElse(dir, w, l, f);
    }
  }

  lemma FileIsThere(dir: string, w: nat, l: Lane, f: DfsFile)
    requires LaneTimed(l) && AllFound(LaneDirectory(dir, w, l), AllNames(dir, w, l.stored)) && f in LaneFiles(dir, w, l)
    ensures f in InDirectory(dir, w, l)
  {
    hide Directory, NameOf, StoredFiles, Decoded;
    var d := LaneDirectory(dir, w, l);
    StoredFilesAre(dir, w, l.stored);
    if f in StoredFiles(dir, w, l.stored) {
      var i :| 0 <= i < |l.stored| && l.stored[i].under.Some? && f == FileOf(dir, w, l.stored[i]);
      assert Found(d, AllNames(dir, w, l.stored), i);
    }
    assert f.name in d && f == FileNamed(f.name, d, l.stored);
  }

  lemma NothingElse(dir: string, w: nat, l: Lane, f: DfsFile)
    requires LaneTimed(l) && AllFound(LaneDirectory(dir, w, l), AllNames(dir, w, l.stored))
      && OnlyFinals(AllNames(dir, w, l.stored))
    requires f in InDirectory(dir, w, l)
    ensures f in LaneFiles(dir, w, l)
  {
    hide Directory, NameOf, StoredFiles, Decoded;
    var d, files := LaneDirectory(dir, w, l), AllNames(dir, w, l.stored);
    StoredFilesAre(dir, w, l.stored);
    var name :| name in d && f == FileNamed(name, d, l.stored);
    if l.under.Some? && name == NameOf(dir, w, l.under.value) {
      assert d[name] == |l.stored|;
    } else {
      assert name in Directory(files);
      var i :| 0 <= i < |files| && files[i].interim.Some? && files[i].final == name;
      assert Found(d, files, i);
      assert f == FileOf(dir, w, l.stored[i]);
      assert IsStoredFile(f, dir, w, l.stored);
    }
  }

  lemma {:induction false} StoredIsOnce(dir: string, w: nat, stored: seq<Stored>)
    requires '-' !in dir && AllTimed(stored) && IntervalsClear(stored)
    ensures Once(StoredFiles(dir, w, stored))
  {
    if stored != [] {
      var n := |stored| - 1;
      var init, r := stored[..n], stored[n];
      IntervalsBefore(stored);
      StoredIsOnce(dir, w, init);
      hide NameOf, Decoded;
      if r.under.Some? {
        forall f | f in StoredFiles(dir, w, init) ensures f != FileOf(dir, w, r) {
          StoredFilesAre(dir, w, init);
          var i :| 0 <= i < |init| && init[i].under.Some? && f == FileOf(dir, w, init[i]);
          assert init[i] == stored[i];
          SameTimesExactly(dir, w, FinalTimes(stored[i]), FinalTimes(r));
        }
        OnceJoined(StoredFiles(dir, w, init), [FileOf(dir, w, r)]);
      }
    }
  }

  lemma IntervalsBefore(stored: seq<Stored>)
    requires stored != [] && IntervalsClear(stored)
    ensures IntervalsClear(stored[..|stored| - 1])
  {
    var init := stored[..|stored| - 1];
    assert forall i :: 0 <= i < |init| ==> init[i] == stored[i];
  }

  lemma LaneIsOnce(dir: string, w: nat, l: Lane)
    requires '-' !in dir && LaneTimed(l) && LaneClear(l)
    ensures Once(LaneFiles(dir, w, l))
  {
    hide NameOf, Decoded, StoredFiles;
    StoredIsOnce(dir, w, l.stored);
    StoredFilesAre(dir, w, l.stored);
    if l.under.Some? {
      forall i | 0 <= i < |l.stored| && l.stored[i].under.Some?
        ensures FileOf(dir, w, l.stored[i]).name != NameOf(dir, w, l.under.value)
      {
        SameTimesExactly(dir, w, FinalTimes(l.stored[i]), l.under.value);
      }
    }
    hide IntervalsClear;
    OnceJoined(StoredFiles(dir, w, l.stored), OpenFiles(dir, w, l));
  }

  /** A file of writer `w`: its name is some interval with that number. */
  ghost predicate IsOfWriter(f: DfsFile, dir: string, w: nat) {
    exists t :: IsInterval(t) && f.name == NameOf(dir, w, t)
  }

  lemma LaneFilesAreOf(dir: string, w: nat, l: Lane)
    requires LaneTimed(l)
    ensures forall f :: f in LaneFiles(dir, w, l) ==> IsOfWriter(f, dir, w)
  {
    hide NameOf, Decoded, StoredFiles;
    StoredFilesAre(dir, w, l.stored);
    assert l.under.Some? ==> IsInterval(l.under.value);
    forall f | f in StoredFiles(dir, w, l.stored) ensures IsOfWriter(f, dir, w) {
      var i :| 0 <= i < |l.stored| && l.stored[i].under.Some? && f == FileOf(dir, w, l.stored[i]);
      assert IsInterval(FinalTimes(l.stored[i]));
    }
  }

  lemma LanesDiffer(dir: string, v: nat, a: Lane, w: nat, b: Lane)
    requires '-' !in dir && LaneTimed(a) && LaneTimed(b) && v != w
    ensures forall f :: f in LaneFiles(dir, v, a) ==> f !in LaneFiles(dir, w, b)
  {
    LaneFilesAreOf(dir, v, a);
    LaneFilesAreOf(dir, w, b);
    hide LaneFiles, FileName, IsInterval;
    forall f | IsOfWriter(f, dir, v) ensures !IsOfWriter(f, dir, w) {
      var t :| IsInterval(t) && f.name == NameOf(dir, v, t);
      forall u | IsInterval(u) ensures f.name != NameOf(dir, w, u) {
        NamesDiffer(dir, v, t, w, u);
      }
    }
  }

  lemma NamesDiffer(dir: string, v: nat, t: Times, w: nat, u: Times)
    requires '-' !in dir && IsInterval(t) && IsInterval(u) && v != w
    ensures NameOf(dir, v, t) != NameOf(dir, w, u)
  {
    SameNameExactly(dir, t.start, t.end, v, u.start, u.end, w);
  }

  lemma OnceJoined<T>(a: seq<T>, b: seq<T>)
    requires Once(a) && Once(b) && forall x :: x in a ==> x !in b
    ensures Once(a + b)
  {
    forall i, j | 0 <= i < j < |a + b| ensures (a + b)[i] != (a + b)[j] {
      if i < |a| <= j {
        assert a[i] in a && b[j - |a|] in b;
      }
    }
  }

  /** No intervals of one writer clash. */
  ghost predicate LanesClear(s: State) { |s.lanes| == LANES && forall w :: 0 <= w < LANES ==> LaneClear(s.lanes[w]) }

  lemma AllFilesOnce(dir: string, s: State)
    requires '-' !in dir && AllLanesTimed(s) && LanesClear(s)
    ensures Once(AllFiles(dir, s))
  {
    hide LaneClear, Once, LaneFiles, LaneTimed;
    var a, b, c, d := s.lanes[0], s.lanes[1], s.lanes[2], s.lanes[3];
    LaneIsOnce(dir, 0, a);
    LaneIsOnce(dir, 1, b);
    LaneIsOnce(dir, 2, c);
    LaneIsOnce(dir, 3, d);
    LanesDiffer(dir, 0, a, 1, b);
    LanesDiffer(dir, 0, a, 2, c);
    LanesDiffer(dir, 1, b, 2, c);
    LanesDiffer(dir, 0, a, 3, d);
    LanesDiffer(dir, 1, b, 3, d);
    LanesDiffer(dir, 2, c, 3, d);
    var f0, f1, f2, f3 := LaneFiles(dir, 0, a), LaneFiles(dir, 1, b), LaneFiles(dir, 2, c), LaneFiles(dir, 3, d);
    OnceJoined(f0, f1);
    OnceJoined(f0 + f1, f2);
    OnceJoined(f0 + f1 + f2, f3);
  }

  lemma AllFilesListed(dir: string, s: State)
    requires '-' !in dir && AllLanesTimed(s) && LanesClear(s)
    ensures Lists(AllFiles(dir, s), dir, s)
  {
    AllFilesOnce(dir, s);
    hide LaneClear, Once, LaneFiles, LaneTimed, InDirectory;
    LaneIsListed(dir, 0, s.lanes[0]);
    LaneIsListed(dir, 1, s.lanes[1]);
    LaneIsListed(dir, 2, s.lanes[2]);
    LaneIsListed(dir, 3, s.lanes[3]);
  }

  // ---------------------------------------------------------------- the rows of files

  function GroupsRows(groups: seq<seq<Packet>>): multiset<Packet> {
    if groups == [] then multiset{} else GroupsRows(groups[..|groups| - 1]) + multiset(groups[|groups| - 1])
  }

  function FilesRows(files: seq<DfsFile>): multiset<Packet> {
    if files == [] then multiset{} else FilesRows(files[..|files| - 1]) + GroupsRows(files[|files| - 1].groups)
  }

  lemma {:induction false} FilesRowsJoin(a: seq<DfsFile>, b: seq<DfsFile>)
    ensures FilesRows(a + b) == FilesRows(a) + FilesRows(b)
  {
    if b == [] {
      assert a + b == a;
    } else {
      var init, f := b[..|b| - 1], b[|b| - 1];
      assert a + b == a + init + [f] && init + [f] == b;
      hide *;
      FilesRowsJoin(a, init);
      FilesRowsSnoc(a + init, f);
      FilesRowsSnoc(init, f);
    }
  }

  lemma FilesRowsSnoc(a: seq<DfsFile>, f: DfsFile)
    ensures FilesRows(a + [f]) == FilesRows(a) + GroupsRows(f.groups)
  {
    assert (a + [f])[..|a|] == a;
  }

  lemma EmptyIfNone(b: seq<DfsFile>)
    ensures (forall f :: f !in b) ==> b == []
  {
    assert b != [] ==> b[0] in b;
  }

  lemma RowsWithout(b: seq<DfsFile>, j: nat)
    requires j < |b|
    ensures FilesRows(b) == FilesRows(b[..j] + b[j + 1..]) + FilesRows([b[j]])
  {
    hide FilesRows;
    FilesRowsJoin(b[..j], b[j + 1..]);
    FilesRowsJoin(b[..j], [b[j]]);
    FilesRowsJoin(b[..j] + [b[j]], b[j + 1..]);
    assert b == b[..j] + [b[j]] + b[j + 1..];
  }

  /** Two lists of the same files, each once, hold the same rows. */
  lemma {:induction false} OrderDoesNotMatter(a: seq<DfsFile>, b: seq<DfsFile>)
    requires Once(a) && Once(b) && forall f :: f in a <==> f in b
    ensures FilesRows(a) == FilesRows(b)
    decreases |a|
  {
    if a == [] {
      EmptyIfNone(b);
    } else {
      hide Once, FilesRows;
      var init, f := a[..|a| - 1], a[|a| - 1];
      assert f in b && a == init + [f];
      var j :| 0 <= j < |b| && b[j] == f;
      Without(b, j);
      SameWithout(init, f, b, j);
      OrderDoesNotMatter(init, b[..j] + b[j + 1..]);
      RowsWithout(b, j);
      FilesRowsJoin(init, [f]);
    }
  }

  lemma Without<T>(b: seq<T>, j: nat)
    requires Once(b) && j < |b|
    ensures Once(b[..j] + b[j + 1..]) && forall x :: x in b[..j] + b[j + 1..] <==> x in b && x != b[j]
  {
    var rest := b[..j] + b[j + 1..];
    assert forall i :: 0 <= i < |rest| ==> rest[i] == if i < j then b[i] else b[i + 1];
    forall x | x in b && x != b[j] ensures x in rest {
      var i :| 0 <= i < |b| && b[i] == x;
      assert rest[if i < j then i else i - 1] == x;
    }
  }

  lemma SameWithout(init: seq<DfsFile>, f: DfsFile, b: seq<DfsFile>, j: nat)
    requires Once(init + [f]) && j < |b| && b[j] == f && Once(b) && forall x :: x in init + [f] <==> x in b
    ensures Once(init) && forall x :: x in init <==> x in b[..j] + b[j + 1..]
  {
    Without(b, j);
    assert (init + [f])[|init|] == f;
    assert forall i :: 0 <= i < |init| ==> (init + [f])[i] == init[i];
    assert forall x :: x in init + [f] <==> x in init || x == f;
  }

  lemma {:induction false} BlocksAreGroups(blocks: seq<Block>)
    ensures GroupsRows(BlockGroups(blocks)) == BlockRows(blocks)
  {
    if blocks != [] {
      BlocksAreGroups(blocks[..|blocks| - 1]);
      assert BlockGroups(blocks)[..|blocks| - 1] == BlockGroups(blocks[..|blocks| - 1]);
    }
  }

  /** The rows of the files that were written without a failure. */
  function IntactRows(stored: seq<Stored>): multiset<Packet> {
    if stored == [] then multiset{}
    else
      var r := stored[|stored| - 1];
      IntactRows(stored[..|stored| - 1]) + if r.intact then BlockRows(r.blocks) else multiset{}
  }

  lemma {:induction false} StoredFilesRows(dir: string, w: nat, stored: seq<Stored>)
    requires AllTimed(stored)
    ensures FilesRows(StoredFiles(dir, w, stored)) == IntactRows(stored)
  {
    if stored != [] {
      var init, r := stored[..|stored| - 1], stored[|stored| - 1];
      StoredFilesRows(dir, w, init);
      hide FilesRows, NameOf;
      if r.under.Some? {
        FilesRowsSnoc(StoredFiles(dir, w, init), FileOf(dir, w, r));
        BlocksAreGroups(r.blocks);
        NoRows();
      } else {
        assert StoredFiles(dir, w, init) + [] == StoredFiles(dir, w, init);
      }
    }
  }

  lemma NoRows()
    ensures GroupsRows([]) == multiset{}
  {}

  /** An open file adds no rows. */
  lemma LaneFilesRows(dir: string, w: nat, l: Lane)
    requires LaneTimed(l)
    ensures FilesRows(LaneFiles(dir, w, l)) == IntactRows(l.stored)
  {
    hide FilesRows, NameOf, StoredFiles, IntactRows;
    StoredFilesRows(dir, w, l.stored);
    var files := StoredFiles(dir, w, l.stored);
    if l.under.Some? {
      FilesRowsSnoc(files, DfsFile(NameOf(dir, w, l.under.value), []));
    } else {
      assert files + [] == files;
    }
  }

  lemma {:induction false} AllIntactRows(stored: seq<Stored>)
    requires AllIntact(stored)
    ensures IntactRows(stored) == StoredRows(stored)
  {
    if stored != [] {
      AllIntactRows(stored[..|stored| - 1]);
    }
  }

  // ---------------------------------------------------------------- the rows a query asks for

  lemma {:induction false} RowsCounted(q: Query, rows: seq<Packet>, p: Packet)
    ensures multiset(FilterRows(q, rows))[p] == if Matches(q, p) then multiset(rows)[p] else 0
  {
    if rows != [] {
      var init, r := rows[..|rows| - 1], rows[|rows| - 1];
      RowsCounted(q, init, p);
      assert rows == init + [r];
    }
  }

  lemma {:induction false} GroupsCounted(q: Query, groups: seq<seq<Packet>>, p: Packet)
    ensures multiset(FilterGroups(q, groups))[p] == if Matches(q, p) then GroupsRows(groups)[p] else 0
  {
    if groups != [] {
      GroupsCounted(q, groups[..|groups| - 1], p);
      RowsCounted(q, groups[|groups| - 1], p);
    }
  }

  lemma {:induction false} FilesCounted(q: Query, files: seq<DfsFile>, p: Packet)
    ensures multiset(FilterFiles(q, files))[p] == if Matches(q, p) then FilesRows(files)[p] else 0
  {
    if files != [] {
      FilesCounted(q, files[..|files| - 1], p);
      GroupsCounted(q, files[|files| - 1].groups, p);
    }
  }

  // ---------------------------------------------------------------- the two ends together

  /** The rows in finished files that were written without a failure. */
  function RowsOnFile(s: State): multiset<Packet>
    requires |s.lanes| == LANES
  {
    IntactRows(s.lanes[0].stored) + IntactRows(s.lanes[1].stored) + IntactRows(s.lanes[2].stored)
      + IntactRows(s.lanes[3].stored)
  }

  lemma AllFilesRows(dir: string, s: State)
    requires AllLanesTimed(s)
    ensures FilesRows(AllFiles(dir, s)) == RowsOnFile(s)
  {
    hide FilesRows, IntactRows, LaneFiles, LaneTimed;
    var f0, f1 := LaneFiles(dir, 0, s.lanes[0]), LaneFiles(dir, 1, s.lanes[1]);
    var f2, f3 := LaneFiles(dir, 2, s.lanes[2]), LaneFiles(dir, 3, s.lanes[3]);
    LaneFilesRows(dir, 0, s.lanes[0]);
    LaneFilesRows(dir, 1, s.lanes[1]);
    LaneFilesRows(dir, 2, s.lanes[2]);
    LaneFilesRows(dir, 3, s.lanes[3]);
    FilesRowsJoin(f0, f1);
    FilesRowsJoin(f0 + f1, f2);
    FilesRowsJoin(f0 + f1 + f2, f3);
  }

  lemma LanesAreTimed(s: State)
    requires Reachable(s)
    ensures AllLanesTimed(s)
  {
    hide Reachable, OneOwner, LaneTimed;
    EachHasOneOwner(s);
    forall w | 0 <= w < LANES ensures LaneTimed(s.lanes[w]) {
      LaneHasTimes(s, w);
    }
  }

  lemma {:induction false} Listing<T>(all: set<T>) returns (entries: seq<T>)
    ensures Once(entries) && forall x :: x in entries <==> x in all
  {
    if all == {} {
      entries := [];
    } else {
      var x :| x in all;
      var rest := Listing(all - {x});
      OnceJoined(rest, [x]);
      entries := rest + [x];
    }
  }

  /** In every reachable state there is a listing of the directory. */
  lemma DirectoryIsListed(s: State, dir: string) returns (entries: seq<DfsFile>)
    requires Reachable(s)
    ensures Lists(entries, dir, s)
  {
    LanesAreTimed(s);
    hide Reachable, LaneTimed, InDirectory, Once;
    entries := Listing(InDirectory(dir, 0, s.lanes[0]) + InDirectory(dir, 1, s.lanes[1])
                       + InDirectory(dir, 2, s.lanes[2]) + InDirectory(dir, 3, s.lanes[3]));
  }

  lemma FileIsNamed(s: State, dir: string, w: nat, i: nat)
    requires Reachable(s) && LaneOf(s, w) && i < |s.lanes[w].stored| && '-' !in dir && HasTimes(s.lanes[w].stored[i])
    ensures var f := FileOf(dir, w, s.lanes[w].stored[i]); Readable(f) && WellNamed(f)
  {
    hide Reachable, ParseFileName, FileName;
    StoredIsWellNamed(s, w, i, dir);
  }

  lemma OpenIsNamed(dir: string, w: nat, t: Times)
    requires '-' !in dir && IsInterval(t)
    ensures var f := DfsFile(NameOf(dir, w, t), []); Readable(f) && WellNamed(f)
  {
    hide ParseFileName, FileName;
    NameReadsBack(dir, t.start, t.end, w);
  }

  lemma LaneIsNamed(s: State, dir: string, w: nat)
    requires Reachable(s) && LaneOf(s, w) && '-' !in dir && LaneTimed(s.lanes[w])
    ensures AllNamed(LaneFiles(dir, w, s.lanes[w]))
  {
    hide Reachable, WellNamed, Readable, StoredFiles, NameOf, FileOf;
    var l := s.lanes[w];
    StoredFilesAre(dir, w, l.stored);
    forall f | f in LaneFiles(dir, w, l) ensures WellNamed(f) && Readable(f) {
      if f in StoredFiles(dir, w, l.stored) {
        var i :| 0 <= i < |l.stored| && l.stored[i].under.Some? && f == FileOf(dir, w, l.stored[i]);
        FileIsNamed(s, dir, w, i);
      } else {
        OpenIsNamed(dir, w, l.under.value);
      }
    }
    EachIsNamed(LaneFiles(dir, w, l));
  }

  lemma EachIsNamed(files: seq<DfsFile>)
    requires forall f :: f in files ==> WellNamed(f) && Readable(f)
    ensures AllNamed(files)
  {
    hide WellNamed, Readable;
    assert forall i :: 0 <= i < |files| ==> files[i] in files;
  }

  /** The files a directory lists can be read by their names. */
  lemma EntriesAreNamed(s: State, dir: string, entries: seq<DfsFile>)
    requires Reachable(s) && '-' !in dir && LanesClear(s) && Lists(entries, dir, s)
    ensures AllNamed(entries)
  {
    hide Reachable, WellNamed, Readable, LaneClear, InDirectory, LaneFiles, LaneTimed;
    LaneIsNamed(s, dir, 0);
    LaneIsNamed(s, dir, 1);
    LaneIsNamed(s, dir, 2);
    LaneIsNamed(s, dir, 3);
    AllFilesListed(dir, s);
    forall i | 0 <= i < |entries| ensures WellNamed(entries[i]) && Readable(entries[i]) {
      assert entries[i] in AllFiles(dir, s);
    }
  }

  /** What a search finds in a directory when it can read every file. */
  function Search(q: Query, entries: seq<DfsFile>): seq<Packet>
    requires AllReadable(entries)
  {
    Spend(q, Findable(q, KeptFiles(q, entries), _ => true), PCAP_HEADER).taken
  }

  lemma {:induction false} AllAreGood(files: seq<DfsFile>, good: DfsFile -> bool)
    requires forall f :: good(f)
    ensures ReadableOnes(files, good) == files
  {
    if files != [] {
      AllAreGood(files[..|files| - 1], good);
    }
  }

  lemma SearchIsFilter(q: Query, entries: seq<DfsFile>)
    requires AllNamed(entries) && (q.limit == 0 || q.totalMatches) && SkipIsSafe(q)
    ensures AllReadable(entries) && Search(q, entries) == FilterFiles(q, entries)
  {
    hide WellNamed, Readable, KeptFiles, SkipIsSafe, FilterFiles, Spend;
    var good: DfsFile -> bool := _ => true;
    SearchEqualsFullScan(q, entries, good);
    AllAreGood(entries, good);
  }

  /**
    A search whose limit does not bind and whose skipping is safe finds exactly the rows on file that match, each as
    often as it was stored, in whatever order the directory is listed.
   */
  lemma SearchFindsWhatIsStored(s: State, dir: string, entries: seq<DfsFile>, q: Query)
    requires Reachable(s) && '-' !in dir && LanesClear(s) && Lists(entries, dir, s)
    requires (q.limit == 0 || q.totalMatches) && SkipIsSafe(q)
    ensures AllReadable(entries)
    ensures |s.lanes| == LANES
    ensures forall p :: multiset(Search(q, entries))[p] == if Matches(q, p) then RowsOnFile(s)[p] else 0
  {
    assert |s.lanes| == LANES && AllLanesTimed(s);
    hide Reachable, LanesClear, AllNamed, Search, Matches, FilesRows, RowsOnFile, SkipIsSafe, AllLanesTimed, Once,
      InDirectory;
    EntriesAreNamed(s, dir, entries);
    SearchIsFilter(q, entries);
    AllFilesListed(dir, s);
    OrderDoesNotMatter(entries, AllFiles(dir, s));
    AllFilesRows(dir, s);
    forall p
      ensures multiset(Search(q, entries))[p] == if Matches(q, p) then RowsOnFile(s)[p] else 0
    {
      FilesCounted(q, entries, p);
    }
  }

  lemma NothingButStored(l: Lane, groups: seq<Group>)
    requires NoGroup(l) && Pending(l) == [] && l.file.None? && AllIntact(l.stored)
    ensures LaneRows(l, groups) == IntactRows(l.stored)
  {
    AllIntactRows(l.stored);
  }

  lemma AcceptedAreStored(s: State)
    requires Reachable(s) && AllIsStored(s)
    ensures multiset(s.accepted) == RowsOnFile(s)
  {
    RowsAreConserved(s);
    hide Reachable, LaneRows, IntactRows, AllIntact, NoGroup, Pending;
    NothingButStored(s.lanes[0], s.groups);
    NothingButStored(s.lanes[1], s.groups);
    NothingButStored(s.lanes[2], s.groups);
    NothingButStored(s.lanes[3], s.groups);
  }

  /**
    Once all is stored, a search finds every accepted packet that matches, as often as it was accepted, and nothing
    else.
   */
  lemma SearchFindsWhatWasAccepted(s: State, dir: string, entries: seq<DfsFile>, q: Query)
    requires Reachable(s) && AllIsStored(s) && '-' !in dir && LanesClear(s) && Lists(entries, dir, s)
    requires (q.limit == 0 || q.totalMatches) && SkipIsSafe(q)
    ensures AllReadable(entries)
    ensures multiset(Search(q, entries)) == multiset(FilterRows(q, s.accepted))
  {
    hide *;
    SearchFindsWhatIsStored(s, dir, entries, q);
    AcceptedAreStored(s);
    forall p ensures multiset(Search(q, entries))[p] == multiset(FilterRows(q, s.accepted))[p] {
      RowsCounted(q, s.accepted, p);
    }
  }
}
