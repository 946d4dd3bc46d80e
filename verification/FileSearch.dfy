/** The search over stored files: skipping by name, the row filter, and what they find together. */
module FileSearch {
  import opened Common
  import opened FileNames
  import opened Pipeline
  import opened PipelineInv
  import opened PipelineSafety

  /** What a task asks for; zero stands for "any". */
  datatype Query = Query(stime: int, etime: int, sip: u32, dip: u32, sport: word, dport: word, proto: word,
                         limit: nat, totalMatches: bool)

  /** A stored file: its name and its row groups, as decoding it gives them. */
  datatype DfsFile = DfsFile(name: string, groups: seq<seq<Packet>>)

  /** `is_match_session`. */
  predicate MatchesSession(q: Query, p: Packet) {
    if q.proto != 0 && q.proto != p.proto then false
    else if q.sip != 0 && q.dip != 0 then
      (q.sip == p.sip && q.dip == p.dip) || (q.dip == p.sip && q.sip == p.dip)
    else if q.sport != 0 && q.dport != 0 then
      (q.sport == p.sport && q.dport == p.dport) || (q.dport == p.sport && q.sport == p.dport)
    else
      && !(q.sip != 0 && q.sip != p.sip) && !(q.dip != 0 && q.dip != p.dip)
      && !(q.sport != 0 && q.sport != p.sport) && !(q.dport != 0 && q.dport != p.dport)
  }

  /** The row filter of `decode_parquet`. */
  predicate Matches(q: Query, p: Packet) {
    !(q.stime != 0 && q.etime != 0 && (p.Second() > q.etime || p.Second() < q.stime)) && MatchesSession(q, p)
  }

  // ---------------------------------------------------------------- which packets match

  /** A field that is given agrees; zero asks for nothing. */
  predicate Agrees(asked: int, found: int) { asked == 0 || asked == found }

  predicate BothAddresses(q: Query) { q.sip != 0 && q.dip != 0 }

  predicate BothPorts(q: Query) { q.sport != 0 && q.dport != 0 }

  /**
    Both addresses of a session match its packets in either direction, whatever the ports; so do both ports, if not both
    addresses are given, and then a single address makes no difference;
      otherwise every field that is given has to agree.
   */
  lemma SessionExactly(q: Query, p: Packet)
    ensures MatchesSession(q, p) <==>
      && Agrees(q.proto, p.proto)
      && (BothAddresses(q) ==> multiset{p.sip, p.dip} == multiset{q.sip, q.dip})
      && (!BothAddresses(q) && BothPorts(q) ==> multiset{p.sport, p.dport} == multiset{q.sport, q.dport})
      && (!BothAddresses(q) && !BothPorts(q) ==>
            Agrees(q.sip, p.sip) && Agrees(q.dip, p.dip) && Agrees(q.sport, p.sport) && Agrees(q.dport, p.dport))
  {
    SamePair(p.sip, p.dip, q.sip, q.dip);
    SamePair(p.sport, p.dport, q.sport, q.dport);
  }

  lemma SamePair(a: int, b: int, c: int, d: int)
    ensures multiset{a, b} == multiset{c, d} <==> (a == c && b == d) || (a == d && b == c)
  {
    if multiset{a, b} == multiset{c, d} {
      assert a in multiset{c, d} && b in multiset{c, d} && multiset{a, b}[a] == multiset{c, d}[a];
    }
  }

  /** The time of a packet matters only if both bounds are given. */
  lemma MatchesExactly(q: Query, p: Packet)
    ensures Matches(q, p) <==>
      MatchesSession(q, p) && (q.stime == 0 || q.etime == 0 || q.stime <= p.Second() <= q.etime)
  {
    hide MatchesSession;
  }

  /** A packet that goes the other way. */
  function Reply(p: Packet): Packet { p.(sip := p.dip, dip := p.sip, sport := p.dport, dport := p.sport) }

  /** A session asked for by both addresses or both ports is found in both directions. */
  lemma RepliesMatch(q: Query, p: Packet)
    requires BothAddresses(q) || BothPorts(q)
    ensures Matches(q, p) <==> Matches(q, Reply(p))
  {
    MatchesExactly(q, p);
    MatchesExactly(q, Reply(p));
    SessionExactly(q, p);
    SessionExactly(q, Reply(p));
    assert Reply(p).Second() == p.Second();
    SamePair(p.sip, p.dip, p.dip, p.sip);
    SamePair(p.sport, p.dport, p.dport, p.sport);
    hide Matches, MatchesSession;
  }

  // ---------------------------------------------------------------- which files are read

  /** The test of `scan_file_impl` on the interval in a name. */
  predicate Overlaps(q: Query, start: int, end: int) { q.stime <= end && q.etime >= start }

  function FilterRows(q: Query, rows: seq<Packet>): seq<Packet> {
    if rows == [] then []
    else FilterRows(q, rows[..|rows| - 1]) + (if Matches(q, rows[|rows| - 1]) then [rows[|rows| - 1]] else [])
  }

  function FilterGroups(q: Query, groups: seq<seq<Packet>>): seq<Packet> {
    if groups == [] then [] else FilterGroups(q, groups[..|groups| - 1]) + FilterRows(q, groups[|groups| - 1])
  }

  /** A full scan: every file is filtered. */
  function FilterFiles(q: Query, files: seq<DfsFile>): seq<Packet> {
    if files == [] then [] else FilterFiles(q, files[..|files| - 1]) + FilterGroups(q, files[|files| - 1].groups)
  }

  /** The packet is in some row group of the file. */
  ghost predicate InFile(p: Packet, f: DfsFile) { exists g :: g in f.groups && p in g }

  lemma InLonger<T>(s: seq<T>, x: T)
    requires s != []
    ensures x in s <==> x in s[..|s| - 1] || x == s[|s| - 1]
  {
    assert s == s[..|s| - 1] + [s[|s| - 1]];
  }

  lemma {:induction false} FilterRowsExactly(q: Query, rows: seq<Packet>, p: Packet)
    ensures p in FilterRows(q, rows) <==> Matches(q, p) && p in rows
  {
    if rows != [] {
      FilterRowsExactly(q, rows[..|rows| - 1], p);
      InLonger(rows, p);
      hide Matches;
    }
  }

  lemma {:induction false} FilterGroupsExactly(q: Query, groups: seq<seq<Packet>>, p: Packet)
    ensures p in FilterGroups(q, groups) <==> Matches(q, p) && exists g :: g in groups && p in g
  {
    if groups != [] {
      FilterGroupsExactly(q, groups[..|groups| - 1], p);
      FilterRowsExactly(q, groups[|groups| - 1], p);
      forall g ensures g in groups <==> g in groups[..|groups| - 1] || g == groups[|groups| - 1] {
        InLonger(groups, g);
      }
      hide Matches, FilterRows;
    }
  }

  /** A full scan finds the packets that match in any of the files. */
  lemma {:induction false} FilterFilesExactly(q: Query, files: seq<DfsFile>, p: Packet)
    ensures p in FilterFiles(q, files) <==> Matches(q, p) && exists f :: f in files && InFile(p, f)
  {
    if files != [] {
      var last := files[|files| - 1];
      FilterFilesExactly(q, files[..|files| - 1], p);
      FilterGroupsExactly(q, last.groups, p);
      assert InFile(p, last) <==> exists g :: g in last.groups && p in g;
      assert last in files;
      forall f ensures f in files <==> f in files[..|files| - 1] || f == files[|files| - 1] {
        InLonger(files, f);
      }
      hide Matches, FilterGroups;
    }
  }

  /** A name the scan can read. */
  predicate Readable(f: DfsFile) {
    '/' in f.name && '-' in f.name && ParseFileName(f.name).0.Some? && ParseFileName(f.name).1.Some?
  }

  predicate AllReadable(files: seq<DfsFile>) { forall i :: 0 <= i < |files| ==> Readable(files[i]) }

  /** The file bears an interval that covers its packets, as a finished file does. */
  ghost predicate WellNamed(f: DfsFile) {
    && Readable(f)
    && forall i, j :: 0 <= i < |f.groups| && 0 <= j < |f.groups[i]| ==>
         ParseFileName(f.name).0.value <= f.groups[i][j].Second() <= ParseFileName(f.name).1.value
  }

  predicate Kept(q: Query, f: DfsFile)
    requires Readable(f)
  {
    var (start, end) := ParseFileName(f.name);
    Overlaps(q, start.value, end.value)
  }

  /** A file is handed on exactly when some second lies both in its interval and between the bounds. */
  lemma KeptExactly(q: Query, f: DfsFile)
    requires Readable(f) && q.stime <= q.etime
    requires ParseFileName(f.name).0.value <= ParseFileName(f.name).1.value
    ensures Kept(q, f) <==>
      exists t: int :: InBetween(q.stime, t, q.etime)
        && InBetween(ParseFileName(f.name).0.value, t, ParseFileName(f.name).1.value)
  {
    hide ParseFileName;
    var start, end := ParseFileName(f.name).0.value, ParseFileName(f.name).1.value;
    var t := Max(start, q.stime);
    assert Kept(q, f) ==> InBetween(q.stime, t, q.etime) && InBetween(start, t, end);
  }

  predicate InBetween(low: int, t: int, high: int) { low <= t <= high }

  /** The files the scan hands on. */
  function KeptFiles(q: Query, files: seq<DfsFile>): seq<DfsFile>
    requires AllReadable(files)
  {
    if files == [] then []
    else KeptFiles(q, files[..|files| - 1]) + (if Kept(q, files[|files| - 1]) then [files[|files| - 1]] else [])
  }

  lemma {:induction false} KeptFilesAre(q: Query, files: seq<DfsFile>, f: DfsFile)
    requires AllReadable(files)
    ensures f in KeptFiles(q, files) <==> f in files && Kept(q, f)
  {
    if files != [] {
      hide Kept, Readable;
      KeptFilesAre(q, files[..|files| - 1], f);
      InLonger(files, f);
    }
  }

  // ---------------------------------------------------------------- skipping loses nothing

  lemma {:induction false} NothingInRows(q: Query, rows: seq<Packet>)
    requires forall j :: 0 <= j < |rows| ==> !Matches(q, rows[j])
    ensures FilterRows(q, rows) == []
  {
    if rows != [] {
      NothingInRows(q, rows[..|rows| - 1]);
    }
  }

  lemma {:induction false} NothingInGroups(q: Query, groups: seq<seq<Packet>>)
    requires forall i, j :: 0 <= i < |groups| && 0 <= j < |groups[i]| ==> !Matches(q, groups[i][j])
    ensures FilterGroups(q, groups) == []
  {
    if groups != [] {
      NothingInGroups(q, groups[..|groups| - 1]);
      NothingInRows(q, groups[|groups| - 1]);
    }
  }

  /** When the skip test can only fail on files in which no row matches. */
  predicate SkipIsSafe(q: Query) {
    (q.stime != 0 && q.etime != 0) || (q.stime == 0 && q.etime >= MAX_SECOND)
  }

  /** The largest second a packet can bear: its time has 64 bits. */
  const MAX_SECOND := 0xffff_ffff

  lemma SkippedHasNone(q: Query, f: DfsFile)
    requires SkipIsSafe(q) && WellNamed(f) && !Kept(q, f)
    ensures FilterGroups(q, f.groups) == []
  {
    var (start, end) := ParseFileName(f.name);
    forall i, j | 0 <= i < |f.groups| && 0 <= j < |f.groups[i]|
      ensures !Matches(q, f.groups[i][j])
    {
      assert start.value <= f.groups[i][j].Second() <= end.value;
    }
    NothingInGroups(q, f.groups);
  }

  lemma {:induction false} FilterSnoc(q: Query, files: seq<DfsFile>, f: DfsFile)
    ensures FilterFiles(q, files + [f]) == FilterFiles(q, files) + FilterGroups(q, f.groups)
  {
    assert (files + [f])[..|files|] == files;
  }

  ghost predicate AllNamed(files: seq<DfsFile>) {
    forall i :: 0 <= i < |files| ==> Readable(files[i]) && WellNamed(files[i])
  }

  /** Skipping files by name finds the same packets, in the same order, as reading them all. */
  lemma {:induction false} PrunedEqualsFull(q: Query, files: seq<DfsFile>)
    requires SkipIsSafe(q) && AllNamed(files)
    ensures FilterFiles(q, KeptFiles(q, files)) == FilterFiles(q, files)
  {
    if files != [] {
      var init, f := files[..|files| - 1], files[|files| - 1];
      PrunedEqualsFull(q, init);
      if Kept(q, f) {
        FilterSnoc(q, KeptFiles(q, init), f);
      } else {
        SkippedHasNone(q, f);
        assert KeptFiles(q, init) + [] == KeptFiles(q, init);
      }
    }
  }

  /** A packet of the session asked for, received in a given second. */
  function Asked(q: Query, second: u32): Packet {
    Packet(second * 0x1_0000_0000, q.sip, q.dip, q.sport, q.dport, 0, q.proto, [])
  }

  /** A second outside the interval asked for that an absent bound lets through. */
  function Outside(q: Query): u32 { if q.stime == 0 && 1 <= q.etime < MAX_SECOND then q.etime + 1 else 1 }

  lemma OutsideMatches(q: Query)
    requires !SkipIsSafe(q)
    ensures var s := Outside(q); Asked(q, s).Second() == s && Matches(q, Asked(q, s)) && !Overlaps(q, s, s)
  {}

  lemma NamedByItsSecond(q: Query, p: Packet, second: u32) returns (f: DfsFile)
    requires p.Second() == second
    ensures f.groups == [[p]] && WellNamed(f)
    ensures Kept(q, f) <==> Overlaps(q, second, second)
  {
    hide Overlaps, FileName, ParseFileName;
    f := DfsFile(FileName("", second, second, 0), [[p]]);
    NameReadsBack("", second, second, 0);
  }

  /** With any other bounds there is a file that is skipped although a full scan finds its only packet. */
  lemma UnsafeSkipLoses(q: Query) returns (f: DfsFile)
    requires !SkipIsSafe(q)
    ensures WellNamed(f)
    ensures FilterFiles(q, KeptFiles(q, [f])) != FilterFiles(q, [f])
  {
    hide Matches, Overlaps, FilterFiles, FileName, ParseFileName, Outside, Asked, SkipIsSafe;
    var p := Asked(q, Outside(q));
    OutsideMatches(q);
    f := NamedByItsSecond(q, p, Outside(q));
    OneRow(q, f, p);
    OneSkipped(q, f);
  }

  lemma OneSkipped(q: Query, f: DfsFile)
    requires Readable(f) && !Kept(q, f)
    ensures KeptFiles(q, [f]) == [] && FilterFiles(q, []) == []
  {
    assert [f][..0] == [];
  }

  lemma OneRow(q: Query, f: DfsFile, p: Packet)
    requires f.groups == [[p]] && Matches(q, p)
    ensures FilterFiles(q, [f]) == [p]
  {
    assert [p][..0] == [] && [[p]][..0] == [] && [f][..0] == [];
    assert FilterRows(q, [p]) == [] + [p];
    assert FilterGroups(q, [[p]]) == [] + [p];
  }

  /**
    Skipping by name never changes what a search finds, whatever files there are, exactly when both bounds
    are given, or the lower one is absent and the upper one is not below any second a packet can bear.
   */
  lemma SkipIsSafeExactly(q: Query)
    ensures SkipIsSafe(q) <==>
      forall files :: AllNamed(files) ==> FilterFiles(q, KeptFiles(q, files)) == FilterFiles(q, files)
  {
    if SkipIsSafe(q) {
      forall files | AllNamed(files)
        ensures FilterFiles(q, KeptFiles(q, files)) == FilterFiles(q, files)
      {
        PrunedEqualsFull(q, files);
      }
    } else {
      var f := UnsafeSkipLoses(q);
      assert AllNamed([f]);
    }
  }

  // ---------------------------------------------------------------- the files the pipeline stores

  function BlockGroups(blocks: seq<Block>): (groups: seq<seq<Packet>>)
    ensures |groups| == |blocks| && forall i :: 0 <= i < |blocks| ==> groups[i] == blocks[i].rows
  {
    seq(|blocks|, i requires 0 <= i < |blocks| => blocks[i].rows)
  }

  /** A finished file as the search finds it in directory `dir`. */
  function StoredAs(dir: string, id: nat, r: Stored): DfsFile
    requires 0 <= r.start && 0 <= r.end
  {
    DfsFile(FileName(dir, r.start, r.end, id), BlockGroups(r.blocks))
  }

  /** Every file the pipeline finishes is named by an interval that covers its packets. */
  lemma StoredIsWellNamed(s: State, w: nat, i: nat, dir: string)
    requires Reachable(s) && LaneOf(s, w) && i < |s.lanes[w].stored| && '-' !in dir
    ensures var r := s.lanes[w].stored[i];
      0 <= r.start && 0 <= r.end && WellNamed(StoredAs(dir, w, r))
  {
    hide Inv, Reachable;
    FinishedFilesAreWhole(s, w, i);
    var r := s.lanes[w].stored[i];
    NameReadsBack(dir, r.start, r.end, w);
  }
}
