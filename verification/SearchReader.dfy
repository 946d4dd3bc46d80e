/** The search as the reader runs it: scan, decode file after file, stop at the size limit. */
module SearchReader {
  import opened Common
  import opened Pipeline
  import opened FileNames
  import opened FileSearch

  /** The size of a pcap file's header, and of the header before each packet. */
  const PCAP_HEADER := 24
  const PCAP_PACKET_HEADER := 16

  /** The packets taken, the size counted so far, and whether to go on. */
  datatype Outcome = Outcome(size: nat, taken: seq<Packet>, more: bool)

  predicate OverLimit(q: Query, size: nat) { q.limit != 0 && size > q.limit && !q.totalMatches }

  function SizeOf(p: Packet): nat { |p.payload| + PCAP_PACKET_HEADER }

  /** Taking the matching packets `m` in order until one goes over the limit; that one is counted but not taken. */
  function Spend(q: Query, m: seq<Packet>, size: nat): Outcome {
    if m == [] then Outcome(size, [], true)
    else
      var size' := size + SizeOf(m[0]);
      if OverLimit(q, size') then Outcome(size', [], false)
      else
        var rest := Spend(q, m[1..], size');
        rest.(taken := [m[0]] + rest.taken)
  }

  function Then(a: Outcome, q: Query, m: seq<Packet>): Outcome {
    if !a.more then a
    else
      var b := Spend(q, m, a.size);
      b.(taken := a.taken + b.taken)
  }

  lemma {:induction false} SpendSplits(q: Query, a: seq<Packet>, b: seq<Packet>, size: nat)
    ensures Spend(q, a + b, size) == Then(Spend(q, a, size), q, b)
  {
    if a == [] {
      assert a + b == b;
    } else {
      assert (a + b)[1..] == a[1..] + b && (a + b)[0] == a[0];
      if !OverLimit(q, size + SizeOf(a[0])) {
        SpendSplits(q, a[1..], b, size + SizeOf(a[0]));
      }
    }
  }

  function TotalSize(m: seq<Packet>): nat {
    if m == [] then 0 else SizeOf(m[0]) + TotalSize(m[1..])
  }

  /** What is taken is the longest start of the matches that stays within the limit; without a limit, all of them. */
  lemma {:induction false} SpendTakesWhatFits(q: Query, m: seq<Packet>, size: nat)
    requires !OverLimit(q, size)
    ensures var r := Spend(q, m, size);
      && r.taken <= m
      && (r.more <==> r.taken == m)
      && (q.limit == 0 || q.totalMatches ==> r.more)
      && !OverLimit(q, size + TotalSize(r.taken))
      && (!r.more ==> |r.taken| < |m| && OverLimit(q, size + TotalSize(m[..|r.taken| + 1])))
  {
    if m != [] && !OverLimit(q, size + SizeOf(m[0])) {
      SpendTakesWhatFits(q, m[1..], size + SizeOf(m[0]));
      var r := Spend(q, m, size);
      var rest := Spend(q, m[1..], size + SizeOf(m[0]));
      assert r.taken[1..] == rest.taken;
      if !r.more {
        assert m[..|r.taken| + 1][1..] == m[1..][..|rest.taken| + 1];
      }
    } else if m != [] {
      assert m[..1][1..] == [];
      assert TotalSize(m[..1]) == SizeOf(m[0]) + TotalSize([]);
    }
  }

  /** What `Spend` has counted: the packets taken and the one that went over. */
  lemma {:induction false} SpendCounts(q: Query, m: seq<Packet>, size: nat)
    ensures var r := Spend(q, m, size);
      r.taken <= m && (r.more <==> r.taken == m) && r.size == size + TotalSize(if r.more then m else m[..|r.taken| + 1])
  {
    if m != [] && !OverLimit(q, size + SizeOf(m[0])) {
      SpendCounts(q, m[1..], size + SizeOf(m[0]));
      var r, rest := Spend(q, m, size), Spend(q, m[1..], size + SizeOf(m[0]));
      assert r.taken[1..] == rest.taken;
      assert !r.more ==> m[..|r.taken| + 1][1..] == m[1..][..|rest.taken| + 1];
    } else if m != [] {
      assert m[..1][1..] == [] && m[..1][0] == m[0];
      assert TotalSize(m[..1]) == SizeOf(m[0]) + TotalSize([]);
    }
  }

  /** The files whose contents can be read; the others are passed over. */
  function ReadableOnes(files: seq<DfsFile>, good: DfsFile -> bool): seq<DfsFile> {
    if files == [] then []
    else ReadableOnes(files[..|files| - 1], good) + (if good(files[|files| - 1]) then [files[|files| - 1]] else [])
  }

  lemma {:induction false} ReadableOnesAre(files: seq<DfsFile>, good: DfsFile -> bool, f: DfsFile)
    ensures f in ReadableOnes(files, good) <==> f in files && good(f)
  {
    if files != [] {
      ReadableOnesAre(files[..|files| - 1], good, f);
      assert files == files[..|files| - 1] + [files[|files| - 1]];
    }
  }

  /** What reading these files can find. */
  function Findable(q: Query, files: seq<DfsFile>, good: DfsFile -> bool): seq<Packet> {
    FilterFiles(q, ReadableOnes(files, good))
  }

  /** What can be found are the matching packets of the files that can be read. */
  lemma FindableExactly(q: Query, files: seq<DfsFile>, good: DfsFile -> bool, p: Packet)
    ensures p in Findable(q, files, good) <==> Matches(q, p) && exists f :: f in files && good(f) && InFile(p, f)
  {
    FilterFilesExactly(q, ReadableOnes(files, good), p);
    forall f ensures f in ReadableOnes(files, good) <==> f in files && good(f) {
      ReadableOnesAre(files, good, f);
    }
  }

  /** The ring of file names: those the scanner has pushed and the reader not yet popped, then the end marker `None`. */
  ghost predicate Ring(fileList: seq<Option<DfsFile>>, waiting: seq<DfsFile>, marked: bool) {
    && |fileList| == |waiting| + (if marked then 1 else 0)
    && (forall i :: 0 <= i < |waiting| ==> fileList[i] == Some(waiting[i]))
    && (marked ==> fileList[|waiting|] == None)
  }

  /** `DfsParquetReader`, with the rings to and from it as sequences. */
  class DfsParquetReader {
    const query: Query
    var matchPacketSize: nat
    var continueSearching: bool
    var fileList: seq<Option<DfsFile>>
    var found: seq<Packet>

    constructor (q: Query)
      ensures query == q && matchPacketSize == PCAP_HEADER && continueSearching && fileList == [] && found == []
    {
      query := q;
      matchPacketSize, continueSearching, fileList, found := PCAP_HEADER, true, [], [];
    }

    /** One turn of the loop in `scan_file_impl`, for an entry that is no directory. */
    method ScanEntry(entry: DfsFile)
      requires Readable(entry)
      modifies this`fileList
      ensures fileList == old(fileList) + if Kept(query, entry) then [Some(entry)] else []
    {
      KeptMeansOverlap(query, entry);
      hide ParseFileName, Overlaps;
      var (startTs, endTs) := ParseFileName(entry.name);
      if query.stime <= endTs.value && query.etime >= startTs.value {
        fileList := fileList + [Some(entry)];
      }
    }

    /** The rows of one row group. */
    method DecodeGroup(rows: seq<Packet>) returns (more: bool)
      modifies this`matchPacketSize, this`found
      ensures Then(Outcome(old(matchPacketSize), old(found), true), query, FilterRows(query, rows))
        == Outcome(matchPacketSize, found, more)
    {
      ghost var start := Outcome(matchPacketSize, found, true);
      assert rows[..0] == [];
      var idx := 0;
      while idx < |rows|
        invariant 0 <= idx <= |rows|
        invariant Then(start, query, FilterRows(query, rows[..idx])) == Outcome(matchPacketSize, found, true)
      {
        var p := rows[idx];
        assert rows[..idx + 1][..idx] == rows[..idx];
        idx := idx + 1;
        ghost var before := FilterRows(query, rows[..idx - 1]);
        assert before + [] == before;
        if query.stime != 0 && query.etime != 0 && (p.Second() > query.etime || p.Second() < query.stime) {
          continue;
        }
        if !MatchesSession(query, p) {
          continue;
        }
        OneMore(start, query, before, p);
        matchPacketSize := matchPacketSize + |p.payload| + PCAP_PACKET_HEADER;
        if query.limit != 0 && matchPacketSize > query.limit && !query.totalMatches {
          StoppedStays(start, query, rows, idx);
          return false;
        }
        found := found + [p];
      }
      assert rows[..|rows|] == rows;
      return true;
    }

    /** `decode_parquet`, over the row groups of a file. */
    method DecodeParquet(groups: seq<seq<Packet>>) returns (more: bool)
      modifies this`matchPacketSize, this`found
      ensures Then(Outcome(old(matchPacketSize), old(found), true), query, FilterGroups(query, groups))
        == Outcome(matchPacketSize, found, more)
    {
      ghost var start := Outcome(matchPacketSize, found, true);
      assert groups[..0] == [];
      var num := 0;
      while num < |groups|
        invariant 0 <= num <= |groups|
        invariant Then(start, query, FilterGroups(query, groups[..num])) == Outcome(matchPacketSize, found, true)
      {
        assert groups[..num + 1][..num] == groups[..num];
        ThenSplits(start, query, FilterGroups(query, groups[..num]), FilterRows(query, groups[num]));
        more := DecodeGroup(groups[num]);
        num := num + 1;
        if !more {
          GroupsStop(start, query, groups, num);
          return false;
        }
      }
      assert groups[..|groups|] == groups;
      return true;
    }

    /** `read_file_from_dfs`: a file that cannot be read or closed is passed over. */
    method ReadFileFromDfs(f: DfsFile, good: DfsFile -> bool) returns (more: bool)
      modifies this`matchPacketSize, this`found
      ensures Then(Outcome(old(matchPacketSize), old(found), true), query, Findable(query, [f], good))
        == Outcome(matchPacketSize, found, more)
    {
      OneFindable(query, f, good);
      hide *;
      if !good(f) {
        ThenNothing(Outcome(matchPacketSize, found, true), query);
        return true;
      }
      more := DecodeParquet(f.groups);
    }

    /**
      Where a search stands: `idx` entries scanned, the files `taken` off the ring dealt with, others `waiting` on it.
     */
    ghost predicate Searching(entries: seq<DfsFile>, good: DfsFile -> bool, idx: nat, marked: bool, finished: bool,
                              taken: seq<DfsFile>, waiting: seq<DfsFile>)
      reads this
    {
      && AllReadable(entries) && idx <= |entries| && KeptFiles(query, entries[..idx]) == taken + waiting
      && Ring(fileList, waiting, marked && !finished) && (finished ==> marked && waiting == [])
      && (marked ==> idx == |entries| || !continueSearching)
      && Spend(query, Findable(query, taken, good), PCAP_HEADER) == Outcome(matchPacketSize, found, continueSearching)
    }

    /** The scanner's turn: the next entry, or the end marker when there is none or the search has been stopped. */
    method ScanTurn(entries: seq<DfsFile>, good: DfsFile -> bool, idx0: nat, ghost taken: seq<DfsFile>,
                    ghost waiting0: seq<DfsFile>)
      returns (idx: nat, marked: bool, ghost waiting: seq<DfsFile>)
      requires Searching(entries, good, idx0, false, false, taken, waiting0)
      modifies this`fileList
      ensures Searching(entries, good, idx, marked, false, taken, waiting)
      ensures if marked then idx == idx0 else idx == idx0 + 1
    {
      hide Spend, Findable, Kept, KeptFiles;
      idx, marked, waiting := idx0, idx0 == |entries| || !continueSearching, waiting0;
      if marked {
        fileList := fileList + [None];
      } else {
        ScanEntry(entries[idx]);
        KeptNext(query, entries, idx);
        ghost var kept := if Kept(query, entries[idx]) then [entries[idx]] else [];
        assert taken + (waiting + kept) == taken + waiting + kept;
        waiting := waiting + kept;
        idx := idx + 1;
      }
    }

    /** The reader's turn: the next file on the ring, unless the search has been stopped, or the end marker. */
    method ReadTurn(entries: seq<DfsFile>, good: DfsFile -> bool, ghost idx: nat, ghost marked: bool,
                    ghost taken0: seq<DfsFile>, ghost waiting0: seq<DfsFile>)
      returns (finished: bool, ghost taken: seq<DfsFile>, ghost waiting: seq<DfsFile>)
      requires Searching(entries, good, idx, marked, false, taken0, waiting0) && fileList != []
      modifies this
      ensures Searching(entries, good, idx, marked, finished, taken, waiting) && |fileList| == old(|fileList|) - 1
    {
      hide Spend, Findable, KeptFiles, AllReadable;
      var next := fileList[0];
      fileList := fileList[1..];
      finished, taken, waiting := next.None?, taken0, waiting0;
      if next.Some? {
        taken, waiting := taken0 + [next.value], waiting0[1..];
        assert taken0 + waiting0 == taken + waiting;
        FindableNext(query, taken0, next.value, good);
        SpendSplits(query, Findable(query, taken0, good), Findable(query, [next.value], good), PCAP_HEADER);
        if continueSearching {
          continueSearching := ReadFileFromDfs(next.value, good);
        }
      }
    }

    /**
      `do_search` with one reader thread: the scanner goes through the directory while the reader takes what it has
      pushed. Whenever both can go on, `scannerGoes` says who does; the search ends whatever it says, and what it finds
      does not depend on it.
     */
    method DoSearch(entries: seq<DfsFile>, good: DfsFile -> bool, scannerGoes: nat -> bool)
      requires AllReadable(entries)
      requires continueSearching && fileList == [] && found == [] && matchPacketSize == PCAP_HEADER
      modifies this
      ensures Spend(query, Findable(query, KeptFiles(query, entries), good), PCAP_HEADER)
        == Outcome(matchPacketSize, found, continueSearching)
    {
      var idx, marked, finished, turn := 0, false, false, 0;
      ghost var taken: seq<DfsFile>, waiting: seq<DfsFile> := [], [];
      assert Searching(entries, good, idx, marked, finished, taken, waiting);
      hide *;
      while !finished
        invariant idx <= |entries| && (!finished && marked ==> fileList != [])
        invariant Searching(entries, good, idx, marked, finished, taken, waiting)
        decreases |entries| - idx, if marked then 0 else 1, |fileList|
      {
        if !marked && (fileList == [] || scannerGoes(turn)) {
          idx, marked, waiting := ScanTurn(entries, good, idx, taken, waiting);
        } else {
          finished, taken, waiting := ReadTurn(entries, good, idx, marked, taken, waiting);
        }
        InSearch(this, entries, good, idx, marked, finished, taken, waiting);
        turn := turn + 1;
      }
      SearchEnds(this, entries, good, idx, marked, taken, waiting);
    }
  }

  lemma InSearch(r: DfsParquetReader, entries: seq<DfsFile>, good: DfsFile -> bool, idx: nat, marked: bool,
                 finished: bool, taken: seq<DfsFile>, waiting: seq<DfsFile>)
    requires r.Searching(entries, good, idx, marked, finished, taken, waiting)
    ensures idx <= |entries| && (!finished && marked ==> r.fileList != [])
  {
    hide Spend, Findable, KeptFiles, AllReadable;
  }

  /** When the end marker has been taken off, the files not read make no difference. */
  lemma SearchEnds(r: DfsParquetReader, entries: seq<DfsFile>, good: DfsFile -> bool, idx: nat, marked: bool,
                   taken: seq<DfsFile>, waiting: seq<DfsFile>)
    requires r.Searching(entries, good, idx, marked, true, taken, waiting)
    ensures AllReadable(entries)
    ensures Spend(r.query, Findable(r.query, KeptFiles(r.query, entries), good), PCAP_HEADER)
      == Outcome(r.matchPacketSize, r.found, r.continueSearching)
  {
    hide Spend, Findable, KeptFiles;
    assert taken + [] == taken;
    if idx == |entries| {
      assert entries[..idx] == entries;
    } else {
      var rest := KeptSplits(r.query, entries, idx);
      FindableSplits(r.query, taken, rest, good);
      SpendSplits(r.query, Findable(r.query, taken, good), Findable(r.query, rest, good), PCAP_HEADER);
    }
  }

  lemma KeptNext(q: Query, entries: seq<DfsFile>, idx: nat)
    requires idx < |entries| && AllReadable(entries)
    ensures KeptFiles(q, entries[..idx + 1])
         == KeptFiles(q, entries[..idx]) + if Kept(q, entries[idx]) then [entries[idx]] else []
  {
    assert entries[..idx + 1][..idx] == entries[..idx];
  }

  lemma {:induction false} KeptSplits(q: Query, entries: seq<DfsFile>, idx: nat) returns (rest: seq<DfsFile>)
    requires idx <= |entries| && AllReadable(entries)
    ensures KeptFiles(q, entries) == KeptFiles(q, entries[..idx]) + rest
    decreases |entries| - idx
  {
    hide Kept, KeptFiles, Readable;
    if idx == |entries| {
      rest := [];
      assert entries[..idx] == entries && KeptFiles(q, entries) + [] == KeptFiles(q, entries);
    } else {
      var more := KeptSplits(q, entries, idx + 1);
      KeptNext(q, entries, idx);
      var next := if Kept(q, entries[idx]) then [entries[idx]] else [];
      rest := next + more;
      assert KeptFiles(q, entries[..idx]) + next + more == KeptFiles(q, entries[..idx]) + rest;
    }
  }

  lemma FindableNext(q: Query, files: seq<DfsFile>, f: DfsFile, good: DfsFile -> bool)
    ensures Findable(q, files + [f], good) == Findable(q, files, good) + Findable(q, [f], good)
  {
    OneFindable(q, f, good);
    hide FilterGroups;
    assert (files + [f])[..|files|] == files;
    if good(f) {
      FilterSnoc(q, ReadableOnes(files, good), f);
    } else {
      assert ReadableOnes(files, good) + [] == ReadableOnes(files, good);
    }
  }

  lemma OneFindable(q: Query, f: DfsFile, good: DfsFile -> bool)
    ensures Findable(q, [f], good) == if good(f) then FilterGroups(q, f.groups) else []
  {
    hide FilterGroups;
    assert [f][..0] == [];
    assert ReadableOnes([f], good) == [] + if good(f) then [f] else [];
    if good(f) {
      FilterSnoc(q, [], f);
      assert [] + [f] == [f] && [] + FilterGroups(q, f.groups) == FilterGroups(q, f.groups);
    }
  }

  lemma {:induction false} FindableSplits(q: Query, a: seq<DfsFile>, b: seq<DfsFile>, good: DfsFile -> bool)
    ensures Findable(q, a + b, good) == Findable(q, a, good) + Findable(q, b, good)
  {
    if b == [] {
      assert a + b == a && Findable(q, a, good) + [] == Findable(q, a, good);
    } else {
      hide Findable;
      var init, f := b[..|b| - 1], b[|b| - 1];
      FindableSplits(q, a, init, good);
      FindableNext(q, a + init, f, good);
      FindableNext(q, init, f, good);
      assert a + b == a + init + [f] && init + [f] == b;
    }
  }

  lemma ThenNothing(a: Outcome, q: Query)
    requires a.more
    ensures Then(a, q, []) == a
  {
    assert a.taken + [] == a.taken;
  }

  lemma KeptMeansOverlap(q: Query, f: DfsFile)
    requires Readable(f)
    ensures Kept(q, f) <==> q.stime <= ParseFileName(f.name).1.value && q.etime >= ParseFileName(f.name).0.value
  {}

  lemma ThenSplits(start: Outcome, q: Query, a: seq<Packet>, b: seq<Packet>)
    ensures Then(start, q, a + b) == Then(Then(start, q, a), q, b)
  {
    if start.more {
      SpendSplits(q, a, b, start.size);
      var x := Spend(q, a, start.size);
      if x.more {
        var y := Spend(q, b, x.size);
        assert start.taken + (x.taken + y.taken) == start.taken + x.taken + y.taken;
      }
    }
  }

  lemma OneMore(start: Outcome, q: Query, m: seq<Packet>, p: Packet)
    requires start.more && Then(start, q, m).more
    ensures var r := Then(start, q, m); var size := r.size + SizeOf(p);
      Then(start, q, m + [p]) == if OverLimit(q, size) then Outcome(size, r.taken, false)
        else Outcome(size, r.taken + [p], true)
  {
    ThenSplits(start, q, m, [p]);
    var r := Then(start, q, m);
    var size := r.size + SizeOf(p);
    assert [p][1..] == [] && [p] + [] == [p];
    assert Spend(q, [p], r.size) == if OverLimit(q, size) then Outcome(size, [], false) else Outcome(size, [p], true);
    assert r.taken + [] == r.taken;
  }

  lemma {:induction false} FilterRowsPrefix(q: Query, rows: seq<Packet>, i: nat)
    requires i <= |rows|
    ensures FilterRows(q, rows[..i]) <= FilterRows(q, rows)
  {
    if i < |rows| {
      var init := rows[..|rows| - 1];
      FilterRowsPrefix(q, init, i);
      assert init[..i] == rows[..i];
    } else {
      assert rows[..i] == rows;
    }
  }

  lemma {:induction false} FilterGroupsPrefix(q: Query, groups: seq<seq<Packet>>, i: nat)
    requires i <= |groups|
    ensures FilterGroups(q, groups[..i]) <= FilterGroups(q, groups)
  {
    if i < |groups| {
      var init := groups[..|groups| - 1];
      FilterGroupsPrefix(q, init, i);
      assert init[..i] == groups[..i];
    } else {
      assert groups[..i] == groups;
    }
  }

  /** Once over the limit, what else would match makes no difference. */
  lemma StoppedStays(start: Outcome, q: Query, rows: seq<Packet>, i: nat)
    requires i <= |rows| && !Then(start, q, FilterRows(q, rows[..i])).more
    ensures Then(start, q, FilterRows(q, rows)) == Then(start, q, FilterRows(q, rows[..i]))
  {
    FilterRowsPrefix(q, rows, i);
    var a, all := FilterRows(q, rows[..i]), FilterRows(q, rows);
    assert all == a + all[|a|..];
    ThenSplits(start, q, a, all[|a|..]);
  }

  lemma GroupsStop(start: Outcome, q: Query, groups: seq<seq<Packet>>, i: nat)
    requires i <= |groups| && !Then(start, q, FilterGroups(q, groups[..i])).more
    ensures Then(start, q, FilterGroups(q, groups)) == Then(start, q, FilterGroups(q, groups[..i]))
  {
    FilterGroupsPrefix(q, groups, i);
    var a, all := FilterGroups(q, groups[..i]), FilterGroups(q, groups);
    assert all == a + all[|a|..];
    ThenSplits(start, q, a, all[|a|..]);
  }

  /** Skipping files by name and passing over unreadable ones commute. */
  lemma {:induction false} KeptReadable(q: Query, files: seq<DfsFile>, good: DfsFile -> bool)
    requires AllReadable(files)
    ensures AllReadable(ReadableOnes(files, good))
    ensures KeptFiles(q, ReadableOnes(files, good)) == ReadableOnes(KeptFiles(q, files), good)
  {
    hide *;
    if files == [] {
      NoFiles(q, good);
    } else {
      var init, f := files[..|files| - 1], files[|files| - 1];
      assert files == init + [f];
      ReadableParts(init, f);
      KeptReadable(q, init, good);
      OneMoreKept(q, init, f, good);
      OneMoreReadable(init, f, good);
      OneMoreKept(q, ReadableOnes(init, good), f, good);
      OneMoreReadable(KeptFiles(q, init), f, good);
      var r, k := ReadableOnes(init, good), KeptFiles(q, init);
      assert r + [] == r && k + [] == k && ReadableOnes(k, good) + [] == ReadableOnes(k, good);
    }
  }

  lemma NoFiles(q: Query, good: DfsFile -> bool)
    ensures AllReadable([]) && KeptFiles(q, []) == [] && ReadableOnes([], good) == []
  {}

  lemma ReadableParts(init: seq<DfsFile>, f: DfsFile)
    requires AllReadable(init + [f])
    ensures AllReadable(init) && Readable(f)
  {
    hide Readable;
    assert (init + [f])[|init|] == f && forall i :: 0 <= i < |init| ==> (init + [f])[i] == init[i];
  }

  lemma OneMoreKept(q: Query, files: seq<DfsFile>, f: DfsFile, good: DfsFile -> bool)
    requires AllReadable(files) && Readable(f)
    ensures AllReadable(files + [f])
    ensures KeptFiles(q, files + [f]) == KeptFiles(q, files) + if Kept(q, f) then [f] else []
  {
    assert (files + [f])[..|files|] == files;
  }

  lemma OneMoreReadable(files: seq<DfsFile>, f: DfsFile, good: DfsFile -> bool)
    ensures ReadableOnes(files + [f], good) == ReadableOnes(files, good) + if good(f) then [f] else []
  {
    assert (files + [f])[..|files|] == files;
  }

  lemma {:induction false} ReadableAreNamed(files: seq<DfsFile>, good: DfsFile -> bool)
    requires AllNamed(files)
    ensures AllNamed(ReadableOnes(files, good))
  {
    hide WellNamed;
    if files != [] {
      ReadableAreNamed(files[..|files| - 1], good);
    }
  }

  /** When the limit does not bind and skipping is safe, a search finds what a full scan of the readable files finds. */
  lemma SearchEqualsFullScan(q: Query, files: seq<DfsFile>, good: DfsFile -> bool)
    requires (q.limit == 0 || q.totalMatches) && SkipIsSafe(q) && AllNamed(files)
    ensures Spend(q, Findable(q, KeptFiles(q, files), good), PCAP_HEADER).taken
      == FilterFiles(q, ReadableOnes(files, good))
  {
    hide WellNamed, KeptFiles, SkipIsSafe, FilterFiles, Spend, ReadableOnes;
    KeptReadable(q, files, good);
    ReadableAreNamed(files, good);
    PrunedEqualsFull(q, ReadableOnes(files, good));
    SpendTakesWhatFits(q, Findable(q, KeptFiles(q, files), good), PCAP_HEADER);
  }
}
