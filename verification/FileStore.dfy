/** The names under which finished files are found, when the file system replaces and refuses as it does. */
module FileStore {
  import opened Common
  import opened Numerals
  import opened FileNames
  import opened Pipeline
  import opened PipelineSafety

  /** The name a file was opened under, if it could be opened, and the name it is to be given at the end. */
  datatype Names = Names(interim: Option<string>, final: string)

  // ---------------------------------------------------------------- the directory

  /** Opening for writing replaces whatever has the name; `d` says which of the files written bears which name. */
  function Opened(d: map<string, nat>, name: string, i: nat): map<string, nat> { d[name := i] }

  /** Renaming is refused when the new name is taken. */
  function Renamed(d: map<string, nat>, from: string, to: string): map<string, nat> {
    if from !in d || to in d then d else (d - {from})[to := d[from]]
  }

  /**
    The directory after the files of one file writer, in the order written. For a file that could not be opened the
    source renames the final name to itself, which changes nothing.
   */
  function Directory(files: seq<Names>): map<string, nat> {
    if files == [] then map[]
    else
      var i := |files| - 1;
      match files[i].interim
      case None => Directory(files[..i])
      case Some(interim) => Renamed(Opened(Directory(files[..i]), interim, i), interim, files[i].final)
  }

  /** The directory while the writer has a file open under the name `under`, or none. */
  function Current(files: seq<Names>, under: Option<string>): map<string, nat> {
    match under
    case None => Directory(files)
    case Some(name) => Opened(Directory(files), name, |files|)
  }

  /** In `d`, file `i` is there under its final name. */
  predicate Found(d: map<string, nat>, files: seq<Names>, i: nat)
    requires i < |files|
  {
    files[i].final in d && d[files[i].final] == i
  }

  /** So is every finished file that could be opened. */
  ghost predicate AllFound(d: map<string, nat>, files: seq<Names>) {
    forall i :: 0 <= i < |files| && files[i].interim.Some? ==> Found(d, files, i)
  }

  /** No file is opened under, or given, the final name of an earlier one. */
  ghost predicate NamesClear(files: seq<Names>) {
    forall i, j :: 0 <= i < j < |files| && files[i].interim.Some? && files[j].interim.Some? ==>
      files[i].final != files[j].interim.value && files[i].final != files[j].final
  }

  /** Nor is the file now open opened under such a name. */
  ghost predicate NameClear(files: seq<Names>, name: string) {
    forall i :: 0 <= i < |files| && files[i].interim.Some? ==> files[i].final != name
  }

  ghost predicate AllClear(files: seq<Names>, under: Option<string>) {
    NamesClear(files) && (under.Some? ==> NameClear(files, under.value))
  }

  /** Every name in the directory is the final name of some file that could be opened. */
  ghost predicate OnlyFinals(files: seq<Names>) {
    forall name :: name in Directory(files) ==> exists i ::
      0 <= i < |files| && files[i].interim.Some? && files[i].final == name
  }

  /** A file whose names are new is added under its final one. */
  lemma NewIsAdded(files: seq<Names>)
    requires files != [] && files[|files| - 1].interim.Some?
    requires var n := |files| - 1;
      files[n].interim.value !in Directory(files[..n]) && files[n].final !in Directory(files[..n])
    ensures var n := |files| - 1; Directory(files) == Directory(files[..n])[files[n].final := n]
  {
    var n := |files| - 1;
    var d, interim := Directory(files[..n]), files[n].interim.value;
    assert d[interim := n] - {interim} == d;
  }

  /** A file that could not be opened changes nothing. */
  lemma UnopenedIsNothing(files: seq<Names>)
    requires files != [] && files[|files| - 1].interim.None?
    ensures Directory(files) == Directory(files[..|files| - 1])
  {}

  /** File `i` is in `d` under one of its two names. */
  ghost predicate IsThere(d: map<string, nat>, files: seq<Names>, i: nat)
    requires i < |files| && files[i].interim.Some?
  {
    || (files[i].interim.value in d && d[files[i].interim.value] == i)
    || (files[i].final in d && d[files[i].final] == i)
  }

  /** No file after `i` is opened under a name that `i` may bear. */
  ghost predicate NotReopened(files: seq<Names>, i: nat)
    requires i < |files| && files[i].interim.Some?
  {
    forall j :: i < j < |files| && files[j].interim.Some? ==>
      files[j].interim.value != files[i].interim.value && files[j].interim.value != files[i].final
  }

  /** Renaming loses no file, whatever names are taken: only opening a later one under its name does. */
  lemma {:induction false} OnlyOpeningLoses(files: seq<Names>, i: nat)
    requires i < |files| && files[i].interim.Some? && NotReopened(files, i)
    ensures IsThere(Directory(files), files, i)
    decreases |files|
  {
    var n := |files| - 1;
    if i < n {
      assert files[..n][i] == files[i];
      OnlyOpeningLoses(files[..n], i);
    }
  }

  /** With the names clear, the directory holds the final names and nothing else. */
  lemma {:induction false} ClearIsFound(files: seq<Names>)
    requires NamesClear(files)
    ensures AllFound(Directory(files), files) && OnlyFinals(files)
    decreases |files|
  {
    if files != [] {
      var n := |files| - 1;
      var init := files[..n];
      ClearBefore(files);
      ClearIsFound(init);
      if files[n].interim.None? {
        UnopenedIsNothing(files);
      } else {
        NewNames(files);
        NewIsAdded(files);
      }
      hide Directory;
      forall i | 0 <= i < |files| && files[i].interim.Some? ensures Found(Directory(files), files, i) {
        if i < n {
          assert Found(Directory(init), init, i) && files[i] == init[i];
        }
      }
      forall name | name in Directory(files) ensures exists i ::
        0 <= i < |files| && files[i].interim.Some? && files[i].final == name {
        if name in Directory(init) {
          var i :| 0 <= i < |init| && init[i].interim.Some? && init[i].final == name;
          assert files[i] == init[i];
        } else {
          assert files[n].final == name;
        }
      }
    }
  }

  lemma ClearBefore(files: seq<Names>)
    requires files != [] && NamesClear(files)
    ensures NamesClear(files[..|files| - 1])
  {
    var init := files[..|files| - 1];
    assert forall i :: 0 <= i < |init| ==> init[i] == files[i];
  }

  lemma NewNames(files: seq<Names>)
    requires files != [] && NamesClear(files) && files[|files| - 1].interim.Some? && OnlyFinals(files[..|files| - 1])
    ensures var n := |files| - 1;
      files[n].interim.value !in Directory(files[..n]) && files[n].final !in Directory(files[..n])
  {
    var n := |files| - 1;
    var init := files[..n];
    forall name | name in Directory(init) ensures name != files[n].interim.value && name != files[n].final {
      var i :| 0 <= i < |init| && init[i].interim.Some? && init[i].final == name;
      assert files[i] == init[i];
    }
  }

  /** A file found in the end was found before the last one was written, which had other names. */
  lemma FoundBefore(files: seq<Names>, i: nat)
    requires files != [] && i < |files| - 1 && files[i].interim.Some? && Found(Directory(files), files, i)
    ensures var n := |files| - 1;
      && Found(Directory(files[..n]), files[..n], i)
      && (files[n].interim.Some? ==>
            && files[i].final != files[n].interim.value
            && (Found(Directory(files), files, n) ==> files[i].final != files[n].final))
  {
    var n := |files| - 1;
    assert files[..n][i] == files[i];
  }

  lemma {:induction false} FoundIsClear(files: seq<Names>)
    requires AllFound(Directory(files), files)
    ensures NamesClear(files)
    decreases |files|
  {
    if files != [] {
      var n := |files| - 1;
      var init := files[..n];
      forall i | 0 <= i < n && init[i].interim.Some? ensures Found(Directory(init), init, i) {
        assert init[i] == files[i] && Found(Directory(files), files, i);
        FoundBefore(files, i);
      }
      FoundIsClear(init);
      forall i, j | 0 <= i < j < |files| && files[i].interim.Some? && files[j].interim.Some?
        ensures files[i].final != files[j].interim.value && files[i].final != files[j].final
      {
        assert init[i] == files[i];
        if j < n {
          assert init[j] == files[j];
        } else {
          assert Found(Directory(files), files, i) && Found(Directory(files), files, n);
          FoundBefore(files, i);
        }
      }
    }
  }

  /** Opening one more file leaves the others where they are exactly when it has no final name of theirs. */
  lemma OpeningLeavesExactly(files: seq<Names>, name: string)
    ensures AllFound(Opened(Directory(files), name, |files|), files)
      <==> AllFound(Directory(files), files) && NameClear(files, name)
  {
    hide Directory;
    var d := Directory(files);
    var d' := Opened(d, name, |files|);
    forall i | 0 <= i < |files| && files[i].interim.Some?
      ensures Found(d', files, i) <==> Found(d, files, i) && files[i].final != name
    {
    }
  }

  /**
    At any moment every finished file that could be opened is found under its own name exactly when no later one, nor
    the one now open, was opened under that name, and no later one was to be given it.
   */
  lemma AllFoundExactly(files: seq<Names>, under: Option<string>)
    ensures AllFound(Current(files, under), files) <==> AllClear(files, under)
  {
    hide Directory;
    if under.Some? {
      OpeningLeavesExactly(files, under.value);
    }
    if NamesClear(files) {
      ClearIsFound(files);
    }
    if AllFound(Directory(files), files) {
      FoundIsClear(files);
    }
  }

  // ---------------------------------------------------------------- the names of stored files

  lemma NumeralsDiffer(a: nat, b: nat)
    ensures Numeral(a, 10) == Numeral(b, 10) <==> a == b
  {
    ValueOfNumeral(a, 10);
    ValueOfNumeral(b, 10);
  }

  lemma SameEnding(head: string, a: string, b: string, tail: string)
    ensures head + (a + tail) == head + (b + tail) ==> a == b
  {
    var x, y := head + (a + tail), head + (b + tail);
    if x == y {
      assert x[|head|..|x| - |tail|] == a && y[|head|..|y| - |tail|] == b;
    }
  }

  lemma IdReadsBack(dir: string, start: nat, end: nat, id: nat, id': nat)
    ensures FileName(dir, start, end, id) == FileName(dir, start, end, id') ==> id == id'
  {
    hide Numeral;
    var head := dir + "/" + Numeral(start, 10) + "-" + Numeral(end, 10) + "-";
    Grouped(dir, Numeral(start, 10), Numeral(end, 10), Numeral(id, 10) + ".parquet");
    Grouped(dir, Numeral(start, 10), Numeral(end, 10), Numeral(id', 10) + ".parquet");
    SameEnding(head, Numeral(id, 10), Numeral(id', 10), ".parquet");
    NumeralsDiffer(id, id');
  }

  lemma Grouped(dir: string, a: string, b: string, c: string)
    ensures dir + "/" + (a + ("-" + (b + ("-" + c)))) == dir + "/" + a + "-" + b + "-" + c
  {
    var x := dir + "/";
    assert x + (a + ("-" + (b + ("-" + c)))) == x + a + ("-" + (b + ("-" + c)));
    assert x + a + ("-" + (b + ("-" + c))) == x + a + "-" + (b + ("-" + c));
    assert x + a + "-" + (b + ("-" + c)) == x + a + "-" + b + ("-" + c);
    assert x + a + "-" + b + ("-" + c) == x + a + "-" + b + "-" + c;
  }

  /** Two files have one name just when they have the same interval and come from the same writer. */
  lemma SameNameExactly(dir: string, start: nat, end: nat, id: nat, start': nat, end': nat, id': nat)
    requires '-' !in dir
    ensures FileName(dir, start, end, id) == FileName(dir, start', end', id')
      <==> start == start' && end == end' && id == id'
  {
    hide *;
    NameReadsBack(dir, start, end, id);
    NameReadsBack(dir, start', end', id');
    if FileName(dir, start, end, id) == FileName(dir, start', end', id') {
      IdReadsBack(dir, start, end, id, id');
    }
  }

  predicate IsInterval(t: Times) { 0 <= t.start && 0 <= t.end }

  /** The interval in the name a file is given at the end. */
  function FinalTimes(r: Stored): Times { Times(r.start, r.end) }

  /** A file has intervals to be named by, and was opened if it is intact. */
  predicate HasTimes(r: Stored) {
    IsInterval(FinalTimes(r)) && (r.under.Some? ==> IsInterval(r.under.value)) && (r.intact ==> r.under.Some?)
  }

  predicate AllTimed(stored: seq<Stored>) { forall i :: 0 <= i < |stored| ==> HasTimes(stored[i]) }

  predicate LaneTimed(l: Lane) { AllTimed(l.stored) && (l.under.Some? ==> IsInterval(l.under.value)) }

  function NameOf(dir: string, id: nat, t: Times): string
    requires IsInterval(t)
  {
    FileName(dir, t.start, t.end, id)
  }

  function NameUnder(dir: string, id: nat, under: Option<Times>): Option<string>
    requires under.Some? ==> IsInterval(under.value)
  {
    if under.Some? then Some(NameOf(dir, id, under.value)) else None
  }

  function NamesOf(dir: string, id: nat, r: Stored): Names
    requires HasTimes(r)
  {
    Names(NameUnder(dir, id, r.under), NameOf(dir, id, FinalTimes(r)))
  }

  function AllNames(dir: string, id: nat, stored: seq<Stored>): (files: seq<Names>)
    requires AllTimed(stored)
    ensures |files| == |stored| && forall i :: 0 <= i < |stored| ==> files[i] == NamesOf(dir, id, stored[i])
  {
    seq(|stored|, i requires 0 <= i < |stored| => NamesOf(dir, id, stored[i]))
  }

  /** The part of the directory that the file writer of lane `l` has made. */
  function LaneDirectory(dir: string, id: nat, l: Lane): map<string, nat>
    requires LaneTimed(l)
  {
    Current(AllNames(dir, id, l.stored), NameUnder(dir, id, l.under))
  }

  /** Every finished file of the lane that could be opened is there under its own name. */
  ghost predicate LaneFound(dir: string, id: nat, l: Lane) {
    LaneTimed(l) && AllFound(LaneDirectory(dir, id, l), AllNames(dir, id, l.stored))
  }

  /** No file was opened with, or given, the final interval of an earlier one. */
  ghost predicate IntervalsClear(stored: seq<Stored>) {
    forall i, j :: 0 <= i < j < |stored| && stored[i].under.Some? && stored[j].under.Some? ==>
      FinalTimes(stored[i]) != stored[j].under.value && FinalTimes(stored[i]) != FinalTimes(stored[j])
  }

  ghost predicate IntervalClear(stored: seq<Stored>, t: Times) {
    forall i :: 0 <= i < |stored| && stored[i].under.Some? ==> FinalTimes(stored[i]) != t
  }

  /** Nor was the file the lane now has open. */
  ghost predicate LaneClear(l: Lane) {
    IntervalsClear(l.stored) && (l.under.Some? ==> IntervalClear(l.stored, l.under.value))
  }

  lemma LaneHasTimes(s: State, w: nat)
    requires Reachable(s) && LaneOf(s, w)
    ensures LaneTimed(s.lanes[w])
  {
    hide Reachable;
    forall i | 0 <= i < |s.lanes[w].stored| ensures HasTimes(s.lanes[w].stored[i]) {
      FinishedFilesAreWhole(s, w, i);
    }
    OpenFileHasTimes(s, w);
  }

  /**
    In any reachable state, when renaming has only failed for a name that was taken, the finished files of a writer that
    could be opened are all found under their own names exactly when no two of its intervals clash, that of the file it
    has open included.
   */
  lemma StoredAreFoundExactly(s: State, w: nat, dir: string)
    requires Reachable(s) && LaneOf(s, w) && '-' !in dir
    ensures LaneFound(dir, w, s.lanes[w]) <==> LaneClear(s.lanes[w])
  {
    hide Reachable, FileName, AllFound;
    var l := s.lanes[w];
    LaneHasTimes(s, w);
    AllFoundExactly(AllNames(dir, w, l.stored), NameUnder(dir, w, l.under));
    ClearExactly(l, w, dir);
  }

  lemma SameTimesExactly(dir: string, id: nat, t: Times, u: Times)
    requires '-' !in dir && IsInterval(t) && IsInterval(u)
    ensures NameOf(dir, id, t) == NameOf(dir, id, u) <==> t == u
  {
    SameNameExactly(dir, t.start, t.end, id, u.start, u.end, id);
  }

  lemma ClearExactly(l: Lane, id: nat, dir: string)
    requires '-' !in dir && LaneTimed(l)
    ensures AllClear(AllNames(dir, id, l.stored), NameUnder(dir, id, l.under)) <==> LaneClear(l)
  {
    hide NameOf;
    var stored, files := l.stored, AllNames(dir, id, l.stored);
    forall i, j | 0 <= i < j < |stored| && stored[j].under.Some?
      ensures files[i].final == files[j].interim.value <==> FinalTimes(stored[i]) == stored[j].under.value
      ensures files[i].final == files[j].final <==> FinalTimes(stored[i]) == FinalTimes(stored[j])
    {
      SameTimesExactly(dir, id, FinalTimes(stored[i]), stored[j].under.value);
      SameTimesExactly(dir, id, FinalTimes(stored[i]), FinalTimes(stored[j]));
    }
    if l.under.Some? {
      forall i | 0 <= i < |stored|
        ensures files[i].final == NameOf(dir, id, l.under.value) <==> FinalTimes(stored[i]) == l.under.value
      {
        SameTimesExactly(dir, id, FinalTimes(stored[i]), l.under.value);
      }
    }
  }
}
