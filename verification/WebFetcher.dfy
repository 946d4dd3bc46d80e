/** The web client that reads its files over at most so many connections at a time. */
module WebFetcher {
  import opened Common

  const MAXFILES: nat := 20

  const F_CONNECTING: bv8 := 1
  const F_READING: bv8 := 2
  const F_DONE: bv8 := 4

  datatype File = File(fd: nat, flags: bv8)

  /** The globals of the program, the descriptors open for it, and whether "nothing found" was reached. */
  datatype Web = Web(
    files: seq<File>, nconn: int, nlefttoconn: int, nlefttoread: int,
    rset: set<nat>, wset: set<nat>, maxfd: int, maxnconn: int, open: set<nat>, gaveUp: bool)

  /** What the system does in one round, by file: the descriptor of its socket, whether `connect` succeeds at once,
      what is ready, and whether a `read` finds end of file. */
  datatype Io = Io(fd: nat -> nat, immediate: nat -> bool, readable: set<nat>, writable: set<nat>, eof: nat -> bool)

  // ---------------------------------------------------------------- the transitions

  /** `socket`: any descriptor that is not open, here the first one from `wanted` on. */
  function Socket(open: set<nat>, wanted: nat): (fd: nat)
    ensures fd >= wanted && fd !in open
    decreases |open|
  {
    if wanted !in open then wanted else Socket(open - {wanted}, wanted + 1)
  }

  function WriteGetCmd(w: Web, k: nat): Web
    requires k < |w.files|
  {
    var fd := w.files[k].fd;
    w.(files := w.files[k := File(fd, F_READING)], rset := w.rset + {fd}, maxfd := Max(fd, w.maxfd))
  }

  function StartConnect(w: Web, k: nat, io: Io): Web
    requires k < |w.files|
  {
    var fd := Socket(w.open, io.fd(k));
    var w1 := w.(open := w.open + {fd}, files := w.files[k := File(fd, w.files[k].flags)]);
    if io.immediate(k) then WriteGetCmd(w1, k)
    else
      w1.(files := w1.files[k := File(fd, F_CONNECTING)], rset := w.rset + {fd}, wset := w.wset + {fd},
          maxfd := Max(fd, w.maxfd))
  }

  function FirstUntouched(files: seq<File>, from: nat): (i: nat)
    requires from <= |files|
    ensures from <= i <= |files| && (i < |files| ==> files[i].flags == 0)
    ensures forall j :: from <= j < i ==> files[j].flags != 0
    decreases |files| - from
  {
    if from == |files| || files[from].flags == 0 then from else FirstUntouched(files, from + 1)
  }

  /** One pass of the inner loop, which counts the new connection after starting it. */
  function ConnectOne(w: Web, io: Io): Web {
    var i := FirstUntouched(w.files, 0);
    if i == |w.files| then w.(gaveUp := true)
    else
      var w1 := StartConnect(w, i, io);
      w1.(nconn := w.nconn + 1, nlefttoconn := w.nlefttoconn - 1)
  }

  function ConnectAll(w: Web, io: Io): Web
    decreases w.nlefttoconn
  {
    if w.gaveUp || w.nconn >= w.maxnconn || w.nlefttoconn <= 0 then w
    else
      var w1 := ConnectOne(w, io);
      if w1.gaveUp then w1 else ConnectAll(w1, io)
  }

  /** The body of the loop over the files, after `select` has answered `rs` and `ws`. */
  function ServeOne(w: Web, k: nat, rs: set<nat>, ws: set<nat>, io: Io): Web
    requires k < |w.files|
  {
    var File(fd, flags) := w.files[k];
    if flags == 0 || flags & F_DONE != 0 then w
    else if flags & F_CONNECTING != 0 && (fd in rs || fd in ws) then WriteGetCmd(w.(wset := w.wset - {fd}), k)
    else if flags & F_READING != 0 && fd in rs && io.eof(k) then
      w.(open := w.open - {fd}, files := w.files[k := File(fd, F_DONE)], rset := w.rset - {fd},
         nconn := w.nconn - 1, nlefttoread := w.nlefttoread - 1)
    else w
  }

  function ServeFirst(w: Web, n: nat, rs: set<nat>, ws: set<nat>, io: Io): (w': Web)
    requires n <= |w.files|
    ensures |w'.files| == |w.files|
  {
    if n == 0 then w else ServeOne(ServeFirst(w, n - 1, rs, ws, io), n - 1, rs, ws, io)
  }

  /** One round of the outer loop. */
  function Round(w: Web, io: Io): Web {
    var w1 := ConnectAll(w, io);
    if w1.gaveUp then w1
    else ServeFirst(w1, |w1.files|, w1.rset * io.readable, w1.wset * io.writable, io)
  }

  function Run(w: Web, ios: seq<Io>): Web
    decreases |ios|
  {
    if ios == [] then w
    else
      var w1 := Run(w, ios[..|ios| - 1]);
      if w1.nlefttoread <= 0 || w1.gaveUp then w1 else Round(w1, ios[|ios| - 1])
  }

  /** The state before the outer loop. */
  function Start(nfiles: nat, maxnconn: int, open: set<nat>): Web {
    Web(seq(nfiles, _ => File(0, 0)), 0, nfiles, nfiles, {}, {}, -1, maxnconn, open, false)
  }

  // ---------------------------------------------------------------- what every run keeps

  const ACTIVE: set<bv8> := {F_CONNECTING, F_READING}
  const UNREAD: set<bv8> := {0, F_CONNECTING, F_READING}

  /** The number of files in one of the given states. */
  ghost function Tally(files: seq<File>, kinds: set<bv8>): (n: nat)
    ensures n <= |files|
  {
    if files == [] then 0
    else Tally(files[..|files| - 1], kinds) + if files[|files| - 1].flags in kinds then 1 else 0
  }

  ghost function Fds(files: seq<File>, kinds: set<bv8>): set<nat> {
    set k | 0 <= k < |files| && files[k].flags in kinds :: files[k].fd
  }

  ghost predicate Counted(w: Web) {
    && w.nconn == Tally(w.files, ACTIVE)
    && w.nlefttoconn == Tally(w.files, {0})
    && w.nlefttoread == Tally(w.files, UNREAD)
    && w.nconn <= Max(w.maxnconn, 0) && !w.gaveUp
  }

  ghost predicate Watched(w: Web) {
    && (forall k :: 0 <= k < |w.files| ==> w.files[k].flags in {0, F_CONNECTING, F_READING, F_DONE})
    && w.rset == Fds(w.files, ACTIVE) && w.wset == Fds(w.files, {F_CONNECTING})
    && w.rset <= w.open && (forall fd :: fd in w.rset ==> fd <= w.maxfd)
    && (forall j, k :: 0 <= j < k < |w.files| && w.files[j].flags in ACTIVE && w.files[k].flags in ACTIVE
          ==> w.files[j].fd != w.files[k].fd)
  }

  ghost predicate Good(w: Web) { Counted(w) && Watched(w) }

  lemma {:induction false} TallyUpdate(files: seq<File>, k: nat, f: File, kinds: set<bv8>)
    requires k < |files|
    ensures Tally(files[k := f], kinds) ==
            Tally(files, kinds) - (if files[k].flags in kinds then 1 else 0) + (if f.flags in kinds then 1 else 0)
  {
    var front := files[..|files| - 1];
    if k < |front| {
      TallyUpdate(front, k, f, kinds);
      assert files[k := f][..|files| - 1] == front[k := f];
    } else {
      assert files[k := f][..|files| - 1] == front;
    }
  }

  lemma {:induction false} TallyNone(files: seq<File>, kinds: set<bv8>)
    ensures Tally(files, kinds) == 0 <==> forall k :: 0 <= k < |files| ==> files[k].flags !in kinds
  {
    if files != [] {
      var front := files[..|files| - 1];
      TallyNone(front, kinds);
      assert forall k :: 0 <= k < |front| ==> front[k] == files[k];
    }
  }

  lemma FdsUpdate(files: seq<File>, k: nat, f: File, kinds: set<bv8>)
    requires k < |files|
    requires forall j :: 0 <= j < |files| && j != k && files[j].flags in kinds && files[k].flags in kinds ==>
      files[j].fd != files[k].fd
    ensures Fds(files[k := f], kinds) ==
            Fds(files, kinds) - (if files[k].flags in kinds then {files[k].fd} else {})
              + (if f.flags in kinds then {f.fd} else {})
  {
    var after := files[k := f];
    forall fd | fd in Fds(files, kinds) && (files[k].flags !in kinds || fd != files[k].fd)
      ensures fd in Fds(after, kinds)
    {
      var j :| 0 <= j < |files| && files[j].flags in kinds && files[j].fd == fd;
      assert after[j] == files[j];
    }
    if f.flags in kinds {
      assert after[k] == f;
    }
  }

  /** A file changes its flags and its descriptor; everything watched follows. */
  lemma FileMoves(w: Web, k: nat, f: File, w1: Web)
    requires Watched(w) && k < |w.files| && w1.files == w.files[k := f]
    requires f.flags in {F_CONNECTING, F_READING, F_DONE}
    requires if w.files[k].flags in ACTIVE then f.fd == w.files[k].fd else f.fd !in w.open
    requires w1.rset == w.rset - (if w.files[k].flags in ACTIVE then {w.files[k].fd} else {})
      + (if f.flags in ACTIVE then {f.fd} else {})
    requires w1.wset == w.wset - (if w.files[k].flags == F_CONNECTING then {w.files[k].fd} else {})
      + (if f.flags == F_CONNECTING then {f.fd} else {})
    requires w1.rset <= w1.open && w.maxfd <= w1.maxfd && (f.flags in ACTIVE ==> f.fd <= w1.maxfd)
    ensures Watched(w1)
  {
    FdsUpdate(w.files, k, f, ACTIVE);
    FdsUpdate(w.files, k, f, {F_CONNECTING});
    assert forall j :: 0 <= j < |w.files| && w.files[j].flags in ACTIVE ==> w.files[j].fd in w.rset;
  }

  lemma Recount(w: Web, k: nat, f: File)
    requires k < |w.files|
    ensures Tally(w.files[k := f], ACTIVE) == Tally(w.files, ACTIVE) - (if w.files[k].flags in ACTIVE then 1 else 0)
      + (if f.flags in ACTIVE then 1 else 0)
    ensures Tally(w.files[k := f], {0}) == Tally(w.files, {0}) - (if w.files[k].flags == 0 then 1 else 0)
      + (if f.flags == 0 then 1 else 0)
    ensures Tally(w.files[k := f], UNREAD) == Tally(w.files, UNREAD) - (if w.files[k].flags in UNREAD then 1 else 0)
      + (if f.flags in UNREAD then 1 else 0)
  {
    TallyUpdate(w.files, k, f, ACTIVE);
    TallyUpdate(w.files, k, f, {0});
    TallyUpdate(w.files, k, f, UNREAD);
  }

  /** While files are left to connect to, one is found, so the "nothing found" exit is never taken. */
  lemma ConnectOneKeeps(w: Web, io: Io)
    requires Good(w) && w.nconn < w.maxnconn && w.nlefttoconn > 0
    ensures var w1 := ConnectOne(w, io);
      && Good(w1) && MovesOn(w, w1) && w1.nconn == w.nconn + 1 && w1.nlefttoconn == w.nlefttoconn - 1
      && w1.nlefttoread == w.nlefttoread && w1.maxnconn == w.maxnconn
  {
    hide Tally, Fds;
    TallyNone(w.files, {0});
    var i := FirstUntouched(w.files, 0);
    assert i < |w.files|;
    var w1 := ConnectOne(w, io);
    var f := w1.files[i];
    assert w1.files == w.files[i := f];
    Recount(w, i, f);
    FileMoves(w, i, f, w1);
  }

  /** No file goes back: untouched, connecting, reading, done. */
  ghost predicate MovesOn(w: Web, w': Web) {
    && w'.maxnconn == w.maxnconn && |w'.files| == |w.files|
    && forall k :: 0 <= k < |w.files| ==> w.files[k].flags <= w'.files[k].flags
  }

  lemma {:induction false} ConnectAllKeeps(w: Web, io: Io)
    requires Good(w)
    ensures var w1 := ConnectAll(w, io);
      Good(w1) && MovesOn(w, w1) && (w1.nconn >= w1.maxnconn || w1.nlefttoconn == 0) && w1.maxnconn == w.maxnconn
      && w1.nlefttoread == w.nlefttoread
    decreases w.nlefttoconn
  {
    NotGivenUp(w);
    hide Good, ConnectOne;
    if w.nconn < w.maxnconn && w.nlefttoconn > 0 {
      ConnectOneKeeps(w, io);
      NotGivenUp(ConnectOne(w, io));
      ConnectAllKeeps(ConnectOne(w, io), io);
    }
  }

  lemma NotGivenUp(w: Web)
    requires Good(w)
    ensures !w.gaveUp && w.nconn >= 0 && w.nlefttoconn >= 0 && w.nlefttoread >= 0
  {}

  lemma ActiveIsWatched(w: Web, k: nat)
    requires Watched(w) && k < |w.files| && w.files[k].flags in ACTIVE
    ensures w.files[k].fd in w.rset && w.files[k].fd <= w.maxfd
  {}

  lemma ServeOneKeeps(w: Web, k: nat, rs: set<nat>, ws: set<nat>, io: Io)
    requires Good(w) && k < |w.files|
    ensures Good(ServeOne(w, k, rs, ws, io)) && MovesOn(w, ServeOne(w, k, rs, ws, io))
  {
    hide Tally, Fds;
    var w1 := ServeOne(w, k, rs, ws, io);
    if w1 != w {
      var f := w1.files[k];
      ActiveIsWatched(w, k);
      assert w1.files == w.files[k := f];
      Recount(w, k, f);
      FileMoves(w, k, f, w1);
    }
  }

  lemma {:induction false} ServeFirstKeeps(w: Web, n: nat, rs: set<nat>, ws: set<nat>, io: Io)
    requires Good(w) && n <= |w.files|
    ensures Good(ServeFirst(w, n, rs, ws, io)) && MovesOn(w, ServeFirst(w, n, rs, ws, io))
  {
    hide Good, ServeOne;
    if n > 0 {
      ServeFirstKeeps(w, n - 1, rs, ws, io);
      ServeOneKeeps(ServeFirst(w, n - 1, rs, ws, io), n - 1, rs, ws, io);
    }
  }

  lemma RoundKeeps(w: Web, io: Io)
    requires Good(w)
    ensures Good(Round(w, io)) && MovesOn(w, Round(w, io))
  {
    hide Good, ConnectAll, ServeFirst;
    var w1 := ConnectAll(w, io);
    ConnectAllKeeps(w, io);
    NotGivenUp(w1);
    ServeFirstKeeps(w1, |w1.files|, w1.rset * io.readable, w1.wset * io.writable, io);
  }

  /** The descriptors open are those open at the start and those of the active files. */
  ghost predicate NoLeak(w: Web, open0: set<nat>) { w.open == open0 + w.rset && open0 !! w.rset }

  lemma ConnectOneLeaks(w: Web, io: Io, open0: set<nat>)
    requires NoLeak(w, open0)
    ensures NoLeak(ConnectOne(w, io), open0)
  {}

  lemma {:induction false} ConnectAllLeaks(w: Web, io: Io, open0: set<nat>)
    requires NoLeak(w, open0)
    ensures NoLeak(ConnectAll(w, io), open0)
    decreases w.nlefttoconn
  {
    if !w.gaveUp && w.nconn < w.maxnconn && w.nlefttoconn > 0 {
      ConnectOneLeaks(w, io, open0);
      if !ConnectOne(w, io).gaveUp {
        ConnectAllLeaks(ConnectOne(w, io), io, open0);
      }
    }
  }

  lemma ServeOneLeaks(w: Web, k: nat, rs: set<nat>, ws: set<nat>, io: Io, open0: set<nat>)
    requires Good(w) && k < |w.files| && NoLeak(w, open0)
    ensures NoLeak(ServeOne(w, k, rs, ws, io), open0)
  {
    hide Fds, Tally;
    if w.files[k].flags in ACTIVE {
      ActiveIsWatched(w, k);
    }
  }

  lemma {:induction false} ServeFirstLeaks(w: Web, n: nat, rs: set<nat>, ws: set<nat>, io: Io, open0: set<nat>)
    requires Good(w) && n <= |w.files| && NoLeak(w, open0)
    ensures NoLeak(ServeFirst(w, n, rs, ws, io), open0)
  {
    if n > 0 {
      hide Good, NoLeak, ServeOne;
      ServeFirstLeaks(w, n - 1, rs, ws, io, open0);
      ServeFirstKeeps(w, n - 1, rs, ws, io);
      ServeOneLeaks(ServeFirst(w, n - 1, rs, ws, io), n - 1, rs, ws, io, open0);
    }
  }

  lemma RoundLeaks(w: Web, io: Io, open0: set<nat>)
    requires Good(w) && NoLeak(w, open0)
    ensures NoLeak(Round(w, io), open0)
  {
    hide Good, NoLeak, ConnectAll, ServeFirst;
    var w1 := ConnectAll(w, io);
    ConnectAllKeeps(w, io);
    ConnectAllLeaks(w, io, open0);
    NotGivenUp(w1);
    ServeFirstLeaks(w1, |w1.files|, w1.rset * io.readable, w1.wset * io.writable, io, open0);
  }

  lemma {:induction false} StartTally(n: nat, kinds: set<bv8>)
    ensures Tally(seq(n, _ => File(0, 0)), kinds) == if 0 in kinds then n else 0
  {
    if n > 0 {
      StartTally(n - 1, kinds);
      assert seq(n, _ => File(0, 0))[..n - 1] == seq(n - 1, _ => File(0, 0));
    }
  }

  /** In every state at the top of the outer loop. */
  lemma {:induction false} RunIsGood(nfiles: nat, maxnconn: int, open0: set<nat>, ios: seq<Io>)
    ensures var w := Run(Start(nfiles, maxnconn, open0), ios);
      Good(w) && NoLeak(w, open0) && |w.files| == nfiles && w.maxnconn == maxnconn
    decreases |ios|
  {
    var w0 := Start(nfiles, maxnconn, open0);
    if ios == [] {
      StartTally(nfiles, ACTIVE);
      StartTally(nfiles, {0});
      StartTally(nfiles, UNREAD);
    } else {
      hide Good, NoLeak, Round, Start;
      var w1 := Run(w0, ios[..|ios| - 1]);
      RunIsGood(nfiles, maxnconn, open0, ios[..|ios| - 1]);
      RoundKeeps(w1, ios[|ios| - 1]);
      RoundLeaks(w1, ios[|ios| - 1], open0);
    }
  }

  /** Leaving the loop means that every file is done and every descriptor closed again. */
  lemma {:induction false} LeavingMeansDone(nfiles: nat, maxnconn: int, open0: set<nat>, ios: seq<Io>)
    requires Run(Start(nfiles, maxnconn, open0), ios).nlefttoread <= 0
    ensures var w := Run(Start(nfiles, maxnconn, open0), ios);
      && |w.files| == nfiles && (forall f :: f in w.files ==> f.flags == F_DONE)
      && w.rset == {} && w.wset == {} && w.nconn == 0 && w.open == open0
  {
    RunIsGood(nfiles, maxnconn, open0, ios);
    hide Run, Start;
    var w := Run(Start(nfiles, maxnconn, open0), ios);
    TallyNone(w.files, UNREAD);
    TallyNone(w.files, ACTIVE);
  }

  /** `select` is called with something to wait for exactly when at least one connection is allowed. */
  lemma WaitsForSomethingExactly(w: Web, io: Io)
    requires Good(w) && w.nlefttoread > 0
    ensures ConnectAll(w, io).rset != {} <==> w.maxnconn >= 1
  {
    hide ConnectAll;
    var w1 := ConnectAll(w, io);
    ConnectAllKeeps(w, io);
    UnreadSplit(w1.files);
    TallyNone(w1.files, ACTIVE);
    if w1.rset != {} {
      var fd :| fd in w1.rset;
    } else {
      forall k | 0 <= k < |w1.files| ensures w1.files[k].flags !in ACTIVE {
        if w1.files[k].flags in ACTIVE {
          ActiveIsWatched(w1, k);
        }
      }
    }
  }

  lemma {:induction false} UnreadSplit(files: seq<File>)
    ensures Tally(files, UNREAD) == Tally(files, {0}) + Tally(files, ACTIVE)
  {
    if files != [] {
      UnreadSplit(files[..|files| - 1]);
    }
  }

  /** Within a round every file is served by its own state alone: a connection that is ready becomes a reader,
      a reader at end of file is done. */
  lemma {:induction false} ServedAlone(w: Web, n: nat, rs: set<nat>, ws: set<nat>, io: Io)
    requires n <= |w.files|
    ensures var w' := ServeFirst(w, n, rs, ws, io);
      forall k :: 0 <= k < |w.files| ==>
        w'.files[k] == if k < n then ServeOne(w, k, rs, ws, io).files[k] else w.files[k]
  {
    if n > 0 {
      hide ServeOne;
      ServedAlone(w, n - 1, rs, ws, io);
      ServesOneFile(w, ServeFirst(w, n - 1, rs, ws, io), n - 1, rs, ws, io);
    }
  }

  lemma ServesOneFile(w: Web, v: Web, k: nat, rs: set<nat>, ws: set<nat>, io: Io)
    requires k < |w.files| == |v.files| && v.files[k] == w.files[k]
    ensures ServeOne(v, k, rs, ws, io).files[k] == ServeOne(w, k, rs, ws, io).files[k]
    ensures |ServeOne(v, k, rs, ws, io).files| == |v.files|
    ensures |ServeOne(w, k, rs, ws, io).files| == |w.files|
    ensures forall j :: 0 <= j < |v.files| && j != k ==> ServeOne(v, k, rs, ws, io).files[j] == v.files[j]
  {}

  /** In every round each file that is ready after connecting is taken on, and each other one is left as it is. */
  lemma ReadyMoves(w: Web, io: Io, k: nat)
    requires Good(w) && k < |w.files|
    ensures |ConnectAll(w, io).files| == |Round(w, io).files| == |w.files|
    ensures var before, after := ConnectAll(w, io).files[k].flags, Round(w, io).files[k].flags;
      var fd := ConnectAll(w, io).files[k].fd;
      after ==
        if before == F_CONNECTING && (fd in io.readable || fd in io.writable) then F_READING
        else if before == F_READING && fd in io.readable && io.eof(k) then F_DONE
        else before
  {
    var w1 := ConnectAll(w, io);
    ConnectAllKeeps(w, io);
    RoundKeeps(w, io);
    NotGivenUp(w1);
    WatchedIsSet(w1, k);
    ServedAlone(w1, |w1.files|, w1.rset * io.readable, w1.wset * io.writable, io);
    hide Good, ServeFirst, ConnectAll;
  }

  lemma WatchedIsSet(w: Web, k: nat)
    requires Good(w) && k < |w.files|
    ensures w.files[k].flags in {0, F_CONNECTING, F_READING, F_DONE}
    ensures w.files[k].flags in ACTIVE ==> w.files[k].fd in w.rset
    ensures w.files[k].flags == F_CONNECTING ==> w.files[k].fd in w.wset
  {}

  // ---------------------------------------------------------------- the program

  lemma ConnectsNext(w: Web, io: Io)
    requires !w.gaveUp && w.nconn < w.maxnconn && w.nlefttoconn > 0
    ensures var w1 := ConnectOne(w, io);
      && ConnectAll(w, io) == (if w1.gaveUp then w1 else ConnectAll(w1, io))
      && (w1.gaveUp <==> FirstUntouched(w.files, 0) == |w.files|)
  {}

  class Fetcher {
    var files: seq<File>
    var nconn: int
    var nlefttoconn: int
    var nlefttoread: int
    var rset: set<nat>
    var wset: set<nat>
    var maxfd: int
    var maxnconn: int
    var descriptors: set<nat>
    var gaveUp: bool

    ghost function View(): Web
      reads this
    {
      Web(files, nconn, nlefttoconn, nlefttoread, rset, wset, maxfd, maxnconn, descriptors, gaveUp)
    }

    /** The start of `main`, for `argc - 4` files. */
    constructor (wanted: nat, limit: int, open0: set<nat>)
      ensures View() == Start(if wanted <= MAXFILES then wanted else MAXFILES, limit, open0)
    {
      var nfiles := if wanted <= MAXFILES then wanted else MAXFILES;
      files := seq(nfiles, _ => File(0, 0));
      nconn, nlefttoconn, nlefttoread := 0, nfiles, nfiles;
      rset, wset, maxfd, maxnconn, descriptors, gaveUp := {}, {}, -1, limit, open0, false;
    }

    method SendGetCmd(k: nat)
      requires k < |files|
      modifies this
      ensures View() == old(WriteGetCmd(View(), k))
    {
      files := files[k := files[k].(flags := F_READING)];
      rset := rset + {files[k].fd};
      if files[k].fd > maxfd {
        maxfd := files[k].fd;
      }
    }

    method StartConnecting(k: nat, io: Io)
      requires k < |files|
      modifies this
      ensures View() == old(StartConnect(View(), k, io))
      ensures nconn == old(nconn) && nlefttoconn == old(nlefttoconn)
    {
      var fd := Socket(descriptors, io.fd(k));
      descriptors := descriptors + {fd};
      files := files[k := files[k].(fd := fd)];
      if !io.immediate(k) {
        files := files[k := files[k].(flags := F_CONNECTING)];
        rset, wset := rset + {fd}, wset + {fd};
        if fd > maxfd {
          maxfd := fd;
        }
      } else {
        SendGetCmd(k);
      }
    }

    /** The search of the inner loop. */
    method FindUntouched() returns (i: nat)
      ensures i == FirstUntouched(files, 0)
    {
      i := 0;
      while i < |files| && files[i].flags != 0
        invariant i <= |files| && FirstUntouched(files, 0) == FirstUntouched(files, i)
      {
        i := i + 1;
      }
    }

    /** The inner loop. */
    method Connect(io: Io)
      requires !gaveUp
      modifies this
      ensures View() == old(ConnectAll(View(), io))
    {
      hide StartConnect, FirstUntouched;
      while nconn < maxnconn && nlefttoconn > 0
        invariant !gaveUp && ConnectAll(View(), io) == old(ConnectAll(View(), io))
        decreases nlefttoconn
      {
        ghost var w := View();
        hide ConnectAll;
        ConnectsNext(w, io);
        var i := FindUntouched();
        if i == |files| {
          gaveUp := true;
          return;
        }
        StartConnecting(i, io);
        nconn := nconn + 1;
        nlefttoconn := nlefttoconn - 1;
        assert View() == ConnectOne(w, io);
      }
    }

    /** What the loop over the files does with one of them. */
    method Serve(k: nat, rs: set<nat>, ws: set<nat>, io: Io)
      requires k < |files|
      modifies this
      ensures View() == old(ServeOne(View(), k, rs, ws, io))
    {
      var flags := files[k].flags;
      if flags == 0 || flags & F_DONE != 0 {
        return;
      }
      var fd := files[k].fd;
      if flags & F_CONNECTING != 0 && (fd in rs || fd in ws) {
        wset := wset - {fd};
        SendGetCmd(k);
      } else if flags & F_READING != 0 && fd in rs {
        if io.eof(k) {
          descriptors := descriptors - {fd};
          files := files[k := files[k].(flags := F_DONE)];
          rset := rset - {fd};
          nconn, nlefttoread := nconn - 1, nlefttoread - 1;
        }
      }
    }

    method OneRound(io: Io)
      requires !gaveUp
      modifies this
      ensures View() == old(Round(View(), io))
    {
      Connect(io);
      if gaveUp {
        return;
      }
      ghost var w1 := View();
      var rs, ws := rset * io.readable, wset * io.writable;
      for k := 0 to |files|
        invariant View() == ServeFirst(w1, k, rs, ws, io)
      {
        Serve(k, rs, ws, io);
      }
    }

    /** The outer loop, for as many rounds as `ios` has. */
    method Fetch(ios: seq<Io>)
      requires !gaveUp
      modifies this
      ensures View() == old(Run(View(), ios))
    {
      var i := 0;
      while i < |ios| && nlefttoread > 0 && !gaveUp
        invariant i <= |ios| && View() == old(Run(View(), ios[..i]))
      {
        assert ios[..i + 1][..i] == ios[..i];
        OneRound(ios[i]);
        i := i + 1;
      }
      RunStops(old(View()), ios, i);
    }
  }

  /** Once the loop is left nothing changes. */
  lemma {:induction false} RunStops(w: Web, ios: seq<Io>, i: nat)
    requires i <= |ios| && (i == |ios| || Run(w, ios[..i]).nlefttoread <= 0 || Run(w, ios[..i]).gaveUp)
    ensures Run(w, ios) == Run(w, ios[..i])
    decreases |ios|
  {
    hide Round;
    if i == |ios| {
      assert ios[..i] == ios;
    } else {
      var front := ios[..|ios| - 1];
      assert front[..i] == ios[..i];
      RunStops(w, front, i);
    }
  }
}
