/** What one round of the web client does to each file, and which descriptor `select` is told is the largest. */
module WebRound {
  import opened Common
  import opened WebFetcher

  // ---------------------------------------------------------------- which connections are started

  /** The file is among the first untouched ones that the limit still allows. */
  ghost predicate Starts(w: Web, k: nat)
    requires k < |w.files|
  {
    w.files[k].flags == 0 && Tally(w.files[..k], {0}) < w.maxnconn - w.nconn
  }

  /** The state of a connection that was just started. */
  function Started(io: Io, k: nat): bv8 { if io.immediate(k) then F_READING else F_CONNECTING }

  /** One pass of the inner loop starts the first untouched file, with a descriptor that was not open. */
  lemma ConnectOneStarts(w: Web, io: Io)
    requires Good(w) && w.nconn < w.maxnconn && w.nlefttoconn > 0
    ensures var i, w1 := FirstUntouched(w.files, 0), ConnectOne(w, io);
      && i < |w.files| && w1.files == w.files[i := w1.files[i]]
      && w1.files[i].flags == Started(io, i) && w1.files[i].fd !in w.open && w1.open == w.open + {w1.files[i].fd}
      && w1.maxfd == Max(w1.files[i].fd, w.maxfd)
  {
    hide Tally, Fds;
    TallyNone(w.files, {0});
  }

  lemma NoneBefore(files: seq<File>, i: nat)
    requires i <= |files| && forall j :: 0 <= j < i ==> files[j].flags != 0
    ensures Tally(files[..i], {0}) == 0
  {
    TallyNone(files[..i], {0});
  }

  /**
    Once the first untouched file has been started, one place fewer is left and one file fewer is before the others.
   */
  lemma StartsNext(w: Web, io: Io, k: nat)
    requires Good(w) && w.nconn < w.maxnconn && w.nlefttoconn > 0 && k < |w.files|
    ensures var i, w1 := FirstUntouched(w.files, 0), ConnectOne(w, io);
      i < |w.files| == |w1.files| && Starts(w, i) && !Starts(w1, i) && (k != i ==> (Starts(w1, k) <==> Starts(w, k)))
  {
    ConnectOneKeeps(w, io);
    ConnectOneStarts(w, io);
    var i, w1 := FirstUntouched(w.files, 0), ConnectOne(w, io);
    NoneBefore(w.files, i);
    hide Good, ConnectOne;
    if k > i {
      assert w1.files[..k] == w.files[..k][i := w1.files[i]];
      TallyUpdate(w.files[..k], i, w1.files[i], {0});
    }
  }

  /** The inner loop starts exactly the files the limit allows, in their order, and leaves the others. */
  lemma {:induction false} ConnectAllStarts(w: Web, io: Io, k: nat)
    requires Good(w) && k < |w.files|
    ensures var w1 := ConnectAll(w, io);
      && |w1.files| == |w.files| && w.open <= w1.open
      && if Starts(w, k) then w1.files[k].flags == Started(io, k) && w1.files[k].fd !in w.open
         else w1.files[k] == w.files[k]
    decreases w.nlefttoconn
  {
    NotGivenUp(w);
    if w.nconn < w.maxnconn && w.nlefttoconn > 0 {
      ConnectOneKeeps(w, io);
      ConnectOneStarts(w, io);
      StartsNext(w, io, k);
      NotGivenUp(ConnectOne(w, io));
      ConnectsNext(w, io);
      hide Good, ConnectOne, ConnectAll, Starts;
      ConnectAllStarts(ConnectOne(w, io), io, k);
    } else {
      NoneStarts(w, k);
    }
  }

  lemma NoneStarts(w: Web, k: nat)
    requires Good(w) && k < |w.files| && (w.nconn >= w.maxnconn || w.nlefttoconn <= 0)
    ensures !Starts(w, k)
  {
    hide Tally;
    TallyNone(w.files, {0});
  }

  // ---------------------------------------------------------------- the whole round

  /** The state of a file after connecting. */
  ghost function AfterConnect(w: Web, io: Io, k: nat): bv8
    requires k < |w.files|
  {
    if Starts(w, k) then Started(io, k) else w.files[k].flags
  }

  /**
    What a whole round does to each file, from its state before it: the first untouched ones are connected as far as the
    limit allows; a connection that is ready has its command sent, and a reader at end of file is done.
   */
  lemma RoundMoves(w: Web, io: Io, k: nat)
    requires Good(w) && k < |w.files|
    ensures |ConnectAll(w, io).files| == |Round(w, io).files| == |w.files|
    ensures var fd := ConnectAll(w, io).files[k].fd;
      && (if Starts(w, k) then fd !in w.open else fd == w.files[k].fd)
      && Round(w, io).files[k].flags ==
           if AfterConnect(w, io, k) == F_CONNECTING && (fd in io.readable || fd in io.writable) then F_READING
           else if AfterConnect(w, io, k) == F_READING && fd in io.readable && io.eof(k) then F_DONE
           else AfterConnect(w, io, k)
  {
    hide Good, Round, ConnectAll, Starts;
    ConnectAllStarts(w, io, k);
    ReadyMoves(w, io, k);
  }

  // ---------------------------------------------------------------- the largest descriptor

  /** `maxfd` is the largest descriptor any file has been given, or -1 if none has. */
  ghost predicate TopFd(w: Web) {
    && (forall k :: 0 <= k < |w.files| && w.files[k].flags != 0 ==> w.files[k].fd <= w.maxfd)
    && (w.maxfd == -1 || exists k :: 0 <= k < |w.files| && w.files[k].flags != 0 && w.files[k].fd == w.maxfd)
  }

  lemma ConnectOneTop(w: Web, io: Io)
    requires Good(w) && w.nconn < w.maxnconn && w.nlefttoconn > 0 && TopFd(w)
    ensures TopFd(ConnectOne(w, io))
  {
    ConnectOneStarts(w, io);
    hide Good, ConnectOne;
    var i, w1 := FirstUntouched(w.files, 0), ConnectOne(w, io);
    if w.maxfd != -1 {
      var k :| 0 <= k < |w.files| && w.files[k].flags != 0 && w.files[k].fd == w.maxfd;
      assert w1.files[k] == w.files[k];
    }
  }

  lemma {:induction false} ConnectAllTop(w: Web, io: Io)
    requires Good(w) && TopFd(w)
    ensures TopFd(ConnectAll(w, io))
    decreases w.nlefttoconn
  {
    NotGivenUp(w);
    if w.nconn < w.maxnconn && w.nlefttoconn > 0 {
      ConnectOneKeeps(w, io);
      ConnectOneTop(w, io);
      NotGivenUp(ConnectOne(w, io));
      ConnectsNext(w, io);
      hide Good, ConnectOne, ConnectAll, TopFd;
      ConnectAllTop(ConnectOne(w, io), io);
    }
  }

  lemma ServeOneTop(w: Web, k: nat, rs: set<nat>, ws: set<nat>, io: Io)
    requires Good(w) && TopFd(w) && k < |w.files|
    ensures TopFd(ServeOne(w, k, rs, ws, io))
  {
    var w1 := ServeOne(w, k, rs, ws, io);
    assert w.files[k].flags != 0 ==> w1.maxfd == w.maxfd && w1.files[k].flags != 0 && w1.files[k].fd == w.files[k].fd;
    assert w.files[k].flags == 0 ==> w1 == w;
    hide Good, ServeOne, Tally, Fds;
    ServesOneFile(w, w, k, rs, ws, io);
    if w1.maxfd != -1 {
      var j :| 0 <= j < |w.files| && w.files[j].flags != 0 && w.files[j].fd == w.maxfd;
      assert w1.files[j].flags != 0 && w1.files[j].fd == w.maxfd;
    }
  }

  lemma {:induction false} ServeFirstTop(w: Web, n: nat, rs: set<nat>, ws: set<nat>, io: Io)
    requires Good(w) && TopFd(w) && n <= |w.files|
    ensures TopFd(ServeFirst(w, n, rs, ws, io))
  {
    hide Good, TopFd, ServeOne;
    if n > 0 {
      ServeFirstTop(w, n - 1, rs, ws, io);
      ServeFirstKeeps(w, n - 1, rs, ws, io);
      ServeOneTop(ServeFirst(w, n - 1, rs, ws, io), n - 1, rs, ws, io);
    }
  }

  lemma RoundTop(w: Web, io: Io)
    requires Good(w) && TopFd(w)
    ensures TopFd(Round(w, io))
  {
    hide Good, TopFd, ConnectAll, ServeFirst;
    var w1 := ConnectAll(w, io);
    ConnectAllKeeps(w, io);
    ConnectAllTop(w, io);
    NotGivenUp(w1);
    ServeFirstTop(w1, |w1.files|, w1.rset * io.readable, w1.wset * io.writable, io);
  }

  /** In every state at the top of the outer loop, and so each time `select` is called after connecting. */
  lemma {:induction false} MaxfdExactly(nfiles: nat, maxnconn: int, open0: set<nat>, ios: seq<Io>)
    ensures TopFd(Run(Start(nfiles, maxnconn, open0), ios))
    decreases |ios|
  {
    if ios != [] {
      hide Good, TopFd, Round, Start, NoLeak;
      var front := ios[..|ios| - 1];
      MaxfdExactly(nfiles, maxnconn, open0, front);
      RunIsGood(nfiles, maxnconn, open0, front);
      RoundTop(Run(Start(nfiles, maxnconn, open0), front), ios[|ios| - 1]);
    }
  }
}
