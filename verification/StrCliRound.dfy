/** What one round of the client does, told from the state before it and what the system answers. */
module StrCliRound {
  import opened Common
  import opened StrCli

  // ---------------------------------------------------------------- the calls that are made

  /** Whether `read` is called on stdin, if that is ready. */
  predicate AsksStdin(c: Client) { !c.stdineof && c.up.Room() > 0 }

  /** Whether it is called on the socket, if nothing has failed before. */
  predicate AsksSocket(c: Client) { c.down.Room() > 0 }

  predicate StdinFails(c: Client, io: Io) { AsksStdin(c) && io.stdin == ReadFails }

  predicate StdinEnds(c: Client, io: Io) { AsksStdin(c) && io.stdin == Returns([]) }

  predicate SocketFails(c: Client, io: Io) { AsksSocket(c) && io.sockRead == ReadFails }

  predicate SocketEnds(c: Client, io: Io) { AsksSocket(c) && io.sockRead == Returns([]) }

  /** The bytes read in this round. */
  function FromStdin(c: Client, io: Io): seq<octet> {
    if AsksStdin(c) && io.stdin.Returns? then Taken(io.stdin.bytes, c.up.Room()) else []
  }

  function FromSocket(c: Client, io: Io): seq<octet> {
    if AsksSocket(c) && io.sockRead.Returns? then Taken(io.sockRead.bytes, c.down.Room()) else []
  }

  /** Nothing ends the loop before the two writes. */
  predicate GetsToWrites(c: Client, io: Io) {
    !StdinFails(c, io) && !SocketFails(c, io) && !SocketEnds(c, io)
  }

  /** What the round finds to write in each direction. */
  function ToStdout(c: Client, io: Io): seq<octet> { c.down.pending + FromSocket(c, io) }

  function ToSocket(c: Client, io: Io): seq<octet> { c.up.pending + FromStdin(c, io) }

  /** `write` is called if the descriptor was waited for and is ready, or right after something was read. */
  predicate TriesStdout(c: Client, io: Io) {
    GetsToWrites(c, io) && ((c.down.pending != [] && io.stdoutReady) || FromSocket(c, io) != [])
  }

  predicate StdoutFails(c: Client, io: Io) { TriesStdout(c, io) && io.stdout == WriteFails }

  predicate TriesSocket(c: Client, io: Io) {
    GetsToWrites(c, io) && !StdoutFails(c, io) && ((c.up.pending != [] && io.sockReady) || FromStdin(c, io) != [])
  }

  predicate SendFails(c: Client, io: Io) { TriesSocket(c, io) && io.sockWrite == WriteFails }

  /** The bytes the system takes. */
  function Printed(c: Client, io: Io): seq<octet> {
    if TriesStdout(c, io) && io.stdout.Accepts? then ToStdout(c, io)[..Min(io.stdout.n, |ToStdout(c, io)|)] else []
  }

  function Sent(c: Client, io: Io): seq<octet> {
    if TriesSocket(c, io) && io.sockWrite.Accepts? then ToSocket(c, io)[..Min(io.sockWrite.n, |ToSocket(c, io)|)]
      else []
  }

  // ---------------------------------------------------------------- the four steps

  lemma AfterStdin(c: Client, io: Io)
    requires Good(c) && c.exit == Running
    ensures var d := StdinStep(c, io);
      && d.down == c.down && d.up.sent == c.up.sent
      && d.up.pending == ToSocket(c, io) && d.up.received == c.up.received + FromStdin(c, io)
      && d.up.pos == c.up.pos
      && (d.exit == if StdinFails(c, io) then IoError else Running)
      && (d.stdineof <==> c.stdineof || StdinEnds(c, io))
  {
    assert c.up.pending + [] == c.up.pending && c.up.received + [] == c.up.received;
  }

  lemma AfterSocket(c: Client, c1: Client, io: Io)
    requires c.exit == Running && c1.down == c.down && c1.exit == if StdinFails(c, io) then IoError else Running
    ensures var d := SocketStep(c1, io);
      && d.up == c1.up && d.stdineof == c1.stdineof && d.down.sent == c.down.sent && d.down.pos == c.down.pos
      && (StdinFails(c, io) ==> d.down == c.down)
      && (!StdinFails(c, io) ==>
            d.down.pending == ToStdout(c, io) && d.down.received == c.down.received + FromSocket(c, io))
      && (d.exit == Running <==> GetsToWrites(c, io))
      && (d.exit == IoError <==> StdinFails(c, io) || SocketFails(c, io))
      && (d.exit == Finished <==> !StdinFails(c, io) && SocketEnds(c, io) && c1.stdineof)
      && (d.exit == ServerGone <==> !StdinFails(c, io) && SocketEnds(c, io) && !c1.stdineof)
  {
    assert c.down.pending + [] == c.down.pending && c.down.received + [] == c.down.received;
  }

  lemma AfterStdout(c: Client, c2: Client, io: Io)
    requires Good(c) && c.exit == Running
    requires c2.down.sent == c.down.sent && (c2.exit == Running <==> GetsToWrites(c, io))
    requires GetsToWrites(c, io) ==>
      c2.down.pending == ToStdout(c, io) && c2.down.received == c.down.received + FromSocket(c, io)
    ensures var d := StdoutStep(c2, io, c);
      && d.up == c2.up && d.stdineof == c2.stdineof && d.down.received == c2.down.received
      && d.down.sent == c.down.sent + Printed(c, io)
      && (d.exit == if StdoutFails(c, io) then IoError else c2.exit)
  {
    var sent := c.down.sent;
    assert sent + [] == sent;
    assert FromSocket(c, io) != [] ==> c.down.received + FromSocket(c, io) != c.down.received;
    assert c.down.received + [] == c.down.received;
  }

  lemma AfterSend(c: Client, c3: Client, io: Io)
    requires Good(c) && c.exit == Running
    requires c3.up.sent == c.up.sent && c3.up.pending == ToSocket(c, io)
    requires c3.up.received == c.up.received + FromStdin(c, io)
    requires c3.exit == Running <==> GetsToWrites(c, io) && !StdoutFails(c, io)
    ensures var d := SendStep(c3, io, c);
      && d.down == c3.down && d.stdineof == c3.stdineof && d.up.received == c3.up.received
      && d.up.sent == c.up.sent + Sent(c, io)
      && (d.exit == if SendFails(c, io) then IoError else c3.exit)
  {
    var sent := c.up.sent;
    assert sent + [] == sent;
    assert FromStdin(c, io) != [] ==> c.up.received + FromStdin(c, io) != c.up.received;
    assert c.up.received + [] == c.up.received;
  }

  // ---------------------------------------------------------------- the round

  /** How a round ends, and every byte it moves. */
  ghost predicate Does(c: Client, io: Io, d: Client) {
    && (d.exit == IoError <==> StdinFails(c, io) || SocketFails(c, io) || StdoutFails(c, io) || SendFails(c, io))
    && (d.exit == Finished <==> !StdinFails(c, io) && SocketEnds(c, io) && d.stdineof)
    && (d.exit == ServerGone <==> !StdinFails(c, io) && SocketEnds(c, io) && !d.stdineof)
    && (d.stdineof <==> c.stdineof || StdinEnds(c, io))
    && d.up.received == c.up.received + FromStdin(c, io)
    && d.down.received == c.down.received + (if StdinFails(c, io) then [] else FromSocket(c, io))
    && d.up.sent == c.up.sent + Sent(c, io) && d.down.sent == c.down.sent + Printed(c, io)
  }

  /**
    A round fails exactly when a call it makes fails, and ends otherwise exactly at the server's end of file,
      normally if
    that of stdin has been met; each direction takes in what is read and gives out what the system takes, and the writes
    are tried right after a read as well as when the descriptor was waited for.
   */
  lemma RoundExactly(c: Client, io: Io)
    requires Good(c) && c.exit == Running
    ensures Does(c, io, Round(c, io)) && Good(Round(c, io))
  {
    RoundKeeps(c, io);
    var c1 := StdinStep(c, io);
    var c2 := SocketStep(c1, io);
    var c3 := StdoutStep(c2, io, c);
    AfterStdin(c, io);
    AfterSocket(c, c1, io);
    AfterStdout(c, c2, io);
    AfterSend(c, c3, io);
    NothingRead(c, io);
    hide Good, StdinStep, SocketStep, StdoutStep, SendStep, FromStdin, FromSocket, Printed, Sent, ToStdout, ToSocket;
    hide StdinFails, SocketFails, StdoutFails, SendFails, StdinEnds, SocketEnds;
    FailsOnce(c, io);
  }

  lemma NothingRead(c: Client, io: Io)
    ensures c.down.received + [] == c.down.received
  {}

  /** The writes are not reached once a read has failed or met the end. */
  lemma FailsOnce(c: Client, io: Io)
    ensures StdoutFails(c, io) ==> GetsToWrites(c, io)
    ensures SendFails(c, io) ==> GetsToWrites(c, io) && !StdoutFails(c, io)
    ensures SocketFails(c, io) ==> !SocketEnds(c, io)
    ensures GetsToWrites(c, io) <==> !StdinFails(c, io) && !SocketFails(c, io) && !SocketEnds(c, io)
  {}

  /** After a round nothing waits for stdout exactly when there was nothing, or stdout was tried and took it all. */
  lemma NothingWaitsExactly(c: Client, io: Io)
    requires Good(c) && c.exit == Running && Round(c, io).exit == Running
    ensures Round(c, io).down.pending == [] <==>
      ToStdout(c, io) == [] || (TriesStdout(c, io) && io.stdout.Accepts? && io.stdout.n >= |ToStdout(c, io)|)
  {
    RoundExactly(c, io);
    var d := Round(c, io);
    assert |d.down.received| == |d.down.sent| + |d.down.pending|;
    assert |c.down.received| == |c.down.sent| + |c.down.pending|;
    hide Round, Good, TriesStdout, FromSocket;
  }

  /** And so for the socket. */
  lemma NothingUnsentExactly(c: Client, io: Io)
    requires Good(c) && c.exit == Running && Round(c, io).exit == Running
    ensures Round(c, io).up.pending == [] <==>
      ToSocket(c, io) == [] || (TriesSocket(c, io) && io.sockWrite.Accepts? && io.sockWrite.n >= |ToSocket(c, io)|)
  {
    RoundExactly(c, io);
    var d := Round(c, io);
    assert |d.up.received| == |d.up.sent| + |d.up.pending| && |c.up.received| == |c.up.sent| + |c.up.pending|;
    hide Round, Good, TriesSocket, FromStdin;
  }

  /**
    A round in which both writers take all there is goes on unless a read fails or meets the server's end of file, and
    then it empties both buffers, however full they were.
   */
  lemma FullBuffersDrain(c: Client, io: Io)
    requires Good(c) && c.exit == Running && io.stdoutReady && io.sockReady
    requires io.stdout.Accepts? && io.stdout.n >= MAXLINE && io.sockWrite.Accepts? && io.sockWrite.n >= MAXLINE
    ensures var d := Round(c, io);
      && (d.exit == Running <==> GetsToWrites(c, io))
      && (d.exit == Running ==>
            && d.up.Room() == d.down.Room() == MAXLINE
            && d.up.sent == d.up.received && d.down.sent == d.down.received && (d.stdineof ==> d.fins == 1))
  {
    RoundExactly(c, io);
    var d := Round(c, io);
    FailsOnce(c, io);
    if d.exit == Running {
      NothingWaitsExactly(c, io);
      NothingUnsentExactly(c, io);
      assert d.up.sent + [] == d.up.sent && d.down.sent + [] == d.down.sent;
    }
    hide Round, GetsToWrites, FromStdin, FromSocket, Taken;
    RoomBounds(c, io);
  }

  /** No more is read than fits. */
  lemma RoomBounds(c: Client, io: Io)
    requires Good(c)
    ensures |ToStdout(c, io)| <= MAXLINE && |ToSocket(c, io)| <= MAXLINE
  {}

  /** What was sent plus what waits is what was received, so a FIN that is out has everything before it. */
  lemma FinWhenAllSent(ios: seq<Io>)
    ensures var c := Run(START, ios);
      c.fins == (if c.stdineof && c.up.sent == c.up.received then 1 else 0)
  {
    RunIsGood(ios);
    hide Run;
    var p := Run(START, ios).up;
    assert |p.received| == |p.sent| + |p.pending|;
    assert p.pending == [] ==> p.sent + [] == p.sent;
  }

  /** Whatever the buffer holds starts where the last write ended; room comes back only when it has been emptied. */
  lemma RoomComesBackWhenEmpty(c: Client, io: Io)
    requires Good(c) && c.exit == Running
    ensures var d := Round(c, io);
      && (d.up.pending != [] ==> d.up.pos + |d.up.pending| == c.up.pos + |c.up.pending| + |FromStdin(c, io)|)
      && (d.down.pending != [] ==>
            d.down.pos + |d.down.pending|
            == c.down.pos + |c.down.pending| + if StdinFails(c, io) then 0 else |FromSocket(c, io)|)
  {
    var c1 := StdinStep(c, io);
    var c2 := SocketStep(c1, io);
    AfterStdin(c, io);
    AfterSocket(c, c1, io);
    StdoutPlace(c2, io, c);
    SendPlace(StdoutStep(c2, io, c), io, c);
    hide Good, StdinStep, SocketStep, StdoutStep, SendStep, FromStdin, FromSocket;
  }

  lemma StdoutPlace(c: Client, io: Io, c0: Client)
    ensures var d := StdoutStep(c, io, c0);
      d.up == c.up && (d.down.pending != [] ==> d.down.pos + |d.down.pending| == c.down.pos + |c.down.pending|)
  {}

  lemma SendPlace(c: Client, io: Io, c0: Client)
    ensures var d := SendStep(c, io, c0);
      d.down == c.down && (d.up.pending != [] ==> d.up.pos + |d.up.pending| == c.up.pos + |c.up.pending|)
  {}
}
