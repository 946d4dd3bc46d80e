/** The client that copies stdin to a socket and the socket to stdout without ever blocking. */
module StrCli {
  import opened Common

  const MAXLINE: nat := 4096

  // ---------------------------------------------------------------- the copier as two queues

  /** What `read` does; it hands over as many of `bytes` as there is room for, and none of none at end of file. */
  datatype ReadResult = NotReady | ReadWouldBlock | ReadFails | Returns(bytes: seq<octet>)

  /** What `write` does; it takes at most `n` bytes. */
  datatype WriteResult = WriteWouldBlock | WriteFails | Accepts(n: nat)

  /** What happens in one round of the loop. */
  datatype Io = Io(stdin: ReadResult, sockRead: ReadResult, stdoutReady: bool, stdout: WriteResult, sockReady: bool,
                   sockWrite: WriteResult)

  /** A buffer, the place of its first unwritten byte, and everything that went in and out. */
  datatype Pipe = Pipe(pos: nat, pending: seq<octet>, received: seq<octet>, sent: seq<octet>)
  {
    function Room(): int { MAXLINE - pos - |pending| }
  }

  datatype Exit = Running | Finished | ServerGone | IoError

  datatype Client = Client(up: Pipe, down: Pipe, stdineof: bool, fins: nat, exit: Exit)

  const START := Client(Pipe(0, [], [], []), Pipe(0, [], [], []), false, 0, Running)

  /** The bytes one `read` call returns. */
  function Taken(bytes: seq<octet>, room: int): seq<octet> {
    if room <= 0 then [] else bytes[..Min(|bytes|, room)]
  }

  function Filled(p: Pipe, bytes: seq<octet>): Pipe {
    p.(pending := p.pending + bytes, received := p.received + bytes)
  }

  /** After writing; a buffer that empties starts again at its beginning. */
  function Drained(p: Pipe, n: nat): Pipe {
    var k := Min(n, |p.pending|);
    p.(pos := if k == |p.pending| then 0 else p.pos + k, pending := p.pending[k..], sent := p.sent + p.pending[..k])
  }

  /** Reading from stdin, if it is being selected on. */
  function StdinStep(c: Client, io: Io): Client {
    if c.stdineof || c.up.Room() <= 0 then c
    else
      match io.stdin
      case NotReady => c
      case ReadWouldBlock => c
      case ReadFails => c.(exit := IoError)
      case Returns(bytes) =>
        var got := Taken(bytes, c.up.Room());
        if got == [] then c.(stdineof := true, fins := if c.up.pending == [] then c.fins + 1 else c.fins)
        else c.(up := Filled(c.up, got))
  }

  function SocketStep(c: Client, io: Io): Client {
    if c.exit != Running || c.down.Room() <= 0 then c
    else
      match io.sockRead
      case NotReady => c
      case ReadWouldBlock => c
      case ReadFails => c.(exit := IoError)
      case Returns(bytes) =>
        var got := Taken(bytes, c.down.Room());
        if got == [] then c.(exit := if c.stdineof then Finished else ServerGone)
        else c.(down := Filled(c.down, got))
  }

  /** `asked` is whether stdout was selected on, `c0` the state before this round's reads. */
  function StdoutStep(c: Client, io: Io, c0: Client): Client {
    var attempt := (c0.down.pending != [] && io.stdoutReady) || c.down.received != c0.down.received;
    if c.exit != Running || !attempt || c.down.pending == [] then c
    else
      match io.stdout
      case WriteWouldBlock => c
      case WriteFails => c.(exit := IoError)
      case Accepts(n) => c.(down := Drained(c.down, n))
  }

  function SendStep(c: Client, io: Io, c0: Client): Client {
    var attempt := (c0.up.pending != [] && io.sockReady) || c.up.received != c0.up.received;
    if c.exit != Running || !attempt || c.up.pending == [] then c
    else
      match io.sockWrite
      case WriteWouldBlock => c
      case WriteFails => c.(exit := IoError)
      case Accepts(n) =>
        var up := Drained(c.up, n);
        c.(up := up, fins := if up.pending == [] && c.stdineof then c.fins + 1 else c.fins)
  }

  /** One round of the loop. */
  function Round(c: Client, io: Io): Client {
    if c.exit != Running then c
    else SendStep(StdoutStep(SocketStep(StdinStep(c, io), io), io, c), io, c)
  }

  function Run(c: Client, ios: seq<Io>): Client
    decreases |ios|
  {
    if ios == [] then c else Round(Run(c, ios[..|ios| - 1]), ios[|ios| - 1])
  }

  // ---------------------------------------------------------------- what every run keeps

  /** Nothing is lost, doubled or reordered, and an empty buffer is at its beginning. */
  ghost predicate PipeOk(p: Pipe) {
    && p.received == p.sent + p.pending
    && p.pos + |p.pending| <= MAXLINE && (p.pending == [] ==> p.pos == 0)
  }

  /** The FIN goes out once, when stdin has ended and everything read from it is written. */
  ghost predicate Good(c: Client) {
    PipeOk(c.up) && PipeOk(c.down) && c.fins == if c.stdineof && c.up.pending == [] then 1 else 0
  }

  lemma FillKeeps(p: Pipe, bytes: seq<octet>)
    requires PipeOk(p)
    ensures PipeOk(Filled(p, Taken(bytes, p.Room())))
  {
    var got := Taken(bytes, p.Room());
    assert p.received + got == p.sent + (p.pending + got);
  }

  lemma DrainKeeps(p: Pipe, n: nat)
    requires PipeOk(p)
    ensures PipeOk(Drained(p, n))
    ensures Drained(p, n).received == p.received && (Drained(p, n).pending == [] <==> n >= |p.pending|)
  {
    var k := Min(n, |p.pending|);
    assert p.sent + p.pending[..k] + p.pending[k..] == p.sent + p.pending;
  }

  /** What has been read and written stays so, and after the FIN nothing more is sent. */
  ghost predicate Extends(c: Client, d: Client) {
    && c.up.received <= d.up.received && c.up.sent <= d.up.sent
    && c.down.received <= d.down.received && c.down.sent <= d.down.sent
    && (c.stdineof ==> d.stdineof && d.up.received == c.up.received)
    && (c.fins == 1 ==> d.fins == 1 && d.up.sent == c.up.sent)
  }

  lemma StdinKeeps(c: Client, io: Io)
    requires Good(c)
    ensures Good(StdinStep(c, io)) && Extends(c, StdinStep(c, io))
  {
    if io.stdin.Returns? { FillKeeps(c.up, io.stdin.bytes); }
  }

  lemma SocketKeeps(c: Client, io: Io)
    requires Good(c)
    ensures Good(SocketStep(c, io)) && Extends(c, SocketStep(c, io))
  {
    if io.sockRead.Returns? { FillKeeps(c.down, io.sockRead.bytes); }
  }

  lemma StdoutKeeps(c: Client, io: Io, c0: Client)
    requires Good(c)
    ensures Good(StdoutStep(c, io, c0)) && Extends(c, StdoutStep(c, io, c0))
  {
    if io.stdout.Accepts? { DrainKeeps(c.down, io.stdout.n); }
  }

  lemma SendKeeps(c: Client, io: Io, c0: Client)
    requires Good(c)
    ensures Good(SendStep(c, io, c0)) && Extends(c, SendStep(c, io, c0))
  {
    if io.sockWrite.Accepts? { DrainKeeps(c.up, io.sockWrite.n); }
  }

  lemma RoundKeeps(c: Client, io: Io)
    requires Good(c)
    ensures Good(Round(c, io)) && Extends(c, Round(c, io))
  {
    hide StdinStep, SocketStep, StdoutStep, SendStep, Good;
    var c1 := StdinStep(c, io);
    var c2 := SocketStep(c1, io);
    var c3 := StdoutStep(c2, io, c);
    StdinKeeps(c, io);
    SocketKeeps(c1, io);
    StdoutKeeps(c2, io, c);
    SendKeeps(c3, io, c);
  }

  /** In every run. */
  lemma {:induction false} RunIsGood(ios: seq<Io>)
    ensures Good(Run(START, ios))
    decreases |ios|
  {
    if ios != [] {
      RunIsGood(ios[..|ios| - 1]);
      RoundKeeps(Run(START, ios[..|ios| - 1]), ios[|ios| - 1]);
    }
  }

  /**
    A longer run only adds to a shorter one; once the FIN is out, everything read from stdin has been sent for good.
   */
  lemma {:induction false} RunExtends(ios: seq<Io>, more: seq<Io>)
    ensures var c, d := Run(START, ios), Run(START, ios + more);
      Extends(c, d) && (c.fins == 1 ==> d.up.sent == d.up.received == c.up.sent)
    decreases |more|
  {
    hide Round;
    RunIsGood(ios);
    if more == [] {
      assert ios + more == ios;
    } else {
      var front, io := more[..|more| - 1], more[|more| - 1];
      RunExtends(ios, front);
      RunIsGood(ios + front);
      RoundKeeps(Run(START, ios + front), io);
      assert (ios + more)[..|ios + more| - 1] == ios + front;
    }
  }

  /** `select` always has something to wait for, in each direction that is still open. */
  lemma {:induction false} NeverIdle(ios: seq<Io>)
    ensures var c := Run(START, ios);
      && (c.down.Room() > 0 || c.down.pending != [])
      && (c.up.Room() > 0 || c.up.pending != [])
  {
    RunIsGood(ios);
  }

  /** Every `read` asks for at least one byte, so that none means end of file. */
  lemma OnlyEofEnds(c: Client, io: Io)
    requires Good(c) && c.exit == Running
    ensures !c.stdineof && Round(c, io).stdineof ==> io.stdin == Returns([])
    ensures Round(c, io).exit in {Finished, ServerGone} ==> io.sockRead == Returns([])
    ensures Round(c, io).exit == Finished ==> Round(c, io).stdineof
    ensures Round(c, io).exit == ServerGone ==> !Round(c, io).stdineof
  {}

  /** The round that ends the loop normally reads nothing more from the socket and writes nothing. */
  lemma LastRoundIsIdle(c: Client, io: Io)
    requires c.exit == Running && Round(c, io).exit == Finished
    ensures Round(c, io).down == c.down && Round(c, io).up.sent == c.up.sent
  {}

  lemma RunAppend(ios: seq<Io>, io: Io)
    ensures Run(START, ios + [io]) == Round(Run(START, ios), io)
  {
    assert (ios + [io])[..|ios|] == ios;
  }

  /**
    On normal termination the server's last bytes may be missing: all of them were printed exactly when nothing was
    waiting for stdout at the top of the round in which the socket's end of file is read.
   */
  lemma DeliveredExactly(ios: seq<Io>, io: Io)
    requires Run(START, ios).exit == Running && Run(START, ios + [io]).exit == Finished
    ensures io.sockRead == Returns([]) && Run(START, ios + [io]).stdineof
    ensures var d := Run(START, ios + [io]).down;
      && d.received == Run(START, ios).down.received && d.sent <= d.received
      && (d.sent == d.received <==> Run(START, ios).down.pending == [])
  {
    RunAppend(ios, io);
    RunIsGood(ios);
    OnlyEofEnds(Run(START, ios), io);
    hide Run, Round;
    LastRoundIsIdle(Run(START, ios), io);
  }

  /** For instance when stdout is not ready between the server's answer and its FIN. */
  lemma LastBytesMayBeLost()
    ensures exists ios :: Run(START, ios).exit == Finished && Run(START, ios).down.pending != []
  {
    var io0 := Io(Returns([]), Returns([65]), false, WriteWouldBlock, false, WriteWouldBlock);
    var io1 := Io(NotReady, Returns([]), false, WriteWouldBlock, false, WriteWouldBlock);
    var c0 := Round(START, io0);
    assert c0.stdineof && c0.exit == Running && c0.down.pending == [65];
    RunOfTwo(io0, io1);
    assert Run(START, [io0, io1]).exit == Finished;
  }

  lemma RunOfTwo(a: Io, b: Io)
    ensures Run(START, [a, b]) == Round(Round(START, a), b)
  {
    hide Round;
    assert [a, b][..1] == [a] && [a][..0] == [];
    assert Run(START, [a]) == Round(Run(START, []), a);
  }

  // ---------------------------------------------------------------- the buffers and their four pointers

  /** `buf` holds the pipe's bytes between the two pointers. */
  ghost predicate Holds(buf: array<octet>, optr: nat, iptr: nat, p: Pipe)
    reads buf
  {
    && buf.Length == MAXLINE && optr == p.pos && iptr == optr + |p.pending| <= MAXLINE
    && buf[optr..iptr] == p.pending
  }

  /** `read` into `buf` at `iptr`. */
  method Read(buf: array<octet>, optr: nat, iptr: nat, bytes: seq<octet>, ghost p: Pipe) returns (n: nat)
    requires Holds(buf, optr, iptr, p) && iptr < MAXLINE
    modifies buf
    ensures n == |Taken(bytes, MAXLINE - iptr)| && iptr + n <= MAXLINE
    ensures Holds(buf, optr, iptr + n, Filled(p, Taken(bytes, MAXLINE - iptr)))
  {
    n := Min(|bytes|, MAXLINE - iptr);
    assert Taken(bytes, MAXLINE - iptr) == bytes[..n];
    hide Taken;
    for k := 0 to n
      invariant forall j :: optr <= j < iptr ==> buf[j] == p.pending[j - optr]
      invariant forall j :: 0 <= j < k ==> buf[iptr + j] == bytes[j]
    {
      buf[iptr + k] := bytes[k];
    }
    assert buf[optr..iptr + n] == p.pending + bytes[..n];
  }

  method ReadStdin(to: array<octet>, tooptr: nat, toiptr0: nat, stdineof0: bool, io: Io, ghost c: Client)
    returns (toiptr: nat, stdineof: bool, fin: bool, exit: Exit)
    requires Holds(to, tooptr, toiptr0, c.up) && stdineof0 == c.stdineof && c.exit == Running
    modifies to
    ensures var d := StdinStep(c, io);
      && Holds(to, tooptr, toiptr, d.up) && stdineof == d.stdineof && exit == d.exit
      && d.fins == c.fins + (if fin then 1 else 0) && (toiptr != toiptr0 <==> d.up.received != c.up.received)
  {
    toiptr, stdineof, fin, exit := toiptr0, stdineof0, false, Running;
    if !stdineof && toiptr < MAXLINE {
      match io.stdin
      case NotReady =>
      case ReadWouldBlock =>
      case ReadFails => exit := IoError;
      case Returns(bytes) =>
        var n := Read(to, tooptr, toiptr, bytes, c.up);
        if n == 0 {
          stdineof := true;
          fin := tooptr == toiptr;
        } else {
          toiptr := toiptr + n;
        }
    }
  }

  method ReadSocket(fr: array<octet>, froptr: nat, friptr0: nat, stdineof: bool, io: Io, ghost c: Client)
    returns (friptr: nat, exit: Exit)
    requires Holds(fr, froptr, friptr0, c.down) && stdineof == c.stdineof && c.exit == Running
    modifies fr
    ensures var d := SocketStep(c, io);
      Holds(fr, froptr, friptr, d.down) && exit == d.exit && (friptr != friptr0 <==> d.down.received != c.down.received)
  {
    friptr, exit := friptr0, Running;
    if friptr < MAXLINE {
      match io.sockRead
      case NotReady =>
      case ReadWouldBlock =>
      case ReadFails => exit := IoError;
      case Returns(bytes) =>
        var n := Read(fr, froptr, friptr, bytes, c.down);
        if n == 0 {
          exit := if stdineof then Finished else ServerGone;
        } else {
          friptr := friptr + n;
        }
    }
  }

  /** `write` of what lies between the pointers, and the pointers after it. */
  method Write(buf: array<octet>, optr0: nat, iptr0: nat, n: nat, ghost p: Pipe)
    returns (optr: nat, iptr: nat, written: seq<octet>)
    requires Holds(buf, optr0, iptr0, p)
    ensures Holds(buf, optr, iptr, Drained(p, n)) && p.sent + written == Drained(p, n).sent
  {
    optr, iptr := optr0, iptr0;
    var nwritten := Min(n, iptr - optr);
    written := buf[optr..optr + nwritten];
    optr := optr + nwritten;
    if optr == iptr {
      optr, iptr := 0, 0;
    }
  }

  method WriteStdout(fr: array<octet>, froptr0: nat, friptr0: nat, attempt: bool, io: Io, ghost c: Client,
                     ghost c0: Client)
    returns (froptr: nat, friptr: nat, written: seq<octet>, exit: Exit)
    requires Holds(fr, froptr0, friptr0, c.down) && c.exit == Running
    requires attempt <==> (c0.down.pending != [] && io.stdoutReady) || c.down.received != c0.down.received
    ensures var d := StdoutStep(c, io, c0);
      && Holds(fr, froptr, friptr, d.down) && exit == d.exit && d.down.sent == c.down.sent + written
  {
    froptr, friptr, written, exit := froptr0, friptr0, [], Running;
    if attempt && friptr - froptr > 0 {
      match io.stdout
      case WriteWouldBlock =>
      case WriteFails => exit := IoError;
      case Accepts(n) => froptr, friptr, written := Write(fr, froptr, friptr, n, c.down);
    }
  }

  method WriteSocket(to: array<octet>, tooptr0: nat, toiptr0: nat, attempt: bool, stdineof: bool, io: Io,
                     ghost c: Client, ghost c0: Client)
    returns (tooptr: nat, toiptr: nat, written: seq<octet>, fin: bool, exit: Exit)
    requires Holds(to, tooptr0, toiptr0, c.up) && stdineof == c.stdineof && c.exit == Running
    requires attempt <==> (c0.up.pending != [] && io.sockReady) || c.up.received != c0.up.received
    ensures var d := SendStep(c, io, c0);
      && Holds(to, tooptr, toiptr, d.up) && exit == d.exit && d.up.sent == c.up.sent + written
      && d.fins == c.fins + (if fin then 1 else 0)
  {
    tooptr, toiptr, written, fin, exit := tooptr0, toiptr0, [], false, Running;
    if attempt && toiptr - tooptr > 0 {
      match io.sockWrite
      case WriteWouldBlock =>
      case WriteFails => exit := IoError;
      case Accepts(n) =>
        tooptr, toiptr, written := Write(to, tooptr, toiptr, n, c.up);
        fin := tooptr == toiptr && stdineof;
    }
  }

  lemma RunFrom(ios: seq<Io>, i: nat)
    requires i < |ios|
    ensures Run(START, ios[..i + 1]) == Round(Run(START, ios[..i]), ios[i])
  {
    assert ios[..i + 1][..i] == ios[..i];
  }

  /** After an exit nothing changes. */
  lemma {:induction false} RunStops(ios: seq<Io>, i: nat)
    requires i <= |ios| && Run(START, ios[..i]).exit != Running
    ensures Run(START, ios) == Run(START, ios[..i])
    decreases |ios|
  {
    hide Round;
    if i == |ios| {
      assert ios[..i] == ios;
    } else {
      var front := ios[..|ios| - 1];
      assert front[..i] == ios[..i];
      RunStops(front, i);
      ExitStays(Run(START, front), ios[|ios| - 1]);
    }
  }

  lemma ExitStays(c: Client, io: Io)
    requires c.exit != Running
    ensures Round(c, io) == c
  {}

  /** The parts of a round leave alone what belongs to the other direction. */
  lemma StepsAreApart(c: Client, io: Io, c0: Client)
    ensures StdinStep(c, io).down == c.down && SocketStep(c, io).up == c.up
    ensures StdinStep(c, io).up.sent == c.up.sent && SocketStep(c, io).down.sent == c.down.sent
    ensures StdoutStep(c, io, c0).up == c.up && SendStep(c, io, c0).down == c.down
    ensures SocketStep(c, io).stdineof == c.stdineof == StdoutStep(c, io, c0).stdineof == SendStep(c, io, c0).stdineof
    ensures SocketStep(c, io).fins == c.fins == StdoutStep(c, io, c0).fins
  {}

  /** A round with an exit on the way, and one without. */
  lemma CutShort(c: Client, io: Io)
    requires c.exit == Running
    ensures var c1 := StdinStep(c, io);
      if c1.exit != Running then Round(c, io) == c1
      else
        var c2 := SocketStep(c1, io);
        if c2.exit != Running then Round(c, io) == c2
        else
          var c3 := StdoutStep(c2, io, c);
          if c3.exit != Running then Round(c, io) == c3 else Round(c, io) == SendStep(c3, io, c)
  {}

  /** The local variables of `str_cli` besides the buffers. */
  datatype Locals = Locals(tooptr: nat, toiptr: nat, froptr: nat, friptr: nat, stdineof: bool)

  ghost predicate Mirrors(to: array<octet>, fr: array<octet>, v: Locals, c: Client)
    reads to, fr
  {
    Holds(to, v.tooptr, v.toiptr, c.up) && Holds(fr, v.froptr, v.friptr, c.down) && to != fr && v.stdineof == c.stdineof
  }

  /** The first half of the loop's body: what can be read is read. */
  method Reads(to: array<octet>, fr: array<octet>, v0: Locals, io: Io, ghost c: Client)
    returns (v: Locals, fin: bool, exit: Exit)
    requires Mirrors(to, fr, v0, c) && c.exit == Running
    modifies to, fr
    ensures var c1 := StdinStep(c, io);
      var d := if c1.exit == Running then SocketStep(c1, io) else c1;
      && Mirrors(to, fr, v, d) && exit == d.exit && d.fins == c.fins + (if fin then 1 else 0)
      && v.tooptr == v0.tooptr && v.froptr == v0.froptr && d.up.sent == c.up.sent && d.down.sent == c.down.sent
      && (v.toiptr != v0.toiptr <==> d.up.received != c.up.received)
      && (v.friptr != v0.friptr <==> d.down.received != c.down.received)
  {
    StepsAreApart(c, io, c);
    ghost var c1 := StdinStep(c, io);
    StepsAreApart(c1, io, c);
    hide StdinStep, SocketStep;
    var toiptr, stdineof;
    toiptr, stdineof, fin, exit := ReadStdin(to, v0.tooptr, v0.toiptr, v0.stdineof, io, c);
    v := v0.(toiptr := toiptr, stdineof := stdineof);
    if exit == Running {
      var friptr;
      friptr, exit := ReadSocket(fr, v.froptr, v.friptr, stdineof, io, c1);
      v := v.(friptr := friptr);
    }
  }

  /** The second half: what was waiting or has just come is written. */
  method Writes(to: array<octet>, fr: array<octet>, v0: Locals, stdoutSet: bool, sockSet: bool, io: Io,
                ghost c: Client, ghost c0: Client)
    returns (v: Locals, sent: seq<octet>, printed: seq<octet>, fin: bool, exit: Exit)
    requires Mirrors(to, fr, v0, c) && c.exit == Running
    requires stdoutSet <==> (c0.down.pending != [] && io.stdoutReady) || c.down.received != c0.down.received
    requires sockSet <==> (c0.up.pending != [] && io.sockReady) || c.up.received != c0.up.received
    ensures var c3 := StdoutStep(c, io, c0);
      var d := if c3.exit == Running then SendStep(c3, io, c0) else c3;
      && Mirrors(to, fr, v, d) && exit == d.exit && d.fins == c.fins + (if fin then 1 else 0)
      && d.up.sent == c.up.sent + sent && d.down.sent == c.down.sent + printed
  {
    ghost var c3 := StdoutStep(c, io, c0);
    StepsAreApart(c, io, c0);
    StepsAreApart(c3, io, c0);
    hide StdoutStep, SendStep;
    sent, fin := [], false;
    var optr, iptr;
    optr, iptr, printed, exit := WriteStdout(fr, v0.froptr, v0.friptr, stdoutSet, io, c, c0);
    v := v0.(froptr := optr, friptr := iptr);
    if exit == Running {
      optr, iptr, sent, fin, exit := WriteSocket(to, v.tooptr, v.toiptr, sockSet, v.stdineof, io, c3, c0);
      v := v.(tooptr := optr, toiptr := iptr);
    }
  }

  /** `str_cli`, for as many rounds as `ios` has; with what it sent, printed and how often it sent a FIN. */
  method StrCli(ios: seq<Io>) returns (exit: Exit, sent: seq<octet>, printed: seq<octet>, fins: nat)
    ensures var c := Run(START, ios);
      exit == c.exit && sent == c.up.sent && printed == c.down.sent && fins == c.fins
  {
    var to, fr := new octet[MAXLINE], new octet[MAXLINE];
    var v := Locals(0, 0, 0, 0, false);
    var i := 0;
    exit, sent, printed, fins := Running, [], [], 0;
    ghost var c := START;
    assert ios[..0] == [] && Mirrors(to, fr, v, c);
    while i < |ios| && exit == Running
      invariant i <= |ios| && c == Run(START, ios[..i]) && Mirrors(to, fr, v, c)
      invariant exit == c.exit && sent == c.up.sent && printed == c.down.sent && fins == c.fins
    {
      hide Run, Round, StdinStep, SocketStep, StdoutStep, SendStep;
      var io := ios[i];
      RunFrom(ios, i);
      CutShort(c, io);
      ghost var c0 := c;
      var stdoutSet, sockSet := v.froptr != v.friptr && io.stdoutReady, v.tooptr != v.toiptr && io.sockReady;
      var v0, fin := v, false;
      v, fin, exit := Reads(to, fr, v, io, c);
      fins := fins + if fin then 1 else 0;
      c := StdinStep(c, io);
      if exit == Running {
        c := SocketStep(c, io);
        stdoutSet := stdoutSet || v.friptr != v0.friptr;
        sockSet := sockSet || v.toiptr != v0.toiptr;
        var out, shown;
        v, out, shown, fin, exit := Writes(to, fr, v, stdoutSet, sockSet, io, c, c0);
        sent, printed, fins := sent + out, printed + shown, fins + if fin then 1 else 0;
      }
      i := i + 1;
      c := Round(c0, io);
    }
    if exit == Running {
      assert ios[..i] == ios;
    } else {
      RunStops(ios, i);
    }
  }
}
