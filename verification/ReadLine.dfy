/** Lines out of a descriptor that is read a bufferful at a time. */
module ReadLine {
  import opened Common

  const MAXLINE: nat := 4096
  const NEWLINE: octet := 10

  /** What one `read` call does; no bytes are the end of file. */
  datatype Event = Interrupted | Fails | Data(bytes: seq<octet>)

  /** What the reader meets in turn; after the last item there is only the end of file. */
  datatype Item = Byte(b: octet) | Failure | EndOfFile

  function Bytes(s: seq<octet>): (r: seq<Item>)
    ensures |r| == |s| && forall k :: 0 <= k < |s| ==> r[k] == Byte(s[k])
  {
    seq(|s|, k requires 0 <= k < |s| => Byte(s[k]))
  }

  function Items(events: seq<Event>): seq<Item> {
    if events == [] then []
    else
      (match events[0]
       case Interrupted => []
       case Fails => [Failure]
       case Data(bytes) => if bytes == [] then [EndOfFile] else Bytes(bytes)) + Items(events[1..])
  }

  // ---------------------------------------------------------------- lines of a stream of items

  /** The length of the next line: up to a newline, a failure, the end, or the room there is. */
  function LineLength(s: seq<Item>, room: nat): (n: nat)
    ensures n <= room && n <= |s| && forall k :: 0 <= k < n ==> s[k].Byte?
  {
    if room == 0 || s == [] || !s[0].Byte? then 0
    else if s[0].b == NEWLINE then 1
    else 1 + LineLength(s[1..], room - 1)
  }

  function Text(s: seq<Item>): (r: seq<octet>)
    requires forall k :: 0 <= k < |s| ==> s[k].Byte?
    ensures |r| == |s| && forall k :: 0 <= k < |s| ==> r[k] == s[k].b
  {
    seq(|s|, k requires 0 <= k < |s| => s[k].b)
  }

  /** The outcome of one call: the value returned, what was stored before the null byte, and what is left to read. */
  datatype Outcome = Outcome(rc: int, line: seq<octet>, rest: seq<Item>)

  function EndsLine(line: seq<octet>): bool { line != [] && line[|line| - 1] == NEWLINE }

  function NextLine(s: seq<Item>, maxlen: nat): Outcome {
    var room := if maxlen == 0 then 0 else maxlen - 1;
    var n := LineLength(s, room);
    var line := Text(s[..n]);
    if EndsLine(line) then Outcome(n, line, s[n..])
    else if n == room then Outcome(n + 1, line, s[n..])
    else if n == |s| then Outcome(n, line, [])
    else Outcome(if s[n] == Failure then -1 else n, line, s[n + 1..])
  }

  // ---------------------------------------------------------------- the reader

  class Reader {
    var cnt: int
    var ptr: nat
    var buf: seq<octet>
    var events: seq<Event>

    ghost predicate Valid()
      reads this
    {
      && (cnt > 0 ==> ptr + cnt <= |buf|)
      && forall e :: e in events && e.Data? ==> |e.bytes| <= MAXLINE
    }

    /** Everything still to be met: what is buffered, then what the system will deliver. */
    ghost function Stream(): seq<Item>
      requires Valid()
      reads this
    {
      (if cnt > 0 then Bytes(buf[ptr..ptr + cnt]) else []) + Items(events)
    }

    constructor (system: seq<Event>)
      requires forall e :: e in system && e.Data? ==> |e.bytes| <= MAXLINE
      ensures Valid() && Stream() == Items(system)
    {
      cnt, ptr, buf, events := 0, 0, [], system;
      new;
      assert [] + Items(system) == Items(system);
    }

    /** One call of `read`, and again when a signal interrupts it. */
    method Refill() returns (rc: int)
      requires Valid() && cnt <= 0
      modifies this
      ensures Valid() && (rc == 1 <==> cnt > 0)
      ensures rc == 1 ==> Stream() == old(Stream())
      ensures rc != 1 && old(Stream()) == [] ==> rc == 0 && Stream() == []
      ensures rc != 1 && old(Stream()) != [] ==>
                && Stream() == old(Stream())[1..]
                && old(Stream())[0] == if rc == 0 then EndOfFile else Failure
      ensures rc in {-1, 0, 1}
    {
      ghost var s := Items(events);
      assert [] + s == s;
      while true
        invariant Valid() && cnt <= 0 && Items(events) == s
        decreases |events|
      {
        if events == [] {
          cnt := 0;
          return 0;
        }
        var e := events[0];
        ItemsNext(events);
        hide Items, Bytes;
        events := events[1..];
        match e
        case Interrupted => cnt := -1;
        case Fails =>
          cnt := -1;
          assert [] + Items(events) == Items(events);
          return -1;
        case Data(bytes) =>
          cnt := |bytes|;
          if cnt == 0 {
            assert [] + Items(events) == Items(events);
            return 0;
          }
          buf, ptr := bytes, 0;
          assert buf[0..cnt] == bytes;
          return 1;
      }
    }

    /** `my_read`. */
    method MyRead() returns (rc: int, c: octet)
      requires Valid()
      modifies this
      ensures Valid()
      ensures old(Stream()) == [] ==> rc == 0 && Stream() == []
      ensures old(Stream()) != [] ==>
                && Stream() == old(Stream())[1..]
                && match old(Stream())[0]
                   case Byte(b) => rc == 1 && c == b
                   case Failure => rc == -1
                   case EndOfFile => rc == 0
    {
      if cnt <= 0 {
        rc := Refill();
        if rc != 1 {
          return rc, 0;
        }
      }
      c := TakeByte();
      rc := 1;
    }

    method TakeByte() returns (c: octet)
      requires Valid() && cnt > 0
      modifies this
      ensures Valid() && old(Stream()) == [Byte(c)] + Stream()
    {
      hide Items, Bytes;
      TakesOne(buf, ptr, cnt, Items(events));
      c := buf[ptr];
      cnt, ptr := cnt - 1, ptr + 1;
    }

    /** One turn of the loop in `readline`, for the byte at `k`. */
    method Turn(vptr: array<octet>, maxlen: nat, k: nat, ghost s: seq<Item>, ghost was: seq<octet>)
      returns (done: bool, rc: int)
      requires Valid() && k + 1 < maxlen <= vptr.Length && Going(s, k, Stream(), vptr[..], was)
      modifies this, vptr
      ensures Valid()
      ensures if done then Returned(s, maxlen, rc, Stream(), vptr[..], was)
        else Going(s, k + 1, Stream(), vptr[..], was)
    {
      ghost var line := Text(s[..k]);
      var c;
      rc, c := MyRead();
      done := rc != 1;
      if rc == 1 {
        Store(vptr, k, c, line, was);
        if c == NEWLINE {
          done, rc := true, k + 1;
          BreaksHere(s, maxlen, k, line + [c]);
          Store(vptr, k + 1, 0, line + [c], was);
        } else {
          GoesOn(s, k, line + [c]);
        }
      } else {
        EndsHere(s, maxlen, k);
        if rc == 0 {
          Store(vptr, k, 0, line, was);
          rc := k;
        }
        assert line + [] == line;
      }
      hide Valid, Stream, NextLine, LineLength, Text, Unbroken, Written;
    }

    /**
      `readline`, into the `maxlen` bytes at `vptr`, one at least since the terminating null byte is always stored,
      except after a failure.
     */
    method Readline(vptr: array<octet>, maxlen: nat) returns (rc: int)
      requires Valid() && 1 <= vptr.Length && maxlen <= vptr.Length
      modifies this, vptr
      ensures Valid() && Returned(old(Stream()), maxlen, rc, Stream(), vptr[..], old(vptr[..]))
    {
      hide *;
      ghost var s, was := Stream(), vptr[..];
      StartGoing(s, was);
      var n := 1;
      while n < maxlen
        invariant 1 <= n && (n == 1 || n <= maxlen)
        invariant Valid() && Going(s, n - 1, Stream(), vptr[..], was)
      {
        var done;
        done, rc := Turn(vptr, maxlen, n - 1, s, was);
        if done {
          return;
        }
        n := n + 1;
      }
      EndOfRoom(vptr, maxlen, n - 1, s, Stream(), was);
      rc := n;
    }
  }

  /** What is stored when the loop is left because the room is used up. */
  method EndOfRoom(vptr: array<octet>, maxlen: nat, k: nat, ghost s: seq<Item>, ghost rest: seq<Item>,
                   ghost was: seq<octet>)
    requires k == (if maxlen == 0 then 0 else maxlen - 1) && k < vptr.Length && Going(s, k, rest, vptr[..], was)
    modifies vptr
    ensures Returned(s, maxlen, k + 1, rest, vptr[..], was)
  {
    FillsUp(s, maxlen, k);
    Store(vptr, k, 0, Text(s[..k]), was);
  }

  /** `k` bytes of `s` have been read and stored, and none of them ends a line. */
  ghost predicate Going(s: seq<Item>, k: nat, rest: seq<Item>, now: seq<octet>, was: seq<octet>) {
    Unbroken(s, k) && rest == s[k..] && Written(now, Text(s[..k]), was)
  }

  lemma StartGoing(s: seq<Item>, was: seq<octet>)
    ensures Going(s, 0, s, was, was)
  {}

  /** The call has returned what the next line of `s` says: the bytes of the line, then the null byte. */
  ghost predicate Returned(s: seq<Item>, maxlen: nat, rc: int, rest: seq<Item>, now: seq<octet>, was: seq<octet>) {
    var o := NextLine(s, maxlen);
    rc == o.rc && rest == o.rest && Written(now, o.line + if rc == -1 then [] else [0], was)
  }

  /** `now` is `was` with `line` stored at its beginning. */
  ghost predicate Written(now: seq<octet>, line: seq<octet>, was: seq<octet>) {
    |line| <= |was| && now == line + was[|line|..]
  }

  /** One byte more behind `line`. */
  method Store(vptr: array<octet>, k: nat, c: octet, ghost line: seq<octet>, ghost was: seq<octet>)
    requires k == |line| < vptr.Length && Written(vptr[..], line, was)
    modifies vptr
    ensures Written(vptr[..], line + [c], was)
  {
    vptr[k] := c;
  }

  // ---------------------------------------------------------------- the ways a line ends

  /** The first `k` items are bytes and no newline. */
  ghost predicate Unbroken(s: seq<Item>, k: nat) {
    k <= |s| && forall i :: 0 <= i < k ==> s[i].Byte? && s[i].b != NEWLINE
  }

  lemma {:induction false} UnbrokenLength(s: seq<Item>, room: nat, k: nat)
    requires Unbroken(s, k) && k <= room
    ensures LineLength(s, room) == k + LineLength(s[k..], room - k)
  {
    if k == 0 {
      assert s[0..] == s;
    } else {
      UnbrokenLength(s[1..], room - 1, k - 1);
      assert s[1..][k - 1..] == s[k..];
    }
  }

  lemma BreaksHere(s: seq<Item>, maxlen: nat, k: nat, line: seq<octet>)
    requires Unbroken(s, k) && k < |s| && s[k] == Byte(NEWLINE) && k + 1 < maxlen && line == Text(s[..k]) + [NEWLINE]
    ensures NextLine(s, maxlen) == Outcome(k + 1, line, s[k..][1..])
  {
    UnbrokenLength(s, maxlen - 1, k);
    assert Text(s[..k + 1]) == line;
  }

  lemma GoesOn(s: seq<Item>, k: nat, line: seq<octet>)
    requires Unbroken(s, k) && k < |s| && s[k].Byte? && s[k].b != NEWLINE && line == Text(s[..k]) + [s[k].b]
    ensures Unbroken(s, k + 1) && line == Text(s[..k + 1]) && s[k..][1..] == s[k + 1..]
  {}

  lemma EndsHere(s: seq<Item>, maxlen: nat, k: nat)
    requires Unbroken(s, k) && k + 1 < maxlen && (k < |s| ==> !s[k].Byte?)
    ensures NextLine(s, maxlen) ==
            Outcome(if k < |s| && s[k] == Failure then -1 else k, Text(s[..k]), if k < |s| then s[k..][1..] else [])
  {
    UnbrokenLength(s, maxlen - 1, k);
    assert LineLength(s, maxlen - 1) == k;
    hide LineLength, Text, EndsLine;
    NotEnded(s, k);
    assert k < |s| ==> s[k..][1..] == s[k + 1..];
  }

  lemma NotEnded(s: seq<Item>, k: nat)
    requires Unbroken(s, k)
    ensures !EndsLine(Text(s[..k]))
  {}

  lemma FillsUp(s: seq<Item>, maxlen: nat, k: nat)
    requires Unbroken(s, k) && k == (if maxlen == 0 then 0 else maxlen - 1)
    ensures NextLine(s, maxlen) == Outcome(k + 1, Text(s[..k]), s[k..])
  {
    UnbrokenLength(s, k, k);
    NotEnded(s, k);
  }

  lemma ItemsNext(events: seq<Event>)
    requires events != []
    ensures Items(events) == match events[0]
                             case Interrupted => Items(events[1..])
                             case Fails => [Failure] + Items(events[1..])
                             case Data(bytes) =>
                               (if bytes == [] then [EndOfFile] else Bytes(bytes)) + Items(events[1..])
  {
    assert [] + Items(events[1..]) == Items(events[1..]);
  }

  lemma TakesOne(buf: seq<octet>, ptr: nat, cnt: nat, later: seq<Item>)
    requires 0 < cnt && ptr + cnt <= |buf|
    ensures Bytes(buf[ptr..ptr + cnt]) + later
            == [Byte(buf[ptr])] + ((if cnt - 1 > 0 then Bytes(buf[ptr + 1..ptr + 1 + (cnt - 1)]) else []) + later)
  {
    assert Bytes(buf[ptr..ptr + cnt]) == [Byte(buf[ptr])] + Bytes(buf[ptr + 1..ptr + cnt]);
  }

  // ---------------------------------------------------------------- what the caller may rely on

  /** No call fails, and the end of file comes last. */
  ghost predicate Quiet(events: seq<Event>) {
    forall e :: e in events ==> !e.Fails? && (e.Data? ==> e.bytes != [])
  }

  function Delivered(events: seq<Event>): seq<octet> {
    if events == [] then []
    else (if events[0].Data? then events[0].bytes else []) + Delivered(events[1..])
  }

  /** The stream, and so every line, depends on the bytes alone, not on how `read` cuts them or is interrupted. */
  lemma {:induction false} ChunkingDoesNotMatter(events: seq<Event>)
    requires Quiet(events)
    ensures Items(events) == Bytes(Delivered(events))
  {
    if events != [] {
      ItemsNext(events);
      ChunkingDoesNotMatter(events[1..]);
      var bytes := if events[0].Data? then events[0].bytes else [];
      assert Bytes(bytes + Delivered(events[1..])) == Bytes(bytes) + Bytes(Delivered(events[1..]));
      assert [] + Items(events[1..]) == Items(events[1..]);
    }
  }

  /** A line and what is left are the stream; and there is no newline inside a line. */
  lemma LineIsPrefix(bytes: seq<octet>, maxlen: nat)
    ensures var o := NextLine(Bytes(bytes), maxlen);
      && o.line <= bytes && o.rest == Bytes(bytes[|o.line|..])
      && (forall k :: 0 <= k < |o.line| - 1 ==> o.line[k] != NEWLINE)
      && (EndsLine(o.line) || |o.line| == |bytes| || |o.line| + 1 >= maxlen)
  {
    var s := Bytes(bytes);
    var room := if maxlen == 0 then 0 else maxlen - 1;
    LengthStops(s, room);
    var n := LineLength(s, room);
    assert s[n..] == Bytes(bytes[n..]);
    assert Text(s[..n]) == bytes[..n];
  }

  lemma {:induction false} LengthStops(s: seq<Item>, room: nat)
    requires forall k :: 0 <= k < |s| ==> s[k].Byte?
    ensures var n := LineLength(s, room);
      && (forall k :: 0 <= k < n - 1 ==> s[k].b != NEWLINE)
      && (n == room || n == |s| || (n > 0 && s[n - 1].b == NEWLINE))
  {
    if room > 0 && s != [] && s[0].b != NEWLINE {
      LengthStops(s[1..], room - 1);
    }
  }

  /** A line ends in a newline just when there is one within the room. */
  lemma {:induction false} EndsWhereNewlineIs(bytes: seq<octet>, room: nat)
    ensures var n := LineLength(Bytes(bytes), room);
      n > 0 && bytes[n - 1] == NEWLINE <==> NEWLINE in bytes[..Min(room, |bytes|)]
  {
    if room > 0 && bytes != [] {
      var more := bytes[1..];
      assert Bytes(bytes)[1..] == Bytes(more);
      assert bytes[..Min(room, |bytes|)] == [bytes[0]] + more[..Min(room - 1, |more|)];
      if bytes[0] != NEWLINE {
        EndsWhereNewlineIs(more, room - 1);
      }
    }
  }

  /**
    The value returned is the number of bytes stored exactly when the stream ends before the room does or has a newline
    within it; otherwise it is one more.
   */
  lemma CountsExactly(bytes: seq<octet>, maxlen: nat)
    ensures var o := NextLine(Bytes(bytes), maxlen);
      var room := if maxlen == 0 then 0 else maxlen - 1;
      && (o.rc == |o.line| <==> |bytes| < room || NEWLINE in bytes[..room])
      && (o.rc != |o.line| ==> o.rc == |o.line| + 1)
  {
    var room := if maxlen == 0 then 0 else maxlen - 1;
    LineIsPrefix(bytes, maxlen);
    EndsWhereNewlineIs(bytes, room);
    hide LineLength, Bytes;
  }

  /** Two bytes without a newline in a buffer for three: three are reported. */
  lemma CountCanBeWrong()
    ensures NextLine(Bytes([65, 66]), 3).rc == 3 && NextLine(Bytes([65, 66]), 3).line == [65, 66]
  {
    LineIsPrefix([65, 66], 3);
    CountsExactly([65, 66], 3);
  }

  // ---------------------------------------------------------------- failures

  lemma CountsAdd<T>(a: seq<T>, b: seq<T>, x: T)
    ensures multiset(a + b)[x] == multiset(a)[x] + multiset(b)[x]
  {}

  lemma NoneInBytes(bytes: seq<octet>, x: Item)
    requires !x.Byte?
    ensures multiset(Bytes(bytes))[x] == 0
  {
    assert x !in Bytes(bytes);
  }

  /** Every failing call and every empty one is met once by the reader, and an interrupted call never. */
  lemma {:induction false} FailuresAreMet(events: seq<Event>)
    ensures multiset(Items(events))[Failure] == multiset(events)[Fails]
    ensures multiset(Items(events))[EndOfFile] == multiset(events)[Data([])]
  {
    if events != [] {
      var e, more := events[0], events[1..];
      FailuresAreMet(more);
      ItemsNext(events);
      hide *;
      assert events == [e] + more;
      CountsAdd([e], more, Fails);
      CountsAdd([e], more, Data([]));
      if !e.Interrupted? {
        var met := if e.Fails? then [Failure] else if e.bytes == [] then [EndOfFile] else Bytes(e.bytes);
        CountsAdd(met, Items(more), Failure);
        CountsAdd(met, Items(more), EndOfFile);
        if e.Data? {
          NoneInBytes(e.bytes, Failure);
          NoneInBytes(e.bytes, EndOfFile);
        }
      }
    }
  }

  /** Where a line stops, whatever the stream holds. */
  lemma {:induction false} StopsAt(s: seq<Item>, room: nat)
    ensures var n := LineLength(s, room);
      || (n > 0 && Unbroken(s, n - 1) && s[n - 1] == Byte(NEWLINE))
      || (Unbroken(s, n) && (n == room || n == |s| || !s[n].Byte?))
  {
    if room > 0 && s != [] && s[0].Byte? && s[0].b != NEWLINE {
      StopsAt(s[1..], room - 1);
    }
  }

  /** A failure is met at `k`, before a newline and within the room. */
  ghost predicate FailsAt(s: seq<Item>, maxlen: nat, k: nat) {
    Unbroken(s, k) && k < |s| && k + 1 < maxlen && s[k] == Failure
  }

  /** A call fails exactly when a failure comes before a newline, before the end of file and within the room. */
  lemma FailsExactly(s: seq<Item>, maxlen: nat)
    ensures NextLine(s, maxlen).rc == -1 <==> exists k: nat :: FailsAt(s, maxlen, k)
  {
    if k: nat :| FailsAt(s, maxlen, k) {
      EndsHere(s, maxlen, k);
    } else if NextLine(s, maxlen).rc == -1 {
      StopsAt(s, maxlen - 1);
      var n := LineLength(s, maxlen - 1);
      assert EndsLine(Text(s[..n])) <==> n > 0 && s[n - 1].b == NEWLINE;
      assert FailsAt(s, maxlen, n);
    }
  }

  /** All lines up to the end of file. */
  function Lines(bytes: seq<octet>, maxlen: nat): seq<seq<octet>>
    requires maxlen >= 2
    decreases |bytes|
  {
    var o := NextLine(Bytes(bytes), maxlen);
    if o.line == [] then [] else
      LineIsPrefix(bytes, maxlen);
      [o.line] + Lines(bytes[|o.line|..], maxlen)
  }

  function Joined(lines: seq<seq<octet>>): seq<octet> {
    if lines == [] then [] else lines[0] + Joined(lines[1..])
  }

  /** Calling `readline` until it returns 0 delivers the whole stream. */
  lemma {:induction false} LinesAreTheStream(bytes: seq<octet>, maxlen: nat)
    requires maxlen >= 2
    ensures Joined(Lines(bytes, maxlen)) == bytes
    decreases |bytes|
  {
    var o := NextLine(Bytes(bytes), maxlen);
    LineIsPrefix(bytes, maxlen);
    hide NextLine, Bytes;
    if o.line != [] {
      LinesAreTheStream(bytes[|o.line|..], maxlen);
      assert Lines(bytes, maxlen)[1..] == Lines(bytes[|o.line|..], maxlen);
    }
  }
}
