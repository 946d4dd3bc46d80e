/** The Internet checksum (sections 1 and 2 of RFC 1071). */
module Checksum {
  import opened Common

  const WORD := 0x1_0000
  const ONES := 0xffff
  const WRAP := 0x1_0000_0000

  // ---------------------------------------------------------------- the one's complement sum

  /** Addition with end-around carry. */
  function OnesAdd(a: word, b: word): word { if a + b <= ONES then a + b else a + b - ONES }

  function OnesSum(ws: seq<word>): word {
    if ws == [] then 0 else OnesAdd(OnesSum(ws[..|ws| - 1]), ws[|ws| - 1])
  }

  function Total(ws: seq<word>): nat {
    if ws == [] then 0 else Total(ws[..|ws| - 1]) + ws[|ws| - 1]
  }

  /** The word congruent to `s` modulo 0xffff that is 0 for 0 alone. */
  function Residue(s: nat): word { if s == 0 then 0 else (s - 1) % ONES + 1 }

  lemma ResidueIs(s: nat, q: nat, r: word)
    requires s == ONES * q + r && (r == 0 ==> s == 0)
    ensures Residue(s) == r
  {}

  lemma {:induction false} OnesSumIsResidue(ws: seq<word>)
    ensures OnesSum(ws) == Residue(Total(ws))
  {
    if ws != [] {
      OnesSumIsResidue(ws[..|ws| - 1]);
    }
  }

  lemma {:induction false} TotalBound(ws: seq<word>)
    ensures Total(ws) <= |ws| * ONES
  {
    if ws != [] {
      TotalBound(ws[..|ws| - 1]);
    }
  }

  // ---------------------------------------------------------------- what the routine computes

  /** The complement of the sum in an accumulator of 32 bits, with both carries added back. */
  function Checksum(ws: seq<word>): word { ONES - Residue(Wrapped(Total(ws))) }

  /** A sum as a `uint32_t` holds it. */
  function Wrapped(sum: nat): u32 { sum % WRAP }

  /**
    For any buffer whose length is an `int`, the checksum is right exactly when the accumulator does not wrap around.
   */
  lemma ChecksumExactly(ws: seq<word>)
    requires |ws| <= 0x4000_0000
    ensures Checksum(ws) == ONES - OnesSum(ws) <==> Total(ws) < WRAP
  {
    OnesSumIsResidue(ws);
    TotalBound(ws);
    var t, k := Total(ws), Total(ws) / WRAP;
    if t >= WRAP {
      assert t == WRAP * k + t % WRAP && 0 < k < ONES;
      ResiduesDiffer(t % WRAP, t, k);
    }
  }

  lemma ResiduesDiffer(a: nat, t: nat, k: nat)
    requires t == WRAP * k + a && 0 < k < ONES
    ensures Residue(a) != Residue(t)
  {
    assert t - a == ONES * (k * 0x1_0001) + k;
  }

  /** Up to 65537 words it cannot. */
  lemma NoOverflow(ws: seq<word>)
    requires |ws| <= 65537
    ensures Total(ws) < WRAP && Checksum(ws) == ONES - OnesSum(ws)
  {
    TotalBound(ws);
    ChecksumExactly(ws);
  }

  lemma {:induction false} TotalOfSame(n: nat, w: word)
    ensures Total(seq(n, _ => w)) == n * w
  {
    if n > 0 {
      TotalOfSame(n - 1, w);
      assert seq(n, _ => w)[..n - 1] == seq(n - 1, _ => w);
    }
  }

  /** With one word more it can, and the result is wrong. */
  lemma OverflowIsWrong()
    ensures var ws := seq(65538, _ => 0xffff as word); Checksum(ws) != ONES - OnesSum(ws)
  {
    var ws := seq(65538, _ => 0xffff as word);
    TotalOfSame(65538, 0xffff);
    ChecksumExactly(ws);
  }

  // ---------------------------------------------------------------- storing it

  lemma {:induction false} TotalUpdate(ws: seq<word>, k: nat, w: word)
    requires k < |ws|
    ensures Total(ws[k := w]) == Total(ws) - ws[k] + w
  {
    var front := ws[..|ws| - 1];
    if k < |front| {
      TotalUpdate(front, k, w);
      assert ws[k := w][..|ws| - 1] == front[k := w];
    } else {
      assert ws[k := w][..|ws| - 1] == front;
    }
  }

  lemma ComplementCompletes(t: nat)
    ensures Residue(t + (ONES - Residue(t))) == ONES
  {
    ResidueIs(t + (ONES - Residue(t)), if t == 0 then 0 else (t - 1) / ONES, ONES);
  }

  /** Over a buffer with its checksum stored in a field that was zero, the checksum is 0. */
  lemma StoredChecksVerify(ws: seq<word>, k: nat)
    requires |ws| <= 65537 && k < |ws| && ws[k] == 0
    ensures Checksum(ws[k := Checksum(ws)]) == 0
  {
    hide Total, OnesSum, Residue;
    var c := Checksum(ws);
    NoOverflow(ws);
    NoOverflow(ws[k := c]);
    TotalUpdate(ws, k, c);
    ComplementCompletes(Total(ws));
  }

  // ---------------------------------------------------------------- byte order

  function Swap(w: word): word { w % 0x100 * 0x100 + w / 0x100 }

  function SwapAll(ws: seq<word>): (r: seq<word>)
    ensures |r| == |ws| && forall k :: 0 <= k < |ws| ==> r[k] == Swap(ws[k])
  {
    seq(|ws|, k requires 0 <= k < |ws| => Swap(ws[k]))
  }

  lemma ResidueOfSum(a: nat, b: nat, d: nat)
    requires Residue(a) == Residue(b)
    ensures Residue(a + d) == Residue(b + d)
  {}

  lemma ResidueSwaps(s: nat)
    ensures Residue(0x100 * s) == Swap(Residue(s))
  {
    if s > 0 {
      var q, r := (s - 1) / ONES, Residue(s);
      assert s == ONES * q + r;
      var h, l := r / 0x100, r % 0x100;
      assert 0x100 * s == ONES * (0x100 * q + h) + (0x100 * l + h);
      ResidueIs(0x100 * s, 0x100 * q + h, Swap(r));
    }
  }

  lemma {:induction false} TotalSwaps(ws: seq<word>)
    ensures Residue(Total(SwapAll(ws))) == Residue(0x100 * Total(ws))
  {
    if ws != [] {
      var front, w := ws[..|ws| - 1], ws[|ws| - 1];
      assert SwapAll(ws)[..|ws| - 1] == SwapAll(front);
      TotalSwaps(front);
      var a, b := Total(SwapAll(front)), 0x100 * Total(front);
      ResidueOfSum(a, b, Swap(w));
      SwapIsTimes(b, w);
    }
  }

  lemma SwapIsTimes(b: nat, w: word)
    ensures Residue(b + Swap(w)) == Residue(b + 0x100 * w)
  {
    assert 0x100 * w == ONES * (w / 0x100) + Swap(w);
  }

  lemma SwapComplements(r: word)
    ensures Swap(ONES - r) == ONES - Swap(r)
  {
    var h, l := r / 0x100, r % 0x100;
    assert ONES - r == (0xff - h) * 0x100 + (0xff - l);
  }

  /** Swapping the bytes of every word swaps those of the checksum. */
  lemma ChecksumSwaps(ws: seq<word>)
    requires |ws| <= 65537
    ensures Checksum(SwapAll(ws)) == Swap(Checksum(ws))
  {
    hide OnesSum, Total, Swap, Checksum, Residue;
    NoOverflow(ws);
    NoOverflow(SwapAll(ws));
    OnesSumIsResidue(ws);
    OnesSumIsResidue(SwapAll(ws));
    TotalSwaps(ws);
    ResidueSwaps(Total(ws));
    SwapComplements(OnesSum(ws));
  }

  // ---------------------------------------------------------------- over the bytes of memory

  /** A 16-bit load on a machine that is little-endian or not. */
  function Load(first: octet, second: octet, little: bool): word {
    if little then second * 0x100 + first else first * 0x100 + second
  }

  /** The two bytes a 16-bit store writes. */
  function Stored(w: word, little: bool): (octet, octet) {
    if little then (w % 0x100, w / 0x100) else (w / 0x100, w % 0x100)
  }

  /** The words of a buffer; an odd last byte stands first in its word. */
  function Words(bytes: seq<octet>, little: bool): (ws: seq<word>)
    ensures |ws| == (|bytes| + 1) / 2
  {
    if |bytes| == 0 then []
    else if |bytes| == 1 then [Load(bytes[0], 0, little)]
    else if |bytes| % 2 == 1 then Words(bytes[..|bytes| - 1], little) + [Load(bytes[|bytes| - 1], 0, little)]
    else Words(bytes[..|bytes| - 2], little) + [Load(bytes[|bytes| - 2], bytes[|bytes| - 1], little)]
  }

  lemma {:induction false} WordAt(bytes: seq<octet>, little: bool, k: nat)
    requires 2 * k < |bytes|
    ensures Words(bytes, little)[k] == Load(bytes[2 * k], if 2 * k + 1 < |bytes| then bytes[2 * k + 1] else 0, little)
    decreases |bytes|
  {
    var shorter := |bytes| - (if |bytes| % 2 == 1 then 1 else 2);
    if 2 * k < shorter {
      WordAt(bytes[..shorter], little, k);
    }
  }

  lemma LoadSwaps(first: octet, second: octet)
    ensures Load(first, second, true) == Swap(Load(first, second, false))
  {}

  lemma WordsSwap(bytes: seq<octet>)
    ensures Words(bytes, true) == SwapAll(Words(bytes, false))
  {
    hide Words, Load, Swap;
    forall k | 0 <= k < |Words(bytes, true)| ensures Words(bytes, true)[k] == SwapAll(Words(bytes, false))[k] {
      WordAt(bytes, true, k);
      WordAt(bytes, false, k);
      LoadSwaps(bytes[2 * k], if 2 * k + 1 < |bytes| then bytes[2 * k + 1] else 0);
    }
  }

  /** The bytes of the stored checksum do not depend on the machine's byte order. */
  lemma SameBytesOnBothMachines(bytes: seq<octet>)
    requires |bytes| <= 131074
    ensures Stored(Checksum(Words(bytes, true)), true) == Stored(Checksum(Words(bytes, false)), false)
  {
    hide Checksum, Words;
    WordsSwap(bytes);
    ChecksumSwaps(Words(bytes, false));
  }

  lemma FourWords(ws: seq<word>)
    requires |ws| == 4
    ensures Total(ws) == (ws[0] as int) + ws[1] + ws[2] + ws[3]
  {
    var three := ws[..3];
    var two := three[..2];
    var one := two[..1];
    assert Total(ws) == Total(three) + ws[3] && Total(three) == Total(two) + ws[2];
    assert Total(two) == Total(one) + ws[1] && Total(one) == Total(one[..0]) + ws[0];
  }

  lemma WordsOfEight(bytes: seq<octet>, little: bool)
    requires |bytes| == 8
    ensures var ws := Words(bytes, little);
      && |ws| == 4 && ws[0] == Load(bytes[0], bytes[1], little) && ws[1] == Load(bytes[2], bytes[3], little)
      && ws[2] == Load(bytes[4], bytes[5], little) && ws[3] == Load(bytes[6], bytes[7], little)
  {
    WordAt(bytes, little, 0);
    WordAt(bytes, little, 1);
    WordAt(bytes, little, 2);
    WordAt(bytes, little, 3);
    hide Words, Load;
  }

  const EXAMPLE: seq<octet> := [0x00, 0x01, 0xf2, 0x03, 0xf4, 0xf5, 0xf6, 0xf7]

  /** The bytes in section 3 of RFC 1071, whose sum is ddf2, or f2dd with the bytes of each word swapped. */
  lemma NumericalExample(little: bool)
    ensures Checksum(Words(EXAMPLE, little)) == 0xffff - if little then 0xf2dd else 0xddf2
  {
    WordsOfEight(EXAMPLE, little);
    FourWords(Words(EXAMPLE, little));
    hide Words, Total;
  }

  /** `bytes` with `w` stored at the even offset `2 * k`. */
  function Poke(bytes: seq<octet>, k: nat, w: word, little: bool): seq<octet>
    requires 2 * k + 1 < |bytes|
  {
    var (a, b) := Stored(w, little);
    bytes[2 * k := a][2 * k + 1 := b]
  }

  lemma PokeIsUpdate(bytes: seq<octet>, k: nat, w: word, little: bool)
    requires 2 * k + 1 < |bytes|
    ensures Words(Poke(bytes, k, w, little), little) == Words(bytes, little)[k := w]
  {
    var after := Poke(bytes, k, w, little);
    forall j | 0 <= j < (|bytes| + 1) / 2 ensures Words(after, little)[j] == Words(bytes, little)[k := w][j] {
      WordAt(after, little, j);
      WordAt(bytes, little, j);
    }
  }

  /**
    What the receiver relies on: storing the checksum of a packet whose checksum field is zero makes its checksum 0.
   */
  lemma PacketVerifies(bytes: seq<octet>, k: nat, little: bool)
    requires |bytes| <= 131074 && 2 * k + 1 < |bytes| && bytes[2 * k] == 0 == bytes[2 * k + 1]
    ensures Checksum(Words(Poke(bytes, k, Checksum(Words(bytes, little)), little), little)) == 0
  {
    hide Checksum, Words;
    WordAt(bytes, little, k);
    PokeIsUpdate(bytes, k, Checksum(Words(bytes, little)), little);
    StoredChecksVerify(Words(bytes, little), k);
  }

  // ---------------------------------------------------------------- the routine

  /** The two folds of a 32-bit sum, truncated to 16 bits. */
  lemma FoldsToResidue(sum: u32)
    ensures var folded := sum / WORD + sum % WORD;
      folded + folded / WORD < WRAP && (folded + folded / WORD) % WORD == Residue(sum)
  {
    var folded := sum / WORD + sum % WORD;
    assert sum == ONES * (sum / WORD) + folded;
    if folded >= WORD {
      ResidueIs(sum, sum / WORD + 1, folded - ONES);
    } else {
      ResidueIs(sum, sum / WORD, folded);
    }
  }

  /** Adding the next word to the accumulator. */
  lemma Accumulates(ws: seq<word>, k: nat)
    requires k < |ws|
    ensures Wrapped(Wrapped(Total(ws[..k])) + ws[k]) == Wrapped(Total(ws[..k + 1]))
  {
    assert ws[..k + 1][..k] == ws[..k];
    WrapAdds(Total(ws[..k]), ws[k]);
  }

  lemma WrapAdds(a: nat, x: nat)
    ensures Wrapped(Wrapped(a) + x) == Wrapped(a + x)
  {}

  lemma NothingTotal(ws: seq<word>)
    ensures Wrapped(Total(ws[..0])) == 0 && ws[..|ws|] == ws
  {}

  /** The lines after the loop. */
  method Fold(sum0: u32) returns (answer: word)
    ensures answer == ONES - Residue(sum0)
  {
    FoldsToResidue(sum0);
    var sum: u32 := sum0 / WORD + sum0 % WORD;
    sum := sum + sum / WORD;
    answer := ONES - sum % WORD;
  }

  /** `ws` holds the words of the `len` bytes at `addr`. */
  ghost predicate AreWords(ws: seq<word>, addr: seq<octet>, len: int, little: bool)
    requires len <= |addr|
  {
    && (if len <= 0 then |ws| == 0 else len <= 2 * |ws| <= len + 1)
    && (forall k :: 0 <= k < |ws| ==>
          ws[k] == Load(addr[2 * k], if 2 * k + 1 < len then addr[2 * k + 1] else 0, little))
  }

  lemma WordsOf(addr: seq<octet>, len: int, little: bool)
    requires len <= |addr|
    ensures AreWords(Words(addr[..if len < 0 then 0 else len], little), addr, len, little)
  {
    hide Load;
    var bytes := addr[..if len < 0 then 0 else len];
    forall k | 0 <= k < |Words(bytes, little)|
      ensures Words(bytes, little)[k] == Load(addr[2 * k], if 2 * k + 1 < len then addr[2 * k + 1] else 0, little)
    {
      WordAt(bytes, little, k);
    }
  }

  /** The loop and the odd byte. */
  method AddWords(addr: seq<octet>, len: int, little: bool, ghost ws: seq<word>) returns (sum: u32)
    requires len <= |addr| && AreWords(ws, addr, len, little)
    ensures sum == Wrapped(Total(ws))
  {
    NothingTotal(ws);
    hide Total, Load, Wrapped;
    var nleft, w := len, 0;
    sum := 0;
    ghost var k := 0;
    while nleft > 1
      invariant w == 2 * k && nleft == len - w && (k == 0 || nleft >= 0)
      invariant k <= |ws| && sum == Wrapped(Total(ws[..k]))
    {
      Accumulates(ws, k);
      sum := Wrapped(sum + Load(addr[w], addr[w + 1], little));
      w, nleft, k := w + 2, nleft - 2, k + 1;
    }
    if nleft == 1 {
      Accumulates(ws, k);
      sum := Wrapped(sum + Load(addr[w], 0, little));
    }
  }

  /** `in_cksum` of the `len` bytes at `addr`; a negative length is no length. */
  method InCksum(addr: seq<octet>, len: int, little: bool) returns (answer: word)
    requires len <= |addr|
    ensures answer == Checksum(Words(addr[..if len < 0 then 0 else len], little))
  {
    ghost var ws := Words(addr[..if len < 0 then 0 else len], little);
    WordsOf(addr, len, little);
    hide Words, Total, Wrapped, Residue, AreWords;
    var sum := AddWords(addr, len, little, ws);
    answer := Fold(sum);
  }
}
