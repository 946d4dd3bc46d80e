/** The address printers as the C code runs them, over byte and character buffers. */
module InetPrint {
  import opened Common
  import opened Numerals
  import opened InetText

  const NUL := '\0'

  /** The size of the text buffer: the longest spelling of section 2.2 of RFC 1884 and its NUL. */
  const TMPSZ := 46

  // ---------------------------------------------------------------- lengths

  lemma OctetLength(n: octet)
    ensures |Numeral(n, 10)| <= 3
  {
    assert Power(10, 0) == 1 && Power(10, 1) == 10 && Power(10, 2) == 100 && Power(10, 3) == 1000;
    NumeralLength(n, 10, 3);
  }

  lemma GroupLength(n: word)
    ensures |Numeral(n, 16)| <= 4
  {
    assert Power(16, 0) == 1 && Power(16, 1) == 16 && Power(16, 2) == 256 && Power(16, 3) == 4096
      && Power(16, 4) == 65536;
    NumeralLength(n, 16, 4);
  }

  lemma QuadLength(b: Quad)
    ensures |QuadText(b)| <= 15
  {
    OctetLength(b[0]);
    OctetLength(b[1]);
    OctetLength(b[2]);
    OctetLength(b[3]);
  }

  lemma {:induction false} JoinLength(w: seq<word>)
    ensures |Join(w)| <= if w == [] then 0 else 5 * |w| - 1
  {
    if w != [] {
      GroupLength(w[|w| - 1]);
      JoinLength(w[..|w| - 1]);
    }
  }

  /** No address takes more than 39 characters. */
  lemma TextLength(b: Address)
    ensures |Ntop6(b)| <= 39
  {
    hide Join, QuadText, RunAt, LeftmostLongest;
    var w := Words(b);
    var base := LeftmostLongest(w);
    var len := RunAt(w, base);
    JoinLength(w);
    JoinLength(w[..base]);
    JoinLength(w[base + len..]);
    JoinLength([w[5]]);
    QuadLength(b[12..]);
  }

  /** No character but hexadecimal digits, colons and dots. */
  predicate IsTextual(s: string) { forall k :: 0 <= k < |s| ==> IsHex(s[k]) || s[k] == ':' || s[k] == '.' }

  lemma {:induction false} JoinIsTextual(w: seq<word>)
    ensures IsTextual(Join(w))
  {
    if |w| > 1 {
      JoinIsTextual(w[..|w| - 1]);
    }
  }

  lemma TextualJoin(a: string, b: string)
    requires IsTextual(a) && IsTextual(b)
    ensures IsTextual(a + b)
  {}

  lemma QuadIsTextual(b: Quad)
    ensures IsTextual(QuadText(b)) && IsTextual("::") && IsTextual(":") && IsTextual("")
  {}

  lemma EmbeddedIsTextual(group: string, quad: Quad)
    requires IsTextual(group)
    ensures IsTextual("::" + (group + ":") + QuadText(quad)) && IsTextual("::" + "" + QuadText(quad))
  {
    hide IsTextual, QuadText;
    QuadIsTextual(quad);
    TextualJoin(group, ":");
    TextualJoin("::", group + ":");
    TextualJoin("::" + (group + ":"), QuadText(quad));
    TextualJoin("::", "");
    TextualJoin("::" + "", QuadText(quad));
  }

  lemma GapIsTextual(left: string, right: string)
    requires IsTextual(left) && IsTextual(right)
    ensures IsTextual(left + "::" + right)
  {}

  /** A text holds no NUL, so as a C string it ends where the printer ended it. */
  lemma TextHasNoNul(b: Address)
    ensures IsTextual(Ntop6(b)) && NUL !in Ntop6(b)
  {
    hide Words, IsTextual, QuadText, Join, EmbedsIPv4;
    var w := Words(b);
    var base := LeftmostLongest(w);
    var len := RunAt(w, base);
    JoinIsTextual(w);
    JoinIsTextual(w[..base]);
    JoinIsTextual(w[base + len..]);
    JoinIsTextual([w[5]]);
    EmbeddedIsTextual(Join([w[5]]), b[12..]);
    GapIsTextual(Join(w[..base]), Join(w[base + len..]));
    NoNul(Ntop6(b));
  }

  lemma NoNul(s: string)
    requires IsTextual(s)
    ensures NUL !in s
  {}

  // ---------------------------------------------------------------- the text so far

  /** What the formatting loop has written before group `i`; `base` is -1 when nothing is compressed. */
  function Partial(w: seq<word>, base: int, len: nat, i: nat): string
    requires i <= |w| && -1 <= base && base + len <= |w|
  {
    if base == -1 || i <= base then Join(w[..i])
    else if i <= base + len then Join(w[..base]) + ":"
    else Join(w[..base]) + "::" + Join(w[base + len..i])
  }

  /** What one turn of the formatting loop appends. */
  function Piece(w: seq<word>, base: int, len: nat, i: nat): string
    requires i < |w|
  {
    if base != -1 && base <= i < base + len then (if i == base then ":" else "")
    else (if i != 0 then ":" else "") + Numeral(w[i], 16)
  }

  lemma JoinSnoc(w: seq<word>, i: nat)
    requires i < |w|
    ensures Join(w[..i + 1]) == Join(w[..i]) + ((if i != 0 then ":" else "") + Numeral(w[i], 16))
  {
    assert w[..i + 1][..i] == w[..i];
  }

  lemma NothingYet(w: seq<word>, base: int, len: nat)
    requires -1 <= base && base + len <= |w|
    ensures Partial(w, base, len, 0) == ""
  {
    assert w[..0] == [];
  }

  lemma PartialStep(w: seq<word>, base: int, len: nat, i: nat)
    requires i < |w| && -1 <= base && base + len <= |w| && (base >= 0 ==> len >= 1)
    ensures Partial(w, base, len, i + 1) == Partial(w, base, len, i) + Piece(w, base, len, i)
  {
    hide Join, Numeral;
    if base == -1 || i < base {
      JoinSnoc(w, i);
      hide *;
    } else if i >= base + len {
      AfterRun(Join(w[..base]), w, base + len, i);
    } else {
      assert Partial(w, base, len, i + 1) == Join(w[..base]) + ":";
      assert i > base ==> Join(w[..base]) + ":" == Join(w[..base]) + ":" + "";
    }
  }

  lemma AfterRun(head: string, w: seq<word>, start: nat, i: nat)
    requires start <= i < |w|
    ensures head + "::" + Join(w[start..i + 1])
         == (if i == start then head + ":" else head + "::" + Join(w[start..i])) + (":" + Numeral(w[i], 16))
  {
    var v := w[start..];
    assert v[..i - start] == w[start..i] && v[..i + 1 - start] == w[start..i + 1];
    JoinSnoc(v, i - start);
    if i == start {
      assert w[start..i] == [];
      assert head + "::" == head + ":" + ":";
    }
  }

  lemma PartialLength(w: seq<word>, base: int, len: nat, i: nat)
    requires i <= |w| && -1 <= base && base + len <= |w| && (base >= 0 ==> len >= 1)
    ensures |Partial(w, base, len, i)| <= 5 * i
  {
    if base == -1 || i <= base {
      JoinLength(w[..i]);
    } else {
      JoinLength(w[..base]);
      if i > base + len {
        JoinLength(w[base + len..i]);
      }
    }
  }

  // ---------------------------------------------------------------- the printers

  /** `sprintf` or `strcpy` of a text into a buffer, with its NUL. */
  method Put(tmp: array<char>, tp: nat, text: string)
    requires tp + |text| < tmp.Length
    modifies tmp
    ensures tmp[..tp + |text|] == old(tmp[..tp]) + text
    ensures tmp[tp + |text|] == NUL
    ensures forall k :: tp + |text| < k < tmp.Length ==> tmp[k] == old(tmp[k])
  {
    forall k | 0 <= k < |text| {
      tmp[tp + k] := text[k];
    }
    tmp[tp + |text|] := NUL;
  }

  /**
    What `inet_ntop4` makes of a buffer when it is given the `size` characters from `at` on. The check compares the size
    with the length without the NUL, so that a text of exactly `size` characters puts its NUL one past them.
   */
  function Ntop4(b: Quad, was: seq<char>, at: nat, size: nat): seq<char>
    requires at + size <= |was| && (|QuadText(b)| == size ==> at + size < |was|)
  {
    var text := QuadText(b);
    if |text| > size then was else was[..at] + text + [NUL] + was[at + |text| + 1..]
  }

  /**
    Nothing past the size given changes exactly when the text is shorter or longer than that, or a NUL is there
    already.
   */
  lemma StaysInsideExactly(b: Quad, was: seq<char>, at: nat, size: nat)
    requires at + size <= |was| && (|QuadText(b)| == size ==> at + size < |was|)
    ensures |Ntop4(b, was, at, size)| == |was|
    ensures Ntop4(b, was, at, size)[at + size..] == was[at + size..] <==> |QuadText(b)| != size || was[at + size] == NUL
  {
    hide QuadText;
    var text, now := QuadText(b), Ntop4(b, was, at, size);
    if |text| <= size {
      assert now[at + |text|] == NUL;
      assert forall k :: at + |text| < k < |was| ==> now[k] == was[k];
      assert |text| == size ==> now[at + size..][0] == NUL && was[at + size..][0] == was[at + size];
    }
  }

  /** A text of seven characters in a buffer said to have seven: the eighth is overwritten. */
  lemma NulCanOverrun()
    ensures QuadText([0, 0, 0, 0]) == "0.0.0.0" && Ntop4([0, 0, 0, 0], "xxxxxxxx", 0, 7) == "0.0.0.0" + [NUL]
  {
    assert "0" + "." + ("0" + "." + ("0" + "." + "0")) == "0.0.0.0";
    assert "xxxxxxxx"[..0] + "0.0.0.0" + [NUL] + "xxxxxxxx"[8..] == "0.0.0.0" + [NUL];
  }

  /** `inet_ntop4`, into the `size` characters from `at` on and, if the NUL needs it, one more. */
  method InetNtop4(src: array<octet>, from: nat, dst: array<char>, at: nat, size: nat) returns (ok: bool)
    requires from + INADDRSZ <= src.Length && at + size <= dst.Length
    requires |QuadText(src[from..from + INADDRSZ])| == size ==> at + size < dst.Length
    modifies dst
    ensures var b := src[from..from + INADDRSZ];
      && |QuadText(b)| <= 15 && ok == (|QuadText(b)| <= size)
      && dst[..] == Ntop4(b, old(dst[..]), at, size)
  {
    ghost var was := dst[..];
    var text := Numeral(src[from], 10) + "." + (Numeral(src[from + 1], 10) + "."
              + (Numeral(src[from + 2], 10) + "." + Numeral(src[from + 3], 10)));
    assert text == QuadText(src[from..from + INADDRSZ]);
    QuadLength(src[from..from + INADDRSZ]);
    hide QuadText, Numeral;
    var tmp := new char[16];
    Put(tmp, 0, text);
    if |text| > size {
      return false;
    }
    Put(dst, at, text);
    assert dst[..] == dst[..at + |text|] + [dst[at + |text|]] + dst[at + |text| + 1..];
    assert dst[at + |text| + 1..] == was[at + |text| + 1..];
    return true;
  }

  /** The copy of the bytes into 16-bit groups. */
  method ToWords(src: array<octet>) returns (words: array<word>)
    requires src.Length == IN6ADDRSZ
    ensures fresh(words) && words[..] == Words(src[..])
  {
    words := new word[8](_ => 0);
    for i := 0 to IN6ADDRSZ
      invariant forall k :: 0 <= k < 8 && 2 * k + 1 < i ==> words[k] == BigEndian(src[..], k)
      invariant i % 2 == 1 ==> words[i / 2] == 256 * (src[i - 1] as int)
      invariant forall k :: 0 <= k < 8 && i <= 2 * k ==> words[k] == 0
    {
      // The two shifted bytes share no bit, so `|=` adds.
      if i % 2 == 0 {
        words[i / 2] := 256 * (src[i] as int);
      } else {
        words[i / 2] := words[i / 2] + src[i];
      }
    }
  }

  lemma {:induction false} RunIs(w: seq<word>, i: nat, n: nat)
    requires i + n <= |w| && (forall k :: i <= k < i + n ==> w[k] == 0)
    requires i + n < |w| ==> w[i + n] != 0
    ensures RunAt(w, i) == n
    decreases n
  {
    if n > 0 {
      RunIs(w, i + 1, n - 1);
    }
  }

  /** A start and a length of a run, -1 standing for no run. */
  datatype Run = Run(base: int, len: int)

  /** `best` is the leftmost longest run among those that start before `n`. */
  ghost predicate BestBelow(w: seq<word>, best: Run, n: nat)
    requires n <= |w|
  {
    if best.base == -1 then forall j :: 0 <= j < n ==> RunAt(w, j) == 0
    else
      && 0 <= best.base < n && best.len == RunAt(w, best.base) && best.len >= 1
      && (forall j :: 0 <= j < best.base ==> RunAt(w, j) < best.len)
      && (forall j :: best.base < j < n ==> RunAt(w, j) <= best.len)
  }

  function Longer(best: Run, cur: Run): Run {
    if best.base == -1 || cur.len > best.len then cur else best
  }

  /** Comparing the run that just ended with the best so far. */
  lemma RunEnded(w: seq<word>, best: Run, cur: Run, i: nat)
    requires 0 <= cur.base < i <= |w| && cur.len == i - cur.base
    requires forall k :: cur.base <= k < i ==> w[k] == 0
    requires i < |w| ==> w[i] != 0
    requires BestBelow(w, best, cur.base)
    ensures BestBelow(w, Longer(best, cur), i)
  {
    forall j | cur.base <= j < i
      ensures RunAt(w, j) == i - j
    {
      RunIs(w, j, i - j);
    }
  }

  lemma NonZeroKeepsBest(w: seq<word>, best: Run, i: nat)
    requires i < |w| && w[i] != 0 && BestBelow(w, best, i)
    ensures BestBelow(w, best, i + 1)
  {
    RunIs(w, i, 0);
  }

  /** With every start compared, the best run is the leftmost longest one. */
  lemma BestIsLeftmostLongest(w: seq<word>, best: Run)
    requires w != [] && BestBelow(w, best, |w|)
    ensures if best.base == -1 then RunAt(w, LeftmostLongest(w)) == 0
            else best == Run(LeftmostLongest(w), RunAt(w, LeftmostLongest(w)))
  {
  }

  ghost predicate IsChoice(w: seq<word>, best: Run)
    requires |w| == 8
  {
    var base := LeftmostLongest(w);
    if RunAt(w, base) < 2 then best.base == -1 else best == Run(base, RunAt(w, base))
  }

  /** The search for the run of zero groups to compress. */
  method LongestZeroRun(words: array<word>) returns (best: Run)
    requires words.Length == 8
    ensures IsChoice(words[..], best)
  {
    best := Run(-1, 0);
    var cur := Run(-1, 0);
    var i := 0;
    ghost var w := words[..];
    while i < 8
      invariant 0 <= i <= 8 && -1 <= cur.base < i
      invariant cur.base >= 0 ==> cur.len == i - cur.base && forall k :: cur.base <= k < i ==> w[k] == 0
      invariant BestBelow(w, best, if cur.base == -1 then i else cur.base)
    {
      if words[i] == 0 {
        if cur.base == -1 {
          cur := Run(i, 1);
        } else {
          cur := cur.(len := cur.len + 1);
        }
      } else {
        if cur.base != -1 {
          RunEnded(w, best, cur, i);
          best := Longer(best, cur);
          cur := cur.(base := -1);
        }
        NonZeroKeepsBest(w, best, i);
      }
      i := i + 1;
    }
    if cur.base != -1 {
      RunEnded(w, best, cur, 8);
      best := Longer(best, cur);
    }
    BestIsLeftmostLongest(w, best);
    if best.base != -1 && best.len < 2 {
      best := best.(base := -1);
    }
  }

  /** The text the formatting loop and what follows it leave in the buffer. */
  lemma WholeText(b: Address, base: nat, len: nat)
    requires 2 <= len && base + len <= 8
    ensures EmbedsIPv4(Words(b), base, len) ==>
      Compressed(b, base, len) == Partial(Words(b), base, len, 6) + ":" + QuadText(b[12..])
    ensures !EmbedsIPv4(Words(b), base, len) ==>
      Compressed(b, base, len) == Partial(Words(b), base, len, 8) + (if base + len == 8 then ":" else "")
  {
    var w := Words(b);
    if EmbedsIPv4(w, base, len) {
      assert w[..0] == [] && "" + ":" == ":" && "" + "::" == "::";
      if len == 5 {
        assert w[5..6] == [w[5]];
        var g, q := Join([w[5]]), QuadText(b[12..]);
        assert "::" + (g + ":") + q == "::" + g + ":" + q;
      } else {
        assert "::" + "" == ":" + ":";
      }
    } else if base + len == 8 {
      assert w[8..] == [];
      var head := Join(w[..base]);
      assert head + "::" + "" == head + ":" + ":";
    } else {
      assert w[base + len..8] == w[base + len..];
    }
  }

  /** One turn of the formatting loop. */
  method FormatTurn(words: array<word>, best: Run, i: nat, tmp: array<char>, start: nat) returns (tp: nat)
    requires words.Length == 8 && i < 8 && tmp.Length == TMPSZ && start <= 5 * i
    requires best.base == -1 || best.len >= 0
    modifies tmp
    ensures var piece := Piece(words[..], best.base, if best.base == -1 then 0 else best.len, i);
      tp == start + |piece| && tp < tmp.Length && tmp[..tp] == old(tmp[..start]) + piece
  {
    tp := start;
    if best.base != -1 && i >= best.base && i < best.base + best.len {
      if i == best.base {
        Put(tmp, tp, ":");
        tp := tp + 1;
      }
    } else {
      if i != 0 {
        Put(tmp, tp, ":");
        tp := tp + 1;
      }
      GroupLength(words[i]);
      Put(tmp, tp, Numeral(words[i], 16));
      tp := tp + |Numeral(words[i], 16)|;
    }
  }

  /** The turn that ends the loop with a dotted quad. */
  method FormatQuad(src: array<octet>, tmp: array<char>, start: nat) returns (tp: nat)
    requires src.Length == IN6ADDRSZ && tmp.Length == TMPSZ && start <= 29
    modifies tmp
    ensures tp <= start + 16 && tmp[..tp] == old(tmp[..start]) + ":" + QuadText(src[12..16])
  {
    Put(tmp, start, ":");
    QuadLength(src[12..16]);
    var ok := InetNtop4(src, 12, tmp, start + 1, TMPSZ - (start + 1));
    assert ok;
    tp := start + 1 + |QuadText(src[12..16])|;
  }

  /** What the formatting loop and the colon of a trailing run write, `quad` being the text of the last four bytes. */
  function Formatted(w: seq<word>, best: Run, quad: string): string
    requires |w| == 8 && IsRun(best)
  {
    if best.base == -1 then Partial(w, -1, 0, 8)
    else if EmbedsIPv4(w, best.base, best.len) then Partial(w, best.base, best.len, 6) + ":" + quad
    else Partial(w, best.base, best.len, 8) + (if best.base + best.len == 8 then ":" else "")
  }

  predicate IsRun(best: Run) { best.base == -1 || (0 <= best.base && 2 <= best.len && best.base + best.len <= 8) }

  /** With the run the search chose, that is the text of the address. */
  lemma FormattedText(b: Address, best: Run)
    requires IsChoice(Words(b), best)
    ensures IsRun(best) && Formatted(Words(b), best, QuadText(b[12..16])) == Ntop6(b)
  {
    assert b[12..16] == b[12..];
    if best.base == -1 {
      assert Words(b)[..8] == Words(b);
    } else {
      WholeText(b, best.base, best.len);
    }
  }

  /** The formatting loop of `inet_ntop6` and the colon of a trailing run. */
  method Format(src: array<octet>, words: array<word>, best: Run, tmp: array<char>) returns (tp: nat)
    requires src.Length == IN6ADDRSZ && words.Length == 8 && tmp.Length == TMPSZ && IsRun(best)
    modifies tmp
    ensures tp < TMPSZ && tmp[..tp] == Formatted(words[..], best, QuadText(src[12..16]))
  {
    hide Join, Numeral, QuadText, Piece;
    tp := 0;
    ghost var w := words[..];
    ghost var len: nat := if best.base == -1 then 0 else best.len;
    var i := 0;
    NothingYet(w, best.base, len);
    while i < 8
      invariant 0 <= i <= 8 && words[..] == w
      invariant i <= 6 || best.base == -1 || !EmbedsIPv4(w, best.base, len)
      invariant 0 <= tp <= 5 * i && tmp[..tp] == Partial(w, best.base, len, i)
    {
      // The C code writes the colon first and asks this afterwards.
      if i == 6 && best.base == 0 && (best.len == 6 || (best.len == 5 && words[5] == 0xffff)) {
        PartialOfSix(w, len);
        tp := FormatQuad(src, tmp, tp);
        return;
      }
      PartialStep(w, best.base, len, i);
      PartialLength(w, best.base, len, i + 1);
      tp := FormatTurn(words, best, i, tmp, tp);
      i := i + 1;
    }
    if best.base != -1 && best.base + best.len == 8 {
      Put(tmp, tp, ":");
      tp := tp + 1;
    }
  }

  lemma PartialOfSix(w: seq<word>, len: nat)
    requires |w| == 8 && 5 <= len <= 6
    ensures |Partial(w, 0, len, 6)| <= 6
  {
    assert w[..0] == [];
    JoinLength(w[len..6]);
  }

  /** The overflow check at the end of `inet_ntop6` and the copy to the caller. */
  method CopyOut(tmp: array<char>, tp: nat, dst: array<char>) returns (ok: bool)
    requires tp <= tmp.Length && tmp != dst
    modifies dst
    ensures ok == (tp <= dst.Length)
    ensures dst[..] == if ok then tmp[..tp] + old(dst[tp..]) else old(dst[..])
  {
    if tp > dst.Length {
      return false;
    }
    forall k | 0 <= k < tp {
      dst[k] := tmp[k];
    }
    return true;
  }

  /** `inet_ntop6`, `dst.Length` being the caller's `size`: the text and its NUL, or `dst` untouched. */
  method InetNtop6(src: array<octet>, dst: array<char>) returns (ok: bool)
    requires src.Length == IN6ADDRSZ
    modifies dst
    ensures var text := Ntop6(src[..]);
      && ok == (|text| + 1 <= dst.Length)
      && dst[..] == if ok then text + [NUL] + old(dst[|text| + 1..]) else old(dst[..])
  {
    hide Formatted, Ntop6, IsChoice, QuadText, Words;
    var words := ToWords(src);
    var best := LongestZeroRun(words);
    FormattedText(src[..], best);
    assert src[..][12..16] == src[12..16];
    var tmp := new char[TMPSZ];
    var tp := Format(src, words, best, tmp);
    ghost var text := tmp[..tp];
    tmp[tp] := NUL;
    assert tmp[..tp + 1] == text + [NUL];
    ok := CopyOut(tmp, tp + 1, dst);
  }
}
