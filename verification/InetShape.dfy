/** What the text of an address looks like, told from its bytes. */
module InetShape {
  import opened Common
  import opened Numerals
  import opened InetText
  import opened InetGrammar

  // ---------------------------------------------------------------- colons and dots

  ghost predicate HasGap(s: string) { exists i :: 0 <= i < |s| - 1 && s[i] == ':' && s[i + 1] == ':' }

  lemma NumeralIsPlain(n: nat, base: int)
    requires base == 10 || base == 16
    ensures ':' !in Numeral(n, base) && '.' !in Numeral(n, base)
  {}

  /** Joined groups hold no dot, no two colons in a row, and neither start nor end with one. */
  predicate IsPlain(s: string) {
    && '.' !in s && (forall i :: 0 <= i < |s| - 1 ==> s[i] != ':' || s[i + 1] != ':')
    && (s != "" ==> s[0] != ':' && s[|s| - 1] != ':')
  }

  lemma PlainMore(a: string, b: string)
    requires IsPlain(a) && a != "" && b != "" && ':' !in b && '.' !in b
    ensures IsPlain(a + ":" + b)
  {
    var s := a + ":" + b;
    assert forall i :: 0 <= i < |s| ==> s[i] == if i < |a| then a[i] else if i == |a| then ':' else b[i - |a| - 1];
    assert forall i :: 0 <= i < |b| ==> b[i] in b;
  }

  lemma {:induction false} JoinIsPlain(w: seq<word>)
    ensures IsPlain(Join(w)) && (w != [] ==> Join(w) != "")
  {
    if w != [] {
      var n := |w| - 1;
      NumeralIsPlain(w[n], 16);
      JoinIsPlain(w[..n]);
      hide Numeral, IsPlain;
      if n == 0 {
        OneIsPlain(Join(w));
      } else {
        PlainMore(Join(w[..n]), Numeral(w[n], 16));
      }
    }
  }

  lemma OneIsPlain(s: string)
    requires ':' !in s && '.' !in s
    ensures IsPlain(s)
  {
    assert forall i :: 0 <= i < |s| ==> s[i] in s;
  }

  // ---------------------------------------------------------------- which groups are compressed

  ghost predicate TwoZeroGroups(w: seq<word>) { exists k :: 0 <= k < |w| - 1 && w[k] == 0 && w[k + 1] == 0 }

  lemma RunOfTwo(w: seq<word>, k: nat)
    requires k < |w|
    ensures RunAt(w, k) >= 2 <==> k + 1 < |w| && w[k] == 0 && w[k + 1] == 0
  {}

  lemma LongestIsTwo(w: seq<word>)
    requires |w| == 8
    ensures RunAt(w, LeftmostLongest(w)) >= 2 <==> TwoZeroGroups(w)
  {
    hide RunAt;
    var base := LeftmostLongest(w);
    RunOfTwo(w, base);
    if k :| 0 <= k < |w| - 1 && w[k] == 0 && w[k + 1] == 0 {
      RunOfTwo(w, k);
    }
  }

  lemma GapInText(a: string, b: string)
    ensures HasGap(a + "::" + b)
  {
    var s := a + "::" + b;
    assert s[|a|] == ':' && s[|a| + 1] == ':';
  }

  lemma CompressedHasGap(b: Address, base: nat, len: nat)
    requires base + len <= 8
    ensures HasGap(Compressed(b, base, len))
  {
    hide Words, Join, QuadText, HasGap;
    var w := Words(b);
    if EmbedsIPv4(w, base, len) {
      var group := if len == 5 then Join([w[5]]) + ":" else "";
      GapInText("", group + QuadText(b[12..]));
      assert "" + "::" + (group + QuadText(b[12..])) == "::" + group + QuadText(b[12..]);
    } else {
      GapInText(Join(w[..base]), Join(w[base + len..]));
    }
  }

  /** The printer writes `::` exactly when two neighbouring groups are zero. */
  lemma GapExactly(b: Address)
    ensures HasGap(Ntop6(b)) <==> TwoZeroGroups(Words(b))
  {
    var w := Words(b);
    var base := LeftmostLongest(w);
    hide Words, Join, HasGap, TwoZeroGroups, Compressed, RunAt;
    LongestIsTwo(w);
    if RunAt(w, base) < 2 {
      JoinIsPlain(w);
      PlainHasNoGap(Join(w));
    } else {
      CompressedHasGap(b, base, RunAt(w, base));
    }
  }

  lemma PlainHasNoGap(s: string)
    requires IsPlain(s)
    ensures !HasGap(s)
  {}

  // ---------------------------------------------------------------- which texts end in a dotted quad

  lemma DotAtMost(a: string, b: string)
    ensures '.' in a + b <==> '.' in a || '.' in b
  {}

  lemma CompressedDots(b: Address, base: nat, len: nat)
    requires base + len <= 8
    ensures '.' in Compressed(b, base, len) <==> EmbedsIPv4(Words(b), base, len)
  {
    hide Words, Join, EmbedsIPv4;
    var w := Words(b);
    if EmbedsIPv4(w, base, len) {
      var group := if len == 5 then Join([w[5]]) + ":" else "";
      QuadHasDot(b[12..]);
      hide QuadText;
      DotAtMost("::" + group, QuadText(b[12..]));
    } else {
      JoinIsPlain(w[..base]);
      JoinIsPlain(w[base + len..]);
      DotAtMost(Join(w[..base]) + "::", Join(w[base + len..]));
      DotAtMost(Join(w[..base]), "::");
      assert '.' !in "::";
    }
  }

  lemma QuadHasDot(b: Quad)
    ensures '.' in QuadText(b)
  {
    hide Numeral;
    var a := Numeral(b[0], 10);
    assert QuadText(b)[|a|] == '.';
  }

  /** The first ten bytes are zero, and the next two are 0xff, or zero with something after them. */
  predicate EmbedsQuad(b: Address) {
    && (forall k :: 0 <= k < 10 ==> b[k] == 0)
    && ((b[10] == 0xff && b[11] == 0xff) || (b[10] == 0 && b[11] == 0 && !(b[12] == 0 && b[13] == 0)))
  }

  /** The same, in groups. */
  predicate EmbedsWords(w: seq<word>)
    requires |w| == 8
  {
    (forall k :: 0 <= k < 5 ==> w[k] == 0) && (w[5] == 0xffff || (w[5] == 0 && w[6] != 0))
  }

  lemma EmbedsQuadWords(b: Address)
    ensures EmbedsQuad(b) <==> EmbedsWords(Words(b))
  {
    var w := Words(b);
    assert w[0] == BigEndian(b, 0) && w[1] == BigEndian(b, 1) && w[2] == BigEndian(b, 2) && w[3] == BigEndian(b, 3);
    assert w[4] == BigEndian(b, 4) && w[5] == BigEndian(b, 5) && w[6] == BigEndian(b, 6);
  }

  /** The run of zero groups in front, where the quad is embedded. */
  lemma RunInFront(w: seq<word>)
    requires |w| == 8
    ensures EmbedsIPv4(w, LeftmostLongest(w), RunAt(w, LeftmostLongest(w))) <==> EmbedsWords(w)
  {
    var base := LeftmostLongest(w);
    if EmbedsWords(w) {
      var n := if w[5] == 0 then 6 else 5;
      RunOf(w, n);
      if base > 0 {
        LongRunLater(w, base);
      }
    }
  }

  lemma RunOf(w: seq<word>, n: nat)
    requires n < |w| && (forall k :: 0 <= k < n ==> w[k] == 0) && w[n] != 0
    ensures RunAt(w, 0) == n
  {
    var m := RunAt(w, 0);
    if m < n {
      assert false;
    }
  }

  lemma LongRunLater(w: seq<word>, base: nat)
    requires |w| == 8 && EmbedsWords(w) && 0 < base < 8
    ensures RunAt(w, base) < RunAt(w, 0)
  {
    var n := if w[5] == 0 then 6 else 5;
    RunOf(w, n);
    var m := RunAt(w, base);
    assert base <= n ==> base + m <= n;
  }

  lemma FourFs()
    ensures Join([0xffff]) == "ffff"
  {
    assert Numeral(0xfff, 16) == Numeral(0xff, 16) + "f" && Numeral(0xff, 16) == Numeral(0xf, 16) + "f";
    assert Numeral(0xffff, 16) == Numeral(0xfff, 16) + "f" && Numeral(0xf, 16) == "f";
  }

  /** What is printed of an address that embeds a quad. */
  lemma EmbeddedText(b: Address, len: nat)
    requires len == RunAt(Words(b), 0) && EmbedsIPv4(Words(b), 0, len)
    ensures Compressed(b, 0, len) == (if b[10] == 0xff then "::ffff:" else "::") + QuadText(b[12..])
  {
    FourFs();
    hide Join, QuadText;
    var quad := QuadText(b[12..]);
    assert Words(b)[5] == BigEndian(b, 5);
    if len == 5 {
      assert "::" + ("ffff" + ":") == "::ffff:";
    } else {
      assert "::" + "" == "::";
    }
  }

  /**
    The text has a dot exactly for the addresses `::a.b.c.d`, where a.b is not 0.0, and `::ffff:a.b.c.d`, and then it is
    that.
   */
  lemma QuadEndsExactly(b: Address)
    ensures '.' in Ntop6(b) <==> EmbedsQuad(b)
    ensures EmbedsQuad(b) ==> Ntop6(b) == (if b[10] == 0xff then "::ffff:" else "::") + QuadText(b[12..])
  {
    var w := Words(b);
    var base := LeftmostLongest(w);
    EmbedsQuadWords(b);
    RunInFront(w);
    assert RunAt(w, base) < 2 ==> !EmbedsIPv4(w, base, RunAt(w, base));
    assert EmbedsIPv4(w, base, RunAt(w, base)) ==> base == 0;
    hide Words, Join, Compressed, RunAt, EmbedsIPv4, EmbedsQuad, EmbedsWords, QuadText;
    if RunAt(w, base) < 2 {
      JoinIsPlain(w);
    } else {
      CompressedDots(b, base, RunAt(w, base));
      if EmbedsQuad(b) {
        EmbeddedText(b, RunAt(w, base));
      }
    }
  }

  // ---------------------------------------------------------------- two addresses

  lemma OneToFour()
    ensures Numeral(1, 10) == "1" && Numeral(2, 10) == "2" && Numeral(3, 10) == "3" && Numeral(4, 10) == "4"
  {}

  /** The octets of an IPv4 address are written and read from left to right. */
  lemma QuadInOrder()
    ensures QuadText([1, 2, 3, 4]) == "1.2.3.4" && Pton4("1.2.3.4") == Some([1, 2, 3, 4])
  {
    OneToFour();
    assert "1" + "." + ("2" + "." + ("3" + "." + "4")) == "1.2.3.4";
    RoundTrip4([1, 2, 3, 4]);
  }
}
