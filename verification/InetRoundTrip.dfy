/**
  Printing an IPv6 address and parsing the text gives the address back, and
  no text is longer than 39 characters.
 */
module InetRoundTrip {
  import opened Common
  import opened Numerals
  import opened InetText
  import opened InetGrammar
  import opened InetGrammar6

  /** The bytes of a sequence of groups. */
  function Flat(w: seq<word>): (b: seq<octet>)
    ensures |b| == 2 * |w|
  {
    if w == [] then [] else WordBytes(w[0]) + Flat(w[1..])
  }

  lemma {:induction false} FlatSplit(w: seq<word>, k: nat)
    requires k <= |w|
    ensures Flat(w) == Flat(w[..k]) + Flat(w[k..])
  {
    if k == 0 {
      assert w[..0] == [] && w[0..] == w;
    } else {
      FlatSplit(w[1..], k - 1);
      assert w[..k][1..] == w[1..][..k - 1] && w[1..][k - 1..] == w[k..];
    }
  }

  lemma {:induction false} FlatWords(b: Address, i: nat)
    requires i <= 8
    ensures Flat(Words(b)[i..]) == b[2 * i..]
    decreases 8 - i
  {
    hide Words, Flat, WordBytes;
    if i < 8 {
      FlatWords(b, i + 1);
      FlatNext(Words(b), i);
      WordBytesAt(b, i);
      assert b[2 * i..] == b[2 * i..2 * i + 2] + b[2 * i + 2..];
    }
  }

  lemma FlatNext(w: seq<word>, i: nat)
    requires i < |w|
    ensures Flat(w[i..]) == WordBytes(w[i]) + Flat(w[i + 1..])
  {
    assert w[i..][1..] == w[i + 1..];
  }

  lemma WordBytesAt(b: Address, i: nat)
    requires i < 8
    ensures WordBytes(Words(b)[i]) == b[2 * i..2 * i + 2]
  {
    assert Words(b)[i] == BigEndian(b, i);
  }

  lemma {:induction false} FlatZeros(w: seq<word>)
    requires forall k :: 0 <= k < |w| ==> w[k] == 0
    ensures Flat(w) == Zeros(2 * |w|)
  {
    if w != [] {
      FlatZeros(w[1..]);
    }
  }

  /** The printed groups, one string each. */
  function Groups(w: seq<word>): (gs: seq<string>)
    ensures |gs| == |w|
  {
    if w == [] then [] else Groups(w[..|w| - 1]) + [Numeral(w[|w| - 1], 16)]
  }

  lemma GroupIsGroup(x: word)
    ensures IsGroup(Numeral(x, 16)) && Value(Numeral(x, 16), 16) == x
  {
    ValueOfNumeral(x, 16);
  }

  lemma {:induction false} GroupBytesSnoc(gs: seq<string>, g: string)
    requires AllGroups(gs) && IsGroup(g)
    ensures AllGroups(gs + [g])
    ensures GroupBytes(gs + [g]) == GroupBytes(gs) + WordBytes(Value(g, 16))
  {
    if gs != [] {
      GroupBytesSnoc(gs[1..], g);
      assert (gs + [g])[1..] == gs[1..] + [g];
    } else {
      assert gs + [g] == [g] && [g][1..] == [];
    }
  }

  lemma {:induction false} ColonEachSnoc(gs: seq<string>, g: string)
    ensures ColonEach(gs + [g]) == ColonEach(gs) + (g + ":")
  {
    if gs != [] {
      ColonEachSnoc(gs[1..], g);
      assert (gs + [g])[1..] == gs[1..] + [g];
    } else {
      assert gs + [g] == [g] && [g][1..] == [];
      assert ":" + "" == ":";
    }
  }

  lemma {:induction false} GroupsDenote(w: seq<word>)
    ensures AllGroups(Groups(w)) && GroupBytes(Groups(w)) == Flat(w)
  {
    if w != [] {
      var last := |w| - 1;
      GroupsDenote(w[..last]);
      GroupIsGroup(w[last]);
      GroupBytesSnoc(Groups(w[..last]), Numeral(w[last], 16));
      FlatSplit(w, last);
      assert w[last..] == [w[last]] && [w[last]][1..] == [];
      assert Flat(w[last..]) == WordBytes(w[last]);
    }
  }

  /** Joined groups: each but the last followed by a colon. */
  lemma {:induction false} JoinIsColonEach(w: seq<word>)
    requires w != []
    ensures Join(w) == ColonEach(Groups(w[..|w| - 1])) + Numeral(w[|w| - 1], 16)
    ensures Join(w) + ":" == ColonEach(Groups(w))
  {
    var last := |w| - 1;
    var init, g := w[..last], Numeral(w[last], 16);
    if last == 0 {
      assert init == [] && Groups([]) == [] && ColonEach([]) == "";
      assert "" + g == g;
    } else {
      JoinIsColonEach(init);
    }
    ColonEachSnoc(Groups(init), g);
    assert ColonEach(Groups(init)) + (g + ":") == ColonEach(Groups(init)) + g + ":";
  }

  /** The form of joined groups: colons after all but the last. */
  function TailOf(w: seq<word>): Tail {
    if w == [] then NoTail else GroupTail(Numeral(w[|w| - 1], 16))
  }

  function InitOf(w: seq<word>): seq<string> {
    if w == [] then [] else Groups(w[..|w| - 1])
  }

  lemma JoinDenotes(w: seq<word>)
    ensures AllGroups(InitOf(w)) && IsTail(TailOf(w))
    ensures ColonEach(InitOf(w)) + TailText(TailOf(w)) == Join(w)
    ensures GroupBytes(InitOf(w)) + TailBytes(TailOf(w)) == Flat(w)
  {
    if w != [] {
      var last := |w| - 1;
      JoinIsColonEach(w);
      GroupsDenote(w[..last]);
      GroupIsGroup(w[last]);
      FlatSplit(w, last);
      assert w[last..] == [w[last]] && [w[last]][1..] == [];
      assert Flat(w[last..]) == WordBytes(w[last]);
    }
  }

  lemma FlatOfWords(b: Address)
    ensures Flat(Words(b)) == b
  {
    FlatWords(b, 0);
    assert Words(b)[0..] == Words(b) && b[0..] == b;
  }

  lemma MeaningPlain(left: seq<string>, t: Tail)
    requires AllGroups(left) && IsTail(t)
    ensures Meaning([], None, Form(left, false, [], t)) == Filled(GroupBytes(left) + TailBytes(t), None)
  {
    hide Meaning, AllGroups, IsTail, GroupBytes, TailBytes, Filled;
    MeaningOfGroups([], None, left, t);
    assert [] + GroupBytes(left) == GroupBytes(left);
  }

  lemma MeaningGap(left: seq<string>, right: seq<string>, t: Tail)
    requires AllGroups(left) && AllGroups(right) && IsTail(t)
    ensures Meaning([], None, Form(left, true, right, t)) ==
      Filled(GroupBytes(left) + (GroupBytes(right) + TailBytes(t)), Some(2 * |left|))
  {
    hide Meaning, AllGroups, IsTail, GroupBytes, TailBytes, Filled;
    MeaningOfGap([], left, right, t);
    var l, r, e := GroupBytes(left), GroupBytes(right), TailBytes(t);
    assert [] + l == l && l + r + e == l + (r + e);
  }

  /** An address printed without compression. */
  lemma PlainDenotes(b: Address)
    ensures Denotes(Form(InitOf(Words(b)), false, [], TailOf(Words(b))), Join(Words(b)), b)
  {
    var w := Words(b);
    JoinDenotes(w);
    FlatOfWords(b);
    MeaningPlain(InitOf(w), TailOf(w));
    TextPlain(InitOf(w), TailOf(w));
  }

  lemma TextPlain(left: seq<string>, t: Tail)
    ensures Text(Form(left, false, [], t)) == ColonEach(left) + TailText(t)
  {
    var text := TailText(t);
    assert "" + ("" + text) == text;
  }

  lemma TextGap(left: seq<string>, right: seq<string>, t: Tail)
    ensures Text(Form(left, true, right, t)) ==
      (if left == [] then ":" else ColonEach(left)) + ":" + (ColonEach(right) + TailText(t))
  {
    var more := ColonEach(right) + TailText(t);
    hide TailText;
    if left == [] {
      assert "" + (":" + more) == ":" + more;
      JoinTexts(":", ":", more);
    } else {
      JoinTexts(ColonEach(left), ":", more);
    }
  }

  lemma JoinTexts(a: string, b: string, c: string)
    ensures a + (b + c) == a + b + c
  {}

  predicate ZeroRun(w: seq<word>, base: nat, len: nat) {
    base + len <= |w| && forall k :: base <= k < base + len ==> w[k] == 0
  }

  /** The bytes around a run of zero groups. */
  lemma FlatAroundRun(w: seq<word>, base: nat, len: nat)
    requires ZeroRun(w, base, len)
    ensures Flat(w) == Flat(w[..base]) + Zeros(2 * len) + Flat(w[base + len..])
  {
    FlatSplit(w, base);
    FlatSplit(w[base..], len);
    assert w[base..][..len] == w[base..base + len] && w[base..][len..] == w[base + len..];
    FlatZeros(w[base..base + len]);
  }

  lemma OpenedAround(left: seq<octet>, len: nat, right: seq<octet>)
    requires |left| + 2 * len + |right| == 16 && 1 <= len
    ensures Opened(left + right, |left|) == left + Zeros(2 * len) + right
  {
    assert (left + right)[..|left|] == left && (left + right)[|left|..] == right;
  }

  lemma HexText(u: seq<word>, v: seq<word>)
    ensures AllGroups(InitOf(v)) && IsTail(TailOf(v))
    ensures Text(Form(Groups(u), true, InitOf(v), TailOf(v))) == Join(u) + "::" + Join(v)
  {
    hide AllGroups, IsTail, TailText, Text, InitOf, TailOf, ColonEach;
    JoinDenotes(v);
    LeftOfGap(u);
    hide Join, Groups;
    TextGap(Groups(u), InitOf(v), TailOf(v));
  }

  lemma LeftOfGap(u: seq<word>)
    ensures (if Groups(u) == [] then ":" else ColonEach(Groups(u))) + ":" == Join(u) + "::"
  {
    if u == [] {
      assert "" + "::" == ":" + ":";
    } else {
      JoinIsColonEach(u);
      hide Join, Groups, ColonEach;
      TwoColons(Join(u));
    }
  }

  lemma TwoColons(text: string)
    ensures text + ":" + ":" == text + "::"
  {}

  /** The form the printer spells when it compresses a run in plain hexadecimal. */
  lemma HexDenotes(b: Address, base: nat, len: nat)
    requires 1 <= len && ZeroRun(Words(b), base, len)
    ensures var w := Words(b);
      Denotes(Form(Groups(w[..base]), true, InitOf(w[base + len..]), TailOf(w[base + len..])),
              Join(w[..base]) + "::" + Join(w[base + len..]), b)
  {
    var w := Words(b);
    var u, v := w[..base], w[base + len..];
    HexText(u, v);
    GroupsDenote(u);
    JoinDenotes(v);
    MeaningGap(Groups(u), InitOf(v), TailOf(v));
    FlatOfWords(b);
    FlatAroundRun(w, base, len);
    OpenedAround(Flat(u), len, Flat(v));
  }

  /** The groups the printer writes before an embedded dotted quad. */
  function EmbeddedGroups(w: seq<word>, len: nat): seq<string>
    requires |w| == 8
  {
    if len == 5 then Groups([w[5]]) else []
  }

  lemma EmbeddedText(w: seq<word>, len: nat, quad: Quad)
    requires |w| == 8
    ensures Text(Form([], true, EmbeddedGroups(w, len), QuadTail(QuadText(quad), quad)))
         == "::" + (if len == 5 then Join([w[5]]) + ":" else "") + QuadText(quad)
  {
    if len == 5 {
      JoinIsColonEach([w[5]]);
    }
  }

  lemma EmbeddedBytes(b: Address, len: nat)
    requires EmbedsIPv4(Words(b), 0, len)
    ensures AllGroups(EmbeddedGroups(Words(b), len))
    ensures GroupBytes(EmbeddedGroups(Words(b), len)) + b[12..] == b[2 * len..]
  {
    if len == 5 {
      var w := Words(b);
      GroupsDenote([w[5]]);
      assert [w[5]][1..] == [];
      assert Flat([w[5]]) == WordBytes(w[5]) + Flat([]);
      assert WordBytes(w[5]) == [b[10], b[11]];
      assert b[10..] == [b[10], b[11]] + b[12..];
    } else {
      assert [] + b[12..] == b[12..];
    }
  }

  /** The form the printer spells when the text ends in a dotted quad. */
  function EmbeddedForm(b: Address, len: nat): Form {
    Form([], true, EmbeddedGroups(Words(b), len), QuadTail(QuadText(b[12..]), b[12..]))
  }

  lemma EmbeddedSpells(b: Address, len: nat)
    requires EmbedsIPv4(Words(b), 0, len)
    ensures IsForm(EmbeddedForm(b, len)) && Text(EmbeddedForm(b, len)) == Compressed(b, 0, len)
  {
    hide Words, Join, QuadText, IsDotted, EmbeddedGroups, Text;
    QuadTextIsDotted(b[12..]);
    EmbeddedText(Words(b), len, b[12..]);
    EmbeddedBytes(b, len);
  }

  lemma EmbeddedMeans(b: Address, len: nat)
    requires ZeroRun(Words(b), 0, len) && EmbedsIPv4(Words(b), 0, len) && IsForm(EmbeddedForm(b, len))
    ensures Meaning([], None, EmbeddedForm(b, len)) == Some(b)
  {
    var w, quad := Words(b), b[12..];
    EmbeddedBytes(b, len);
    hide Words, Flat, GroupBytes, IsDotted, QuadText, EmbeddedGroups, Meaning;
    MeaningGap([], EmbeddedGroups(w, len), QuadTail(QuadText(quad), quad));
    OpenedAround([], len, b[2 * len..]);
    FlatOfWords(b);
    FlatAroundRun(w, 0, len);
    FlatWords(b, len);
    assert w[..0] == [];
    FlatNothing();
  }

  lemma FlatNothing()
    ensures Flat([]) == [] && GroupBytes([]) == []
  {}

  lemma EmbeddedIsRead(b: Address, len: nat)
    requires ZeroRun(Words(b), 0, len) && EmbedsIPv4(Words(b), 0, len)
    ensures Pton6(Compressed(b, 0, len)) == Some(b)
  {
    hide Pton6, Words, ZeroRun, Compressed, EmbeddedForm, IsForm, Text, Meaning;
    EmbeddedSpells(b, len);
    EmbeddedMeans(b, len);
    DenotedIsAccepted(EmbeddedForm(b, len), Compressed(b, 0, len), b);
  }

  /** Whichever run of zero groups is compressed, the parser restores it. */
  lemma CompressedIsRead(b: Address, base: nat, len: nat)
    requires 1 <= len && ZeroRun(Words(b), base, len)
    ensures Pton6(Compressed(b, base, len)) == Some(b)
  {
    if EmbedsIPv4(Words(b), base, len) {
      EmbeddedIsRead(b, len);
    } else {
      HexIsRead(b, base, len);
    }
  }

  lemma HexIsRead(b: Address, base: nat, len: nat)
    requires 1 <= len && ZeroRun(Words(b), base, len)
    ensures var w := Words(b); Pton6(Join(w[..base]) + "::" + Join(w[base + len..])) == Some(b)
  {
    hide Pton6, Words, Denotes, Join, Groups, InitOf, TailOf;
    var w := Words(b);
    HexDenotes(b, base, len);
    DenotedIsAccepted(Form(Groups(w[..base]), true, InitOf(w[base + len..]), TailOf(w[base + len..])),
                      Join(w[..base]) + "::" + Join(w[base + len..]), b);
  }

  /** Parsing what the IPv6 printer wrote gives the address back, for every address. */
  lemma RoundTrip6(b: Address)
    ensures Pton6(Ntop6(b)) == Some(b)
  {
    var w := Words(b);
    var base := LeftmostLongest(w);
    if RunAt(w, base) < 2 {
      PlainDenotes(b);
      DenotedIsAccepted(Form(InitOf(w), false, [], TailOf(w)), Join(w), b);
    } else {
      CompressedIsRead(b, base, RunAt(w, base));
    }
  }

  /** Two addresses with the same text are the same address. */
  lemma TextsAreDistinct(a: Address, b: Address)
    requires Ntop6(a) == Ntop6(b)
    ensures a == b
  {
    RoundTrip6(a);
    RoundTrip6(b);
  }

  /**
    A `::` in a text that already has all sixteen bytes is not ignored: the bytes after it
    are lost, since the shift moves each onto itself and then clears it.
   */
  lemma GapInFullAddressClears(f: Form)
    requires IsForm(f) && f.gap && 2 * |f.left| + 2 * |f.right| + |TailBytes(f.tail)| == 16
    ensures Pton6(Text(f)) == Some(GroupBytes(f.left) + Zeros(16 - 2 * |f.left|))
  {
    var all := GroupBytes(f.left) + (GroupBytes(f.right) + TailBytes(f.tail));
    MeaningGap(f.left, f.right, f.tail);
    OpenedFull(GroupBytes(f.left), GroupBytes(f.right) + TailBytes(f.tail));
    DenotedIsAccepted(f, Text(f), Opened(all, 2 * |f.left|));
  }

  lemma OpenedFull(left: seq<octet>, right: seq<octet>)
    requires |left| + |right| == 16
    ensures Opened(left + right, |left|) == left + Zeros(16 - |left|)
  {
    assert (left + right)[..|left|] == left && left + Zeros(0) == left;
  }
}
