/** Texts that show where the language of the IPv6 parser is wider than the RFC's, and where a `::` loses bytes. */
module InetLanguage {
  import opened Common
  import opened Numerals
  import opened InetText
  import opened InetGrammar6
  import opened InetRoundTrip

  /**
    A `::` in a text that already has all sixteen bytes is silently ignored, as the source's comment says, exactly when
    every byte after it is zero.
   */
  lemma GapIgnoredExactly(f: Form)
    requires IsForm(f) && f.gap && 2 * |f.left| + 2 * |f.right| + |TailBytes(f.tail)| == 16
    ensures var after := GroupBytes(f.right) + TailBytes(f.tail);
      Pton6(Text(f)) == Some(GroupBytes(f.left) + after) <==> after == Zeros(|after|)
  {
    hide Pton6, Text, GroupBytes, TailBytes, AllGroups, IsTail;
    GapInFullAddressClears(f);
    var left, after := GroupBytes(f.left), GroupBytes(f.right) + TailBytes(f.tail);
    assert (left + after)[|left|..] == after;
    assert (left + Zeros(|after|))[|left|..] == Zeros(|after|);
  }

  /** `n` groups that are 1. */
  function Ones(n: nat): (gs: seq<string>)
    ensures |gs| == n
  {
    if n == 0 then [] else ["1"] + Ones(n - 1)
  }

  function OnesText(n: nat): string { if n == 0 then "" else "1:" + OnesText(n - 1) }

  function OnesBytes(n: nat): seq<octet> { if n == 0 then [] else [0, 1] + OnesBytes(n - 1) }

  lemma OneIsGroup()
    ensures IsGroup("1") && Value("1", 16) == 1 && IsGroup("00001") && Value("00001", 16) == 1
  {
    assert "1"[..0] == "" && "00001"[..4] == "0000" && "0000"[..3] == "000" && "000"[..2] == "00" && "00"[..1] == "0"
      && "0"[..0] == "";
    assert Value("0", 16) == 0 && Value("00", 16) == 0 && Value("000", 16) == 0 && Value("0000", 16) == 0;
  }

  lemma {:induction false} OnesSpell(n: nat)
    ensures AllGroups(Ones(n)) && ColonEach(Ones(n)) == OnesText(n) && GroupBytes(Ones(n)) == OnesBytes(n)
  {
    OneIsGroup();
    if n > 0 {
      OnesSpell(n - 1);
      assert Ones(n)[1..] == Ones(n - 1);
      assert "1" + (":" + OnesText(n - 1)) == "1:" + OnesText(n - 1);
    }
  }

  /** Eight groups and a colon are an address. */
  lemma FullTextMayEndInColon()
    ensures Pton6("1:1:1:1:1:1:1:1:") == Some(OnesBytes(8))
  {
    var f := Form(Ones(8), false, [], NoTail);
    OnesSpell(8);
    EightOnes();
    hide Pton6, Text, Ones, OnesText, OnesBytes, GroupBytes, ColonEach, Meaning, AllGroups, Filled;
    MeaningPlain(Ones(8), NoTail);
    TextPlain(Ones(8), NoTail);
    DenotedIsAccepted(f, "1:1:1:1:1:1:1:1:", OnesBytes(8));
  }

  lemma EightOnes()
    ensures OnesText(8) + TailText(NoTail) == "1:1:1:1:1:1:1:1:"
    ensures |OnesBytes(8)| == 16 && OnesBytes(8) + TailBytes(NoTail) == OnesBytes(8)
    ensures Filled(OnesBytes(8), None) == Some(OnesBytes(8))
  {
    assert OnesText(8) == "1:1:1:1:1:1:1:1:";
    assert OnesText(8) + "" == OnesText(8);
    assert OnesBytes(8) + [] == OnesBytes(8);
  }

  lemma OneAtTheEnd()
    ensures Opened([0, 1], 0) == Zeros(14) + [0, 1]
  {
    assert [0, 1][..0] == [] && [0, 1][0..] == [0, 1];
    assert [] + Zeros(14) == Zeros(14);
  }

  /** So are a gap, a group and a colon. */
  lemma TextWithGapMayEndInColon()
    ensures Pton6("::1:") == Some(Zeros(14) + [0, 1])
  {
    var f := Form([], true, Ones(1), NoTail);
    OnesSpell(1);
    MeaningGap([], Ones(1), NoTail);
    TextGap([], Ones(1), NoTail);
    assert OnesBytes(0) == [] && OnesText(0) == "" && OnesText(1) == "1:";
    assert [] + ([0, 1] + []) == [0, 1];
    OneAtTheEnd();
    assert ":" + ":" + ("1:" + "") == "::1:";
    DenotedIsAccepted(f, "::1:", Zeros(14) + [0, 1]);
  }

  /** A group may have more than four digits. */
  lemma GroupMayHaveLeadingZeros()
    ensures Pton6("::00001") == Some(Zeros(14) + [0, 1])
  {
    var f := Form([], true, [], GroupTail("00001"));
    OneIsGroup();
    MeaningGap([], [], GroupTail("00001"));
    TextGap([], [], GroupTail("00001"));
    assert [] + ([] + [0, 1]) == [0, 1];
    OneAtTheEnd();
    assert ":" + ":" + ("" + "00001") == "::00001";
    DenotedIsAccepted(f, "::00001", Zeros(14) + [0, 1]);
  }

  /** Here the last group is lost. */
  lemma GapCanLoseBytes()
    ensures Pton6("1:1:1:1:1:1:1::1") == Some(OnesBytes(7) + [0, 0])
  {
    var f := Form(Ones(7), true, [], GroupTail("1"));
    OnesSpell(7);
    OneIsGroup();
    SevenOnes();
    hide Pton6, Text, Ones, OnesText, OnesBytes, Zeros, ColonEach, Value, HexDigits;
    TextGap(Ones(7), [], GroupTail("1"));
    GapInFullAddressClears(f);
  }

  lemma SevenOnes()
    ensures OnesText(7) + ":" + (ColonEach([]) + TailText(GroupTail("1"))) == "1:1:1:1:1:1:1::1"
    ensures Zeros(2) == [0, 0]
  {
    assert OnesText(7) + ":" + ("" + "1") == "1:1:1:1:1:1:1::1";
  }

  lemma UpperCaseGroups()
    ensures IsGroup("2001") && Value("2001", 16) == 0x2001 && IsGroup("DB8") && Value("DB8", 16) == 0xdb8
  {
    assert "2001"[..3] == "200" && "200"[..2] == "20" && "20"[..1] == "2" && "2"[..0] == "";
    assert Value("2", 16) == 2 && Value("20", 16) == 0x20 && Value("200", 16) == 0x200;
    assert "DB8"[..2] == "DB" && "DB"[..1] == "D" && "D"[..0] == "";
    assert Value("D", 16) == 13 && Value("DB", 16) == 0xdb;
  }

  /** Upper-case digits count as lower-case ones. */
  lemma UpperCaseIsRead()
    ensures Pton6("2001:DB8::1") == Some([0x20, 0x01, 0x0d, 0xb8] + Zeros(10) + [0, 1])
  {
    var left, tail := ["2001", "DB8"], GroupTail("1");
    var f := Form(left, true, [], tail);
    OneIsGroup();
    UpperCaseGroups();
    UpperCaseSpells();
    UpperCaseOpens();
    hide Pton6, Text, Zeros, ColonEach, Value, HexDigits, Opened, GroupBytes, WordBytes, Meaning;
    MeaningGap(left, [], tail);
    TextGap(left, [], tail);
    DenotedIsAccepted(f, "2001:DB8::1", [0x20, 0x01, 0x0d, 0xb8] + Zeros(10) + [0, 1]);
  }

  lemma UpperCaseSpells()
    ensures ColonEach(["2001", "DB8"]) + ":" + (ColonEach([]) + TailText(GroupTail("1"))) == "2001:DB8::1"
    ensures AllGroups(["2001", "DB8"]) && IsTail(GroupTail("1"))
    ensures GroupBytes(["2001", "DB8"]) == [0x20, 0x01, 0x0d, 0xb8]
      && GroupBytes([]) + TailBytes(GroupTail("1")) == [0, 1]
  {
    OneIsGroup();
    UpperCaseGroups();
    hide Value, HexDigits;
    assert ["2001", "DB8"][1..] == ["DB8"] && ["DB8"][1..] == [];
    assert "2001" + (":" + ("DB8" + (":" + ""))) == "2001:DB8:";
    assert "2001:DB8:" + ":" + ("" + "1") == "2001:DB8::1";
    assert [0x20, 0x01] + ([0x0d, 0xb8] + []) == [0x20, 0x01, 0x0d, 0xb8];
    assert [] + [0, 1] == [0, 1];
  }

  lemma UpperCaseOpens()
    ensures Filled([0x20, 0x01, 0x0d, 0xb8] + [0, 1], Some(4)) == Some([0x20, 0x01, 0x0d, 0xb8] + Zeros(10) + [0, 1])
  {
    var all := [0x20, 0x01, 0x0d, 0xb8] + [0, 1];
    assert all[..4] == [0x20, 0x01, 0x0d, 0xb8] && all[4..] == [0, 1];
  }
}
