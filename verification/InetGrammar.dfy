/**
  Exactly which texts the address parsers accept and what they make of them,
  and the round trip from an address through its text.
 */
module InetGrammar {
  import opened Common
  import opened Numerals
  import opened InetText

  // ---------------------------------------------------------------- dotted quads

  /** A decimal number of one or more digits, up to 255; leading zeros are allowed. */
  predicate IsOctetText(d: string) {
    d != "" && DecimalDigits(d) && HexDigits(d) && Value(d, 10) <= 255
  }

  predicate IsOctet(d: string, n: octet) { IsOctetText(d) && Value(d, 10) == n }

  /** `text` is the octets of `b` in decimal, separated by dots. */
  ghost predicate IsDotted(text: string, b: seq<octet>)
    requires |b| >= 1
    decreases |b|
  {
    if |b| == 1 then IsOctet(text, b[0])
    else exists k :: 0 <= k < |text| && text[k] == '.' && IsOctet(text[..k], b[0]) && IsDotted(text[k + 1..], b[1..])
  }

  /** One digit of the open octet. */
  lemma DigitOfOctet(text: string, before: seq<octet>, v: octet, sawDigit: bool)
    requires |before| <= 3 && text != "" && IsDecimal(text[0])
    ensures var next := v * 10 + DigitValue(text[0]);
      Scan4(text, before + [v], sawDigit, |before| + (if sawDigit then 1 else 0)) ==
      if next > 255 then None else Scan4(text[1..], before + [next], true, |before| + 1)
  {
    hide DigitValue;
    var next := v * 10 + DigitValue(text[0]);
    assert (before + [v])[|before|] == v;
    if next <= 255 {
      assert (before + [v])[|before| := next] == before + [next];
    }
  }

  /** Scanning the digits of one octet. */
  lemma {:induction false} ScanOctet(d: string, k: nat, rest: string, before: seq<octet>)
    requires IsOctetText(d) && k <= |d| && |before| <= 3
    requires Value(d[..k], 10) <= 255
    ensures Scan4(d[k..] + rest, before + [Value(d[..k], 10)], k > 0, |before| + (if k > 0 then 1 else 0))
         == Scan4(rest, before + [Value(d, 10)], true, |before| + 1)
    decreases |d| - k
  {
    hide Scan4, DigitValue;
    if k == |d| {
      assert d[..k] == d && d[k..] + rest == rest;
    } else {
      var text := d[k..] + rest;
      assert text[0] == d[k] && text[1..] == d[k + 1..] + rest;
      PrefixDecimal(d, k);
      DigitOfOctet(text, before, Value(d[..k], 10), k > 0);
      hide Value, HexDigits, DecimalDigits;
      ScanOctet(d, k + 1, rest, before);
    }
  }

  lemma PrefixDecimal(d: string, k: nat)
    requires HexDigits(d) && DecimalDigits(d) && k < |d|
    ensures Value(d[..k + 1], 10) == Value(d[..k], 10) * 10 + DigitValue(d[k]) <= Value(d, 10)
  {
    ValueOfPrefix(d, k + 1, 10);
    assert d[..k + 1][..k] == d[..k];
  }

  /** Scanning the dot after an octet that is not the last. */
  lemma ScanDot(text: string, tmp: seq<octet>)
    requires 1 <= |tmp| <= 3 && text != "" && text[0] == '.'
    ensures Scan4(text, tmp, true, |tmp|) == Scan4(text[1..], tmp + [0], false, |tmp|)
  {}

  lemma SplitDotted(text: string, b: seq<octet>) returns (k: nat)
    requires |b| >= 2 && IsDotted(text, b)
    ensures k < |text| && text[k] == '.' && IsOctet(text[..k], b[0]) && IsDotted(text[k + 1..], b[1..])
  {
    k :| 0 <= k < |text| && text[k] == '.' && IsOctet(text[..k], b[0]) && IsDotted(text[k + 1..], b[1..]);
  }

  /** Every dotted text of the remaining octets is read as those octets. */
  lemma {:induction false} DottedIsRead(text: string, before: seq<octet>, b: seq<octet>)
    requires |b| >= 1 && |before| + |b| == 4 && IsDotted(text, b)
    ensures Scan4(text, before + [0], false, |before|) == Some(before + b)
    decreases |b|
  {
    if |b| == 1 {
      hide Scan4;
      LastOctetIsRead(text, before, b[0]);
      assert [b[0]] == b;
    } else {
      hide Scan4, IsDotted, IsOctet;
      var k := SplitDotted(text, b);
      OctetAndDotAreRead(text, k, before, b[0]);
      assert before + [b[0]] + b[1..] == before + b;
      DottedIsRead(text[k + 1..], before + [b[0]], b[1..]);
    }
  }

  lemma LastOctetIsRead(text: string, before: seq<octet>, n: octet)
    requires IsOctet(text, n) && |before| == 3
    ensures Scan4(text, before + [0], false, 3) == Some(before + [n])
  {
    OctetIsRead(text, "", before);
    assert text + "" == text;
  }

  lemma OctetAndDotAreRead(text: string, k: nat, before: seq<octet>, n: octet)
    requires |before| <= 2 && k < |text| && text[k] == '.' && IsOctet(text[..k], n)
    ensures Scan4(text, before + [0], false, |before|) == Scan4(text[k + 1..], before + [n] + [0], false, |before| + 1)
  {
    var rest := text[k..];
    OctetIsRead(text[..k], rest, before);
    assert text[..k] + rest == text;
    ScanDot(rest, before + [n]);
    assert rest[1..] == text[k + 1..];
  }

  lemma OctetIsRead(d: string, rest: string, before: seq<octet>)
    requires IsOctetText(d) && |before| <= 3
    ensures Scan4(d + rest, before + [0], false, |before|) == Scan4(rest, before + [Value(d, 10)], true, |before| + 1)
  {
    assert d[0..] == d && d[..0] == "";
    ScanOctet(d, 0, rest, before);
  }

  /** What a successful scan with the octet `tmp[|tmp| - 1]` open has next: the end, a digit or a dot. */
  lemma AfterOctet(text: string, tmp: seq<octet>, sawDigit: bool, octets: nat)
    requires 1 <= |tmp| == octets + (if sawDigit then 0 else 1) <= 4
    requires Scan4(text, tmp, sawDigit, octets).Some?
    ensures text == "" ==> octets == 4 && Scan4(text, tmp, sawDigit, octets) == Some(tmp)
    ensures text != "" && !IsDecimal(text[0]) ==> text[0] == '.' && sawDigit && octets < 4
  {}

  /** The digits of an octet read so far, with their value. */
  predicate IsPending(p: string, v: octet) { DecimalDigits(p) && HexDigits(p) && Value(p, 10) == v }

  lemma OctetPends(p: string, v: octet, c: char)
    requires IsPending(p, v) && IsDecimal(c) && v * 10 + DigitValue(c) <= 255
    ensures IsPending(p + [c], v * 10 + DigitValue(c))
  {
    assert (p + [c])[..|p|] == p;
  }

  lemma DigitMoves(p: string, text: string)
    requires text != ""
    ensures p + [text[0]] + text[1..] == p + text
  {}

  /** Whatever is read completely was a dotted text of the octets reported. */
  lemma {:induction false} ReadIsDotted(p: string, v: octet, text: string, before: seq<octet>, b: Quad)
    requires |before| <= 3 && IsPending(p, v)
    requires Scan4(text, before + [v], p != "", |before| + (if p != "" then 1 else 0)) == Some(b)
    ensures before <= b && IsDotted(p + text, b[|before|..])
    decreases |text|
  {
    AfterOctet(text, before + [v], p != "", |before| + (if p != "" then 1 else 0));
    if text == "" {
      hide Scan4, Value, DecimalDigits, HexDigits;
      LastOctet(p, v, before, b);
      assert p + text == p;
    } else if IsDecimal(text[0]) {
      hide *;
      DigitOfOctet(text, before, v, p != "");
      OctetPends(p, v, text[0]);
      ReadIsDotted(p + [text[0]], v * 10 + DigitValue(text[0]), text[1..], before, b);
      DigitMoves(p, text);
    } else {
      EmptyOctet();
      hide Scan4, Value, IsDotted, DecimalDigits, HexDigits, IsDecimal;
      ScanDot(text, before + [v]);
      ReadIsDotted("", 0, text[1..], before + [v], b);
      OctetInFront(p, v, text, before, b);
    }
  }

  lemma LastOctet(p: string, v: octet, before: seq<octet>, b: seq<octet>)
    requires IsOctet(p, v) && before + [v] == b
    ensures before <= b && IsDotted(p, b[|before|..])
  {
    assert b[|before|..] == [v];
  }

  lemma OctetInFront(p: string, v: octet, text: string, before: seq<octet>, b: seq<octet>)
    requires IsOctet(p, v) && text != "" && text[0] == '.'
    requires before + [v] < b && IsDotted("" + text[1..], b[|before| + 1..])
    ensures before <= b && IsDotted(p + text, b[|before|..])
  {
    hide IsDotted, IsOctet;
    assert "" + text[1..] == text[1..];
    assert b[|before|] == v && b[|before|..][1..] == b[|before| + 1..];
    DottedCons(p, text, b[|before|..]);
  }

  lemma EmptyOctet()
    ensures IsPending("", 0)
  {}

  lemma DottedCons(d: string, text: string, b: seq<octet>)
    requires |b| >= 2 && text != "" && text[0] == '.'
    requires IsOctet(d, b[0]) && IsDotted(text[1..], b[1..])
    ensures IsDotted(d + text, b)
  {
    var all, k := d + text, |d|;
    assert all[..k] == d && all[k + 1..] == text[1..] && all[k] == '.';
  }

  /** The IPv4 parser accepts exactly four dotted decimal octets, and reads their values. */
  lemma Pton4Exact(text: string, b: Quad)
    ensures Pton4(text) == Some(b) <==> IsDotted(text, b)
  {
    if IsDotted(text, b) {
      DottedIsRead(text, [], b);
      assert [] + [0] == [0] && [] + b == b;
    }
    if Pton4(text) == Some(b) {
      EmptyOctet();
      assert [] + [0] == [0];
      ReadIsDotted("", 0, text, [], b);
      assert "" + text == text && b[0..] == b;
    }
  }

  lemma NumeralIsOctet(n: octet)
    ensures IsOctetText(Numeral(n, 10)) && Value(Numeral(n, 10), 10) == n
  {
    ValueOfNumeral(n, 10);
  }

  /** One printed octet before a dotted rest. */
  lemma DottedStep(n: octet, rest: string, b: seq<octet>)
    requires |b| >= 1 && IsDotted(rest, b)
    ensures IsDotted(Numeral(n, 10) + "." + rest, [n] + b)
  {
    NumeralIsOctet(n);
    assert ("." + rest)[1..] == rest && ([n] + b)[1..] == b;
    DottedCons(Numeral(n, 10), "." + rest, [n] + b);
    assert Numeral(n, 10) + ("." + rest) == Numeral(n, 10) + "." + rest;
  }

  lemma QuadTextIsDotted(b: Quad)
    ensures IsDotted(QuadText(b), b)
  {
    NumeralIsOctet(b[3]);
    DottedStep(b[2], Numeral(b[3], 10), [b[3]]);
    DottedStep(b[1], Numeral(b[2], 10) + "." + Numeral(b[3], 10), [b[2]] + [b[3]]);
    DottedStep(b[0], Numeral(b[1], 10) + "." + (Numeral(b[2], 10) + "." + Numeral(b[3], 10)),
               [b[1]] + ([b[2]] + [b[3]]));
    assert b == [b[0]] + ([b[1]] + ([b[2]] + [b[3]]));
  }

  /** Parsing what the IPv4 printer wrote gives the address back. */
  lemma RoundTrip4(b: Quad)
    ensures Pton4(QuadText(b)) == Some(b)
  {
    QuadTextIsDotted(b);
    Pton4Exact(QuadText(b), b);
  }
}
