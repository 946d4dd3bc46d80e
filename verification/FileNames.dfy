/** The names of stored files: how the writer builds them and how the search reads their intervals. */
module FileNames {
  import opened Common
  import opened Numerals

  /** `generate_filename` and `rename_file` with a flat directory and a name that fits its buffer. */
  function FileName(dir: string, start: nat, end: nat, id: nat): string {
    dir + "/" + (Numeral(start, 10) + ("-" + (Numeral(end, 10) + ("-" + (Numeral(id, 10) + ".parquet")))))
  }

  /** `strchr`: the first place of `c`. */
  function StrChr(s: string, c: char): (r: Option<nat>)
    ensures r == None <==> c !in s
    ensures r.Some? ==> r.value < |s| && s[r.value] == c && c !in s[..r.value]
  {
    if s == "" then None
    else if s[0] == c then Some(0)
    else
      var r := StrChr(s[1..], c);
      if r.None? then None else Some(r.value + 1)
  }

  /** `strrchr`: the last place of `c`. */
  function StrRChr(s: string, c: char): (r: Option<nat>)
    ensures r == None <==> c !in s
    ensures r.Some? ==> r.value < |s| && s[r.value] == c && c !in s[r.value + 1..]
  {
    if s == "" then None
    else if s[|s| - 1] == c then Some(|s| - 1)
    else
      var r := StrRChr(s[..|s| - 1], c);
      assert r.Some? ==> s[r.value + 1..] == s[..|s| - 1][r.value + 1..] + [s[|s| - 1]];
      r
  }

  /** How many digits `s` starts with. */
  function DigitCount(s: string): (n: nat)
    ensures n <= |s|
    ensures DecimalDigits(s[..n]) && HexDigits(s[..n])
    ensures n < |s| ==> !IsDecimal(s[n])
  {
    if s == "" || !IsDecimal(s[0]) then 0
    else
      var n := DigitCount(s[1..]);
      assert s[..n + 1] == [s[0]] + s[1..][..n];
      n + 1
  }

  /** What `sscanf` with `%lu` reads of a text that starts with a digit; nothing for any other text. */
  function ScanUnsigned(s: string): Option<nat> {
    if DigitCount(s) == 0 then None else Some(Value(s[..DigitCount(s)], 10))
  }

  /** `parquet_file_path_to_timestamp`: the number after the last slash and the one after the first dash. */
  function ParseFileName(path: string): (Option<nat>, Option<nat>)
    requires '/' in path && '-' in path
  {
    (ScanUnsigned(path[StrRChr(path, '/').value + 1..]), ScanUnsigned(path[StrChr(path, '-').value + 1..]))
  }

  lemma {:induction false} FirstPlace(a: string, c: char, b: string)
    requires c !in a
    ensures StrChr(a + [c] + b, c) == Some(|a|)
  {
    var s := a + [c] + b;
    if a != "" {
      assert s[1..] == a[1..] + [c] + b && s[0] == a[0];
      FirstPlace(a[1..], c, b);
    }
  }

  lemma {:induction false} LastPlace(a: string, c: char, b: string)
    requires c !in b
    ensures StrRChr(a + [c] + b, c) == Some(|a|)
  {
    var s := a + [c] + b;
    if b != "" {
      var last := |b| - 1;
      assert s[..|s| - 1] == a + [c] + b[..last] && s[|s| - 1] == b[last];
      LastPlace(a, c, b[..last]);
    }
  }

  lemma {:induction false} DigitsThenOther(d: string, rest: string)
    requires DecimalDigits(d) && rest != "" && !IsDecimal(rest[0])
    ensures DigitCount(d + rest) == |d|
  {
    if d == "" {
      assert d + rest == rest;
    } else {
      DigitsThenOther(d[1..], rest);
      assert (d + rest)[1..] == d[1..] + rest && (d + rest)[0] == d[0];
    }
  }

  lemma NumberThenOther(n: nat, rest: string)
    requires rest != "" && !IsDecimal(rest[0])
    ensures ScanUnsigned(Numeral(n, 10) + rest) == Some(n)
  {
    var d := Numeral(n, 10);
    DigitsThenOther(d, rest);
    assert (d + rest)[..|d|] == d;
    ValueOfNumeral(n, 10);
  }

  lemma StartReadsBack(dir: string, start: nat, rest: string)
    requires '/' !in rest
    ensures var name := dir + "/" + (Numeral(start, 10) + ("-" + rest));
      '/' in name && ScanUnsigned(name[StrRChr(name, '/').value + 1..]) == Some(start)
  {
    var after := Numeral(start, 10) + ("-" + rest);
    var name := dir + "/" + after;
    assert '/' !in after;
    LastPlace(dir, '/', after);
    assert name[|dir| + 1..] == after;
    NumberThenOther(start, "-" + rest);
  }

  lemma EndReadsBack(head: string, end: nat, rest: string)
    requires '-' !in head
    ensures var name := head + "-" + (Numeral(end, 10) + ("-" + rest));
      '-' in name && ScanUnsigned(name[StrChr(name, '-').value + 1..]) == Some(end)
  {
    var after := Numeral(end, 10) + ("-" + rest);
    var name := head + "-" + after;
    FirstPlace(head, '-', after);
    assert name[|head| + 1..] == after;
    NumberThenOther(end, "-" + rest);
  }

  lemma SplitName(dir: string, start: string, rest: string)
    ensures dir + "/" + (start + ("-" + rest)) == dir + "/" + start + "-" + rest
  {}

  /** The first second, the last one and the number of the writer, in this order. */
  lemma NameIsSpelt()
    ensures FileName("/data", 1, 2, 3) == "/data/1-2-3.parquet"
    ensures ParseFileName("/data/1-2-3.parquet") == (Some(1), Some(2))
  {
    assert Numeral(1, 10) == "1" && Numeral(2, 10) == "2" && Numeral(3, 10) == "3";
    assert "/data" + "/" + ("1" + ("-" + ("2" + ("-" + ("3" + ".parquet"))))) == "/data/1-2-3.parquet";
    hide ParseFileName;
    NameReadsBack("/data", 1, 2, 3);
  }

  /** A name reads back as the interval it was built from, whatever the directory, if that has no dash. */
  lemma NameReadsBack(dir: string, start: nat, end: nat, id: nat)
    requires '-' !in dir
    ensures var name := FileName(dir, start, end, id);
      '/' in name && '-' in name && ParseFileName(name) == (Some(start), Some(end))
  {
    hide ScanUnsigned, Numeral, StrRChr, StrChr;
    var a, b, c := Numeral(start, 10), Numeral(end, 10), Numeral(id, 10) + ".parquet";
    assert '/' !in b + ("-" + c);
    StartReadsBack(dir, start, b + ("-" + c));
    assert '-' !in dir + "/" + a;
    EndReadsBack(dir + "/" + a, end, c);
    SplitName(dir, a, b + ("-" + c));
  }
}
