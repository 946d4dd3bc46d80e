/**
  Text forms of IPv4 and IPv6 addresses: what the printer writes and what the
  parser accepts, as functions on strings. A C string is modelled by its
  characters before the terminating NUL.
 */
module InetText {
  import opened Common
  import opened Numerals

  const IN6ADDRSZ := 16
  const INADDRSZ := 4
  const INT16SZ := 2

  /** An IPv6 address in network order. */
  type Address = b: seq<octet> | |b| == 16 witness seq(16, _ => 0)

  /** An IPv4 address in network order. */
  type Quad = b: seq<octet> | |b| == 4 witness seq(4, _ => 0)

  // ---------------------------------------------------------------- dotted quad

  /** What `%u.%u.%u.%u` prints. */
  function QuadText(b: Quad): string {
    Numeral(b[0], 10) + "." + (Numeral(b[1], 10) + "." + (Numeral(b[2], 10) + "." + Numeral(b[3], 10)))
  }

  /** The rest of a dotted-quad parse, with the octets read so far, the last one open. */
  function Scan4(text: string, tmp: seq<octet>, sawDigit: bool, octets: nat): (r: Option<Quad>)
    requires 1 <= |tmp| == octets + (if sawDigit then 0 else 1) <= 4
    decreases |text|
  {
    if text == "" then (if octets < 4 then None else Some(tmp))
    else if IsDecimal(text[0]) then
      var last := |tmp| - 1;
      var next := tmp[last] * 10 + DigitValue(text[0]);
      if next > 255 then None
      else Scan4(text[1..], tmp[last := next], true, if sawDigit then octets else octets + 1)
    else if text[0] == '.' && sawDigit then
      if octets == 4 then None else Scan4(text[1..], tmp + [0], false, octets)
    else None
  }

  /** The octets of a dotted quad, or nothing for any other string. */
  function Pton4(text: string): Option<Quad> { Scan4(text, [0], false, 0) }

  // ---------------------------------------------------------------- IPv6

  /** The `k`th pair of bytes, the first byte the higher. */
  function BigEndian(b: seq<octet>, k: nat): word
    requires 2 * k + 1 < |b|
  {
    256 * (b[2 * k] as int) + b[2 * k + 1]
  }

  /** The eight 16-bit groups of an address. */
  function Words(b: Address): (w: seq<word>)
    ensures |w| == 8
    ensures forall k :: 0 <= k < 8 ==> w[k] == BigEndian(b, k)
  {
    seq(8, k requires 0 <= k < 8 => BigEndian(b, k))
  }

  function WordBytes(w: word): (b: seq<octet>)
    ensures |b| == 2
  {
    [w / 256, w % 256]
  }

  /** The number of zero groups from position `i` on. */
  function RunAt(w: seq<word>, i: nat): (n: nat)
    requires i <= |w|
    ensures i + n <= |w|
    ensures forall k :: i <= k < i + n ==> w[k] == 0
    ensures i + n < |w| ==> w[i + n] != 0
    decreases |w| - i
  {
    if i == |w| || w[i] != 0 then 0 else 1 + RunAt(w, i + 1)
  }

  /** `base` starts the longest run of zero groups, the leftmost one if several tie. */
  predicate IsLeftmostLongest(w: seq<word>, base: nat)
    requires base < |w|
  {
    && (forall j :: 0 <= j < base ==> RunAt(w, j) < RunAt(w, base))
    && (forall j :: base < j < |w| ==> RunAt(w, j) <= RunAt(w, base))
  }

  function LeftmostLongest(w: seq<word>): (base: nat)
    requires |w| > 0
    ensures base < |w| && IsLeftmostLongest(w, base)
  {
    LeftmostLongestBelow(w, |w|)
  }

  function LeftmostLongestBelow(w: seq<word>, n: nat): (base: nat)
    requires 0 < n <= |w|
    ensures base < n
    ensures forall j :: 0 <= j < base ==> RunAt(w, j) < RunAt(w, base)
    ensures forall j :: base < j < n ==> RunAt(w, j) <= RunAt(w, base)
  {
    if n == 1 then 0
    else
      var base := LeftmostLongestBelow(w, n - 1);
      if RunAt(w, n - 1) > RunAt(w, base) then n - 1 else base
  }

  /** Groups in hexadecimal, separated by colons. */
  function Join(w: seq<word>): string {
    if |w| == 0 then ""
    else if |w| == 1 then Numeral(w[0], 16)
    else Join(w[..|w| - 1]) + ":" + Numeral(w[|w| - 1], 16)
  }

  /** The two forms that end in a dotted quad: `::a.b.c.d` and `::ffff:a.b.c.d`. */
  predicate EmbedsIPv4(w: seq<word>, base: nat, len: nat)
    requires |w| == 8
  {
    base == 0 && (len == 6 || (len == 5 && w[5] == 0xffff))
  }

  /** The text of an address when the zero groups `base .. base + len` are compressed. */
  function Compressed(b: Address, base: nat, len: nat): string
    requires base + len <= 8
  {
    var w := Words(b);
    if EmbedsIPv4(w, base, len) then
      "::" + (if len == 5 then Join([w[5]]) + ":" else "") + QuadText(b[12..])
    else Join(w[..base]) + "::" + Join(w[base + len..])
  }

  /** The text the printer gives an address. */
  function Ntop6(b: Address): string {
    var w := Words(b);
    var base := LeftmostLongest(w);
    if RunAt(w, base) < 2 then Join(w) else Compressed(b, base, RunAt(w, base))
  }

  /**
    What the in-place shift makes of the bytes read when `::` was met after `gap` of them.
    With all sixteen bytes read, source and target of every move are the same cell, which is
    then cleared.
   */
  function Opened(out: seq<octet>, gap: nat): (b: Address)
    requires gap <= |out| <= 16
  {
    out[..gap] + Zeros(16 - |out|) + (if |out| == 16 then Zeros(16 - gap) else out[gap..])
  }

  function Zeros(n: nat): seq<octet> { seq(n, _ => 0) }

  /** End of the text: flush a pending group, open the gap, and insist on sixteen bytes. */
  function Finish(out: seq<octet>, gap: Option<nat>, sawDigit: bool, val: word): Option<Address>
    requires |out| <= 16
    requires gap.Some? ==> gap.value <= |out|
  {
    if sawDigit && |out| + 2 > 16 then None
    else
      var all := if sawDigit then out + WordBytes(val) else out;
      if gap.Some? then Some(Opened(all, gap.value))
      else if |all| == 16 then Some(all) else None
  }

  /** The rest of an IPv6 parse; `token` is the text from the start of the current group. */
  function Scan6(token: string, text: string, out: seq<octet>, gap: Option<nat>, sawDigit: bool, val: word)
    : Option<Address>
    requires |out| <= 16
    requires gap.Some? ==> gap.value <= |out|
    decreases |text|
  {
    if text == "" then Finish(out, gap, sawDigit, val)
    else if IsHex(text[0]) then
      var next := val * 16 + DigitValue(text[0]);
      if next > 0xffff then None else Scan6(token, text[1..], out, gap, true, next)
    else if text[0] == ':' then
      if !sawDigit then
        if gap.Some? then None else Scan6(text[1..], text[1..], out, Some(|out|), false, val)
      else if |out| + 2 > 16 then None
      else Scan6(text[1..], text[1..], out + WordBytes(val), gap, false, 0)
    else if text[0] == '.' && |out| + 4 <= 16 && Pton4(token).Some? then
      Finish(out + Pton4(token).value, gap, false, val)
    else None
  }

  /** The bytes of a textual IPv6 address, or nothing if the parser refuses the text. */
  function Pton6(text: string): Option<Address> {
    if |text| > 0 && text[0] == ':' then
      if |text| > 1 && text[1] == ':' then Scan6(text[1..], text[1..], [], None, false, 0) else None
    else Scan6(text, text, [], None, false, 0)
  }
}
