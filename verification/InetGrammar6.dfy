/**
  Exactly which texts the IPv6 parser accepts and what it makes of them, and
  the round trip from an address through its text.
 */
module InetGrammar6 {
  import opened Common
  import opened Numerals
  import opened InetText
  import opened InetGrammar

  /** How a text may end: after a colon, with a group, or with a dotted quad. */
  datatype Tail = NoTail | GroupTail(group: string) | QuadTail(text: string, bytes: Quad)

  /** A text taken apart: groups that end in a colon, perhaps an empty one (the `::`), more groups, the tail. */
  datatype Form = Form(left: seq<string>, gap: bool, right: seq<string>, tail: Tail)

  /** A hexadecimal number of one or more digits, up to ffff; leading zeros are allowed. */
  predicate IsGroup(g: string) { g != "" && HexDigits(g) && Value(g, 16) <= 0xffff }

  predicate AllGroups(gs: seq<string>) { forall i :: 0 <= i < |gs| ==> IsGroup(gs[i]) }

  ghost predicate IsTail(t: Tail) {
    match t
    case NoTail => true
    case GroupTail(g) => IsGroup(g)
    case QuadTail(text, bytes) => IsDotted(text, bytes)
  }

  ghost predicate IsForm(f: Form) {
    AllGroups(f.left) && AllGroups(f.right) && IsTail(f.tail) && (f.gap || f.right == [])
  }

  function ColonEach(gs: seq<string>): string {
    if gs == [] then "" else gs[0] + (":" + ColonEach(gs[1..]))
  }

  function TailText(t: Tail): string {
    match t
    case NoTail => ""
    case GroupTail(g) => g
    case QuadTail(text, _) => text
  }

  function Rest(f: Form): string {
    ColonEach(f.left) + ((if f.gap then ":" else "") + (ColonEach(f.right) + TailText(f.tail)))
  }

  /** The text of a form; a leading `::` has one colon more than an inner one leaves. */
  function Text(f: Form): string {
    if f.gap && f.left == [] then ":" + Rest(f) else Rest(f)
  }

  function GroupBytes(gs: seq<string>): (b: seq<octet>)
    requires AllGroups(gs)
    ensures |b| == 2 * |gs|
  {
    if gs == [] then [] else WordBytes(Value(gs[0], 16)) + GroupBytes(gs[1..])
  }

  ghost function TailBytes(t: Tail): (b: seq<octet>)
    requires IsTail(t)
  {
    match t
    case NoTail => []
    case GroupTail(g) => WordBytes(Value(g, 16))
    case QuadTail(_, bytes) => bytes
  }

  /** The address the bytes read make: with a gap at most sixteen are wanted, without one exactly sixteen. */
  function Filled(all: seq<octet>, gap: Option<nat>): Option<Address>
    requires gap.Some? ==> gap.value <= |all|
  {
    if |all| > 16 then None
    else if gap.Some? then Some(Opened(all, gap.value))
    else if |all| == 16 then Some(all) else None
  }

  /** The bytes a text denotes after `out` has been read, with a gap perhaps met before. */
  ghost function Meaning(out: seq<octet>, gap: Option<nat>, f: Form): Option<Address>
    requires IsForm(f)
    requires gap.Some? ==> gap.value <= |out|
  {
    var left := out + GroupBytes(f.left);
    var all := left + GroupBytes(f.right) + TailBytes(f.tail);
    if f.gap && gap.Some? then None else Filled(all, if f.gap then Some(|left|) else gap)
  }

  /** The meaning of groups and a tail, without a gap of their own. */
  lemma MeaningOfGroups(out: seq<octet>, gap: Option<nat>, left: seq<string>, t: Tail)
    requires AllGroups(left) && IsTail(t)
    requires gap.Some? ==> gap.value <= |out|
    ensures Meaning(out, gap, Form(left, false, [], t)) == Filled(out + GroupBytes(left) + TailBytes(t), gap)
  {
    hide TailBytes, IsTail, Filled;
    var all := out + GroupBytes(left);
    assert all + GroupBytes([]) == all;
  }

  /** The meaning of a tail alone. */
  lemma MeaningOfTail(out: seq<octet>, gap: Option<nat>, t: Tail)
    requires IsTail(t)
    requires gap.Some? ==> gap.value <= |out|
    ensures Meaning(out, gap, Form([], false, [], t)) == Filled(out + TailBytes(t), gap)
  {
    hide TailBytes, IsTail, Filled, Meaning;
    MeaningOfGroups(out, gap, [], t);
    assert out + GroupBytes([]) == out;
  }

  /** The meaning of a form with a gap. */
  lemma MeaningOfGap(out: seq<octet>, left: seq<string>, right: seq<string>, t: Tail)
    requires AllGroups(left) && AllGroups(right) && IsTail(t)
    ensures Meaning(out, None, Form(left, true, right, t))
         == Filled(out + GroupBytes(left) + GroupBytes(right) + TailBytes(t), Some(|out| + 2 * |left|))
  {
    hide TailBytes, IsTail, Filled, AllGroups;
  }

  lemma FinishFills(out: seq<octet>, gap: Option<nat>, sawDigit: bool, val: word)
    requires |out| <= 16
    requires gap.Some? ==> gap.value <= |out|
    ensures Finish(out, gap, sawDigit, val) == Filled(if sawDigit then out + WordBytes(val) else out, gap)
  {}

  // ---------------------------------------------------------------- single steps of the scan

  lemma EndIsRead(token: string, out: seq<octet>, gap: Option<nat>, sawDigit: bool, val: word)
    requires |out| <= 16 && (gap.Some? ==> gap.value <= |out|)
    ensures Scan6(token, "", out, gap, sawDigit, val) == Filled(if sawDigit then out + WordBytes(val) else out, gap)
  {
    hide Filled, Finish, WordBytes;
    FinishFills(out, gap, sawDigit, val);
  }

  /** One digit of a group. */
  lemma DigitIsRead(token: string, text: string, out: seq<octet>, gap: Option<nat>, sawDigit: bool, val: word)
    requires |out| <= 16 && (gap.Some? ==> gap.value <= |out|)
    requires text != "" && IsHex(text[0])
    ensures var next := val * 16 + DigitValue(text[0]);
      Scan6(token, text, out, gap, sawDigit, val) == if next > 0xffff then None
        else Scan6(token, text[1..], out, gap, true, next)
  {
    hide Pton4, Finish, WordBytes, IsHex, DigitValue;
  }

  lemma GapIsRead(token: string, rest: string, out: seq<octet>, gap: Option<nat>)
    requires |out| <= 16 && (gap.Some? ==> gap.value <= |out|)
    ensures Scan6(token, ":" + rest, out, gap, false, 0) ==
      if gap.Some? then None else Scan6(rest, rest, out, Some(|out|), false, 0)
  {
    assert (":" + rest)[0] == ':' && (":" + rest)[1..] == rest;
  }

  lemma ColonIsRead(token: string, rest: string, out: seq<octet>, gap: Option<nat>, val: word)
    requires |out| <= 16 && (gap.Some? ==> gap.value <= |out|)
    ensures Scan6(token, ":" + rest, out, gap, true, val) ==
      if |out| > 14 then None else Scan6(rest, rest, out + WordBytes(val), gap, false, 0)
  {
    assert (":" + rest)[0] == ':' && (":" + rest)[1..] == rest;
  }

  lemma DotIsRead(token: string, text: string, out: seq<octet>, gap: Option<nat>, sawDigit: bool, val: word)
    requires |out| <= 16 && (gap.Some? ==> gap.value <= |out|)
    requires text != "" && text[0] == '.'
    ensures Scan6(token, text, out, gap, sawDigit, val) ==
      if |out| + 4 <= 16 && Pton4(token).Some? then Filled(out + Pton4(token).value, gap) else None
  {
    hide Filled, Finish, WordBytes, Pton4;
    if |out| + 4 <= 16 && Pton4(token).Some? {
      FinishFills(out + Pton4(token).value, gap, false, val);
    }
  }

  // ---------------------------------------------------------------- every form is read

  lemma {:induction false} ScanGroupDigits(token: string, g: string, k: nat, rest: string, out: seq<octet>,
                                           gap: Option<nat>)
    requires HexDigits(g) && Value(g, 16) <= 0xffff && k <= |g|
    requires |out| <= 16 && (gap.Some? ==> gap.value <= |out|)
    requires Value(g[..k], 16) <= 0xffff
    ensures Scan6(token, g[k..] + rest, out, gap, k > 0, Value(g[..k], 16))
         == Scan6(token, rest, out, gap, g != "", Value(g, 16))
    decreases |g| - k
  {
    hide Scan6, DigitValue;
    if k == |g| {
      assert g[..k] == g && g[k..] + rest == rest;
    } else {
      var text := g[k..] + rest;
      assert text[0] == g[k] && text[1..] == g[k + 1..] + rest;
      PrefixDigit(g, k);
      DigitIsRead(token, text, out, gap, k > 0, Value(g[..k], 16));
      hide Value, HexDigits;
      ScanGroupDigits(token, g, k + 1, rest, out, gap);
    }
  }

  lemma PrefixDigit(g: string, k: nat)
    requires HexDigits(g) && k < |g|
    ensures Value(g[..k + 1], 16) == Value(g[..k], 16) * 16 + DigitValue(g[k]) <= Value(g, 16)
  {
    ValueOfPrefix(g, k + 1, 16);
    assert g[..k + 1][..k] == g[..k];
  }

  lemma GroupIsRead(token: string, g: string, rest: string, out: seq<octet>, gap: Option<nat>)
    requires HexDigits(g) && Value(g, 16) <= 0xffff
    requires |out| <= 16 && (gap.Some? ==> gap.value <= |out|)
    ensures Scan6(token, g + rest, out, gap, false, 0) == Scan6(token, rest, out, gap, g != "", Value(g, 16))
  {
    assert g[0..] == g && g[..0] == "";
    ScanGroupDigits(token, g, 0, rest, out, gap);
  }

  lemma GroupColonIsRead(g: string, rest: string, out: seq<octet>, gap: Option<nat>)
    requires IsGroup(g)
    requires |out| <= 16 && (gap.Some? ==> gap.value <= |out|)
    ensures var text := g + (":" + rest);
      Scan6(text, text, out, gap, false, 0) ==
      if |out| > 14 then None else Scan6(rest, rest, out + WordBytes(Value(g, 16)), gap, false, 0)
  {
    hide Scan6, WordBytes, HexDigits, Value;
    var text := g + (":" + rest);
    GroupIsRead(text, g, ":" + rest, out, gap);
    ColonIsRead(text, rest, out, gap, Value(g, 16));
  }

  lemma {:induction false} GroupsAreRead(gs: seq<string>, rest: string, out: seq<octet>, gap: Option<nat>)
    requires AllGroups(gs)
    requires |out| <= 16 && (gap.Some? ==> gap.value <= |out|)
    ensures var text := ColonEach(gs) + rest;
      Scan6(text, text, out, gap, false, 0) ==
      if |out| + 2 * |gs| > 16 then None else Scan6(rest, rest, out + GroupBytes(gs), gap, false, 0)
    decreases |gs|
  {
    hide Scan6, Value, WordBytes, HexDigits;
    var text := ColonEach(gs) + rest;
    if gs == [] {
      assert text == rest && out + GroupBytes(gs) == out;
    } else {
      var more := ColonEach(gs[1..]) + rest;
      assert text == gs[0] + (":" + more);
      GroupColonIsRead(gs[0], more, out, gap);
      if |out| <= 14 {
        var next := out + WordBytes(Value(gs[0], 16));
        GroupsAreRead(gs[1..], rest, next, gap);
        assert next + GroupBytes(gs[1..]) == out + GroupBytes(gs);
      }
    }
  }

  /** The digits of an octet, read as hexadecimal on the way to the dot, stay within a group. */
  lemma {:induction false} DecimalAsHex(d: string)
    requires DecimalDigits(d) && HexDigits(d)
    ensures Value(d, 10) <= 9 ==> Value(d, 16) <= 9
    ensures Value(d, 10) <= 99 ==> Value(d, 16) <= 0x99
    ensures Value(d, 10) <= 999 ==> Value(d, 16) <= 0x999
  {
    if d != "" {
      DecimalAsHex(d[..|d| - 1]);
    }
  }

  /** The first octet of a dotted quad, read as hexadecimal on the way to the dot. */
  lemma DottedStarts(q: string, b: Quad) returns (k: nat)
    requires IsDotted(q, b)
    ensures k < |q| && q[k] == '.' && HexDigits(q[..k]) && Value(q[..k], 16) <= 0xffff
  {
    k := SplitDotted(q, b);
    hide IsDotted;
    DecimalAsHex(q[..k]);
  }

  lemma QuadIsRead(q: string, b: Quad, out: seq<octet>, gap: Option<nat>)
    requires IsDotted(q, b)
    requires |out| <= 16 && (gap.Some? ==> gap.value <= |out|)
    ensures Scan6(q, q, out, gap, false, 0) == Filled(out + b, gap)
  {
    hide Scan6, Pton4, IsDotted, Value, HexDigits;
    var k := DottedStarts(q, b);
    var rest := q[k..];
    assert q[..k] + rest == q;
    GroupIsRead(q, q[..k], rest, out, gap);
    Pton4Exact(q, b);
    DotIsRead(q, rest, out, gap, q[..k] != "", Value(q[..k], 16));
  }

  lemma TailIsRead(t: Tail, out: seq<octet>, gap: Option<nat>)
    requires IsTail(t)
    requires |out| <= 16 && (gap.Some? ==> gap.value <= |out|)
    ensures var text := TailText(t);
      Scan6(text, text, out, gap, false, 0) == Filled(out + TailBytes(t), gap)
  {
    hide Scan6, Filled, IsDotted, Value, HexDigits, WordBytes;
    match t
    case NoTail =>
      EndIsRead("", out, gap, false, 0);
      assert out + [] == out;
    case GroupTail(g) =>
      assert g + "" == g;
      GroupIsRead(g, g, "", out, gap);
      EndIsRead(g, out, gap, true, Value(g, 16));
    case QuadTail(q, b) =>
      QuadIsRead(q, b, out, gap);
  }

  /** Reading groups and a tail. */
  lemma GroupsAndTailAreRead(gs: seq<string>, t: Tail, out: seq<octet>, gap: Option<nat>)
    requires AllGroups(gs) && IsTail(t)
    requires |out| <= 16 && (gap.Some? ==> gap.value <= |out|)
    ensures var text := ColonEach(gs) + TailText(t);
      Scan6(text, text, out, gap, false, 0) == Filled(out + GroupBytes(gs) + TailBytes(t), gap)
  {
    hide Scan6, TailBytes, TailText, IsTail, ColonEach, AllGroups, GroupBytes;
    GroupsAreRead(gs, TailText(t), out, gap);
    if |out| + 2 * |gs| <= 16 {
      TailIsRead(t, out + GroupBytes(gs), gap);
    }
  }

  /** Reading the rest of any form gives its meaning. */
  lemma FormIsRead(f: Form)
    requires IsForm(f)
    ensures Scan6(Rest(f), Rest(f), [], None, false, 0) == Meaning([], None, f)
  {
    if f.gap {
      GapFormIsRead(f.left, f.right, f.tail);
    } else {
      PlainFormIsRead(f.left, f.tail);
    }
  }

  lemma PlainFormIsRead(left: seq<string>, t: Tail)
    requires AllGroups(left) && IsTail(t)
    ensures var text := Rest(Form(left, false, [], t));
      Scan6(text, text, [], None, false, 0) == Meaning([], None, Form(left, false, [], t))
  {
    hide Scan6, Filled, Meaning, TailBytes, TailText, IsTail, AllGroups, GroupBytes;
    PlainRest(left, t);
    GroupsAndTailAreRead(left, t, [], None);
    MeaningOfGroups([], None, left, t);
  }

  lemma PlainRest(left: seq<string>, t: Tail)
    ensures Rest(Form(left, false, [], t)) == ColonEach(left) + TailText(t)
  {
    hide TailText;
    assert "" + ("" + TailText(t)) == TailText(t);
  }

  lemma GapFormIsRead(left: seq<string>, right: seq<string>, t: Tail)
    requires AllGroups(left) && AllGroups(right) && IsTail(t)
    ensures var text := Rest(Form(left, true, right, t));
      Scan6(text, text, [], None, false, 0) == Meaning([], None, Form(left, true, right, t))
  {
    hide Scan6, Meaning, TailBytes, TailText, IsTail, AllGroups, ColonEach, GroupBytes, Opened;
    var more := ColonEach(right) + TailText(t);
    var l := GroupBytes(left);
    assert [] + l == l;
    GroupsAreRead(left, ":" + more, [], None);
    MeaningOfGap([], left, right, t);
    if |l| <= 16 {
      GapIsRead(":" + more, more, l, None);
      GroupsAndTailAreRead(right, t, l, Some(|l|));
    }
  }

  // ---------------------------------------------------------------- whatever is read is a form

  /** Putting a group and a colon in front of a form. */
  lemma ConsGroup(g: string, text: string, f: Form, out: seq<octet>, gap: Option<nat>) returns (h: Form)
    requires IsGroup(g) && text != "" && text[0] == ':' && |out| <= 14
    requires IsForm(f) && text[1..] == Rest(f)
    requires gap.Some? ==> gap.value <= |out|
    ensures IsForm(h) && g + text == Rest(h) && h.left != []
    ensures Meaning(out, gap, h) == Meaning(out + WordBytes(Value(g, 16)), gap, f)
  {
    h := f.(left := [g] + f.left);
    assert text == ":" + text[1..];
    GroupInFront(g, f);
    hide IsTail, IsGroup, GroupBytes, TailBytes, Filled, WordBytes, Value, Rest;
    var b := WordBytes(Value(g, 16));
    assert out + (b + GroupBytes(f.left)) == out + b + GroupBytes(f.left);
  }

  lemma GroupInFront(g: string, f: Form)
    requires IsGroup(g) && AllGroups(f.left)
    ensures var h := f.(left := [g] + f.left);
      Rest(h) == g + (":" + Rest(f)) && AllGroups(h.left)
        && GroupBytes(h.left) == WordBytes(Value(g, 16)) + GroupBytes(f.left)
  {
    hide Value, HexDigits, WordBytes, TailText;
    var h := f.(left := [g] + f.left);
    assert h.left[1..] == f.left;
    RestAfterGroups(g, ColonEach(f.left), (if f.gap then ":" else "") + (ColonEach(f.right) + TailText(f.tail)));
  }

  lemma RestAfterGroups(g: string, groups: string, more: string)
    ensures g + (":" + groups) + more == g + (":" + (groups + more))
  {}

  /** Putting the empty group of a `::` in front of a form. */
  lemma ConsGap(text: string, f: Form, out: seq<octet>) returns (h: Form)
    requires text != "" && text[0] == ':' && |out| <= 16
    requires IsForm(f) && !f.gap && text[1..] == Rest(f)
    ensures IsForm(h) && h.gap && h.left == [] && text == Rest(h)
    ensures Meaning(out, None, h) == Meaning(out, Some(|out|), f)
  {
    h := Form([], true, f.left, f.tail);
    hide IsTail, TailBytes, TailText, Filled, AllGroups, Meaning;
    assert f == Form(f.left, false, [], f.tail);
    PlainRest(f.left, f.tail);
    assert text == ":" + text[1..];
    MeaningOfGap(out, [], f.left, f.tail);
    MeaningOfGroups(out, Some(|out|), f.left, f.tail);
    assert out + GroupBytes([]) == out;
  }

  /** Ending a form with the text still open. */
  lemma LastGroup(p: string, out: seq<octet>, gap: Option<nat>) returns (h: Form)
    requires p == "" || IsGroup(p)
    requires |out| <= 16 && (gap.Some? ==> gap.value <= |out|)
    ensures IsForm(h) && p == Rest(h) && !h.gap && h.left == []
    ensures Meaning(out, gap, h) == Filled(if p == "" then out else out + WordBytes(Value(p, 16)), gap)
  {
    h := Form([], false, [], if p == "" then NoTail else GroupTail(p));
    hide Filled, Meaning, Value, HexDigits, WordBytes;
    MeaningOfTail(out, gap, h.tail);
    PlainRest([], h.tail);
    assert out + [] == out;
  }

  lemma LastQuad(q: string, b: Quad, out: seq<octet>, gap: Option<nat>) returns (h: Form)
    requires IsDotted(q, b)
    requires |out| <= 12 && (gap.Some? ==> gap.value <= |out|)
    ensures IsForm(h) && q == Rest(h) && !h.gap && h.left == []
    ensures Meaning(out, gap, h) == Filled(out + b, gap)
  {
    h := Form([], false, [], QuadTail(q, b));
    hide Filled, Meaning, IsDotted;
    MeaningOfTail(out, gap, h.tail);
    PlainRest([], h.tail);
  }

  lemma AppendDigit(p: string, c: char)
    requires HexDigits(p) && IsHex(c)
    ensures HexDigits(p + [c]) && Value(p + [c], 16) == Value(p, 16) * 16 + DigitValue(c)
  {
    assert (p + [c])[..|p|] == p;
  }

  /** A digit that the scan accepts extends the pending group. */
  lemma DigitPends(p: string, text: string, out: seq<octet>, gap: Option<nat>, token: string)
    requires HexDigits(p) && Value(p, 16) <= 0xffff
    requires |out| <= 16 && (gap.Some? ==> gap.value <= |out|)
    requires text != "" && IsHex(text[0])
    requires Scan6(token, text, out, gap, p != "", Value(p, 16)).Some?
    ensures var q := p + [text[0]];
      HexDigits(q) && Value(q, 16) <= 0xffff &&
      Scan6(token, text, out, gap, p != "", Value(p, 16)) == Scan6(token, text[1..], out, gap, true, Value(q, 16))
  {
    AppendDigit(p, text[0]);
    hide *;
    DigitIsRead(token, text, out, gap, p != "", Value(p, 16));
  }

  /** What ends a group, if the scan goes on or succeeds. */
  lemma AfterDigits(token: string, text: string, out: seq<octet>, gap: Option<nat>, sawDigit: bool, val: word)
    requires |out| <= 16 && (gap.Some? ==> gap.value <= |out|)
    requires text != "" && !IsHex(text[0])
    requires Scan6(token, text, out, gap, sawDigit, val).Some?
    ensures text[0] == ':' || text[0] == '.'
    ensures text[0] == ':' ==> if sawDigit then |out| <= 14 else gap.None?
    ensures text[0] == '.' ==> |out| <= 12 && Pton4(token).Some?
  {
    hide Pton4, Finish, WordBytes;
  }

  /** The scan with the digits `p` of a group pending: an accepted text is a form with that meaning. */
  lemma {:induction false} ReadIsForm(p: string, text: string, out: seq<octet>, gap: Option<nat>, b: Address)
    returns (f: Form)
    requires HexDigits(p) && Value(p, 16) <= 0xffff
    requires |out| <= 16 && (gap.Some? ==> gap.value <= |out|)
    requires Scan6(p + text, text, out, gap, p != "", Value(p, 16)) == Some(b)
    ensures IsForm(f) && p + text == Rest(f)
    ensures f.gap && f.left == [] ==> p == "" && text != "" && text[0] == ':'
    ensures Meaning(out, gap, f) == Some(b)
    decreases |text|, 1
  {
    if text == "" {
      hide Scan6, Meaning, Filled, Rest, IsForm, WordBytes, HexDigits, Value;
      f := LastGroup(p, out, gap);
      EndIsRead(p + text, out, gap, p != "", Value(p, 16));
      assert p + text == p;
    } else if IsHex(text[0]) {
      hide Scan6, Meaning, Rest, IsForm, HexDigits, Value;
      DigitMoves(p, text);
      DigitPends(p, text, out, gap, p + text);
      f := ReadIsForm(p + [text[0]], text[1..], out, gap, b);
    } else {
      f := GroupEndIsForm(p, text, out, gap, b);
    }
  }

  /** The same where the pending group ends. */
  lemma {:induction false} GroupEndIsForm(p: string, text: string, out: seq<octet>, gap: Option<nat>, b: Address)
    returns (f: Form)
    requires HexDigits(p) && Value(p, 16) <= 0xffff
    requires |out| <= 16 && (gap.Some? ==> gap.value <= |out|)
    requires text != "" && !IsHex(text[0])
    requires Scan6(p + text, text, out, gap, p != "", Value(p, 16)) == Some(b)
    ensures IsForm(f) && p + text == Rest(f)
    ensures f.gap && f.left == [] ==> p == "" && text[0] == ':'
    ensures Meaning(out, gap, f) == Some(b)
    decreases |text|, 0
  {
    EmptyGroup();
    hide Scan6, Meaning, Rest, IsForm, Pton4, IsDotted, Filled, WordBytes, Value, HexDigits;
    AfterDigits(p + text, text, out, gap, p != "", Value(p, 16));
    var rest := text[1..];
    assert "" + rest == rest;
    if text[0] == '.' {
      DotIsRead(p + text, text, out, gap, p != "", Value(p, 16));
      Pton4Exact(p + text, Pton4(p + text).value);
      f := LastQuad(p + text, Pton4(p + text).value, out, gap);
    } else if p == "" {
      assert text == ":" + rest && p + text == text;
      GapIsRead(text, rest, out, gap);
      f := ReadIsForm("", rest, out, Some(|out|), b);
      GapOnlyOnce(f, out, Some(|out|));
      f := ConsGap(text, f, out);
    } else {
      assert text == ":" + rest;
      ColonIsRead(p + text, rest, out, gap, Value(p, 16));
      f := ReadIsForm("", rest, out + WordBytes(Value(p, 16)), gap, b);
      f := ConsGroup(p, text, f, out, gap);
    }
  }

  lemma EmptyGroup()
    ensures HexDigits("") && Value("", 16) == 0
  {}

  lemma GapOnlyOnce(f: Form, out: seq<octet>, gap: Option<nat>)
    requires IsForm(f) && (gap.Some? ==> gap.value <= |out|)
    requires gap.Some? && Meaning(out, gap, f).Some?
    ensures !f.gap
  {}

  // ---------------------------------------------------------------- the parser

  /** `text` is spelt as the form `f`, and `f` denotes the address `b`. */
  ghost predicate Denotes(f: Form, text: string, b: Address) {
    IsForm(f) && text == Text(f) && Meaning([], None, f) == Some(b)
  }

  lemma DenotedIsAccepted(f: Form, text: string, b: Address)
    requires Denotes(f, text, b)
    ensures Pton6(text) == Some(b)
  {
    FormIsRead(f);
    if f.gap && f.left == [] {
      assert text[1..] == Rest(f);
      assert Rest(f) == ":" + (ColonEach(f.right) + TailText(f.tail));
    } else {
      RestStart(f);
    }
  }

  /** Apart from a leading `::`, and the empty text, a form starts with a digit. */
  lemma RestStart(f: Form)
    requires IsForm(f) && (f.gap ==> f.left != [])
    ensures Rest(f) != "" ==> Rest(f)[0] != ':'
  {
    if f.left != [] {
      assert Rest(f)[0] == f.left[0][0];
    } else {
      assert Rest(f) == TailText(f.tail);
      if f.tail.QuadTail? {
        var k := SplitDotted(f.tail.text, f.tail.bytes);
        assert f.tail.text[..k][0] == f.tail.text[0];
      }
    }
  }

  lemma AcceptedIsDenoted(text: string, b: Address) returns (f: Form)
    requires Pton6(text) == Some(b)
    ensures Denotes(f, text, b)
  {
    var body := if text != "" && text[0] == ':' then text[1..] else text;
    assert "" + body == body && Value("", 16) == 0;
    f := ReadIsForm("", body, [], None, b);
    if text != "" && text[0] == ':' {
      assert body[0] == ':';
      if !(f.gap && f.left == []) {
        RestStart(f);
      }
      assert text == ":" + body;
    }
  }

  /**
    The IPv6 parser, exactly: it accepts a text just when the text is spelt as some form whose
    groups and tail fill the sixteen bytes, or do not exceed them if there is a `::`, and the
    address is the one that form denotes.
   */
  lemma Pton6Exact(text: string, b: Address)
    ensures Pton6(text) == Some(b) <==> exists f :: Denotes(f, text, b)
  {
    if Pton6(text) == Some(b) {
      var f := AcceptedIsDenoted(text, b);
    }
    if f :| Denotes(f, text, b) {
      DenotedIsAccepted(f, text, b);
    }
  }
}
