/** The address parsers as the C code runs them, over byte buffers. */
module InetParse {
  import opened Common
  import opened Numerals
  import opened InetText

  /** `inet_pton4`: writes four octets to `dst` at `at`, or leaves `dst` alone. */
  method InetPton4(src: string, dst: array<octet>, at: nat) returns (ok: bool)
    requires at + INADDRSZ <= dst.Length
    modifies dst
    ensures ok == Pton4(src).Some?
    ensures dst[..] == if ok then old(dst[..at]) + Pton4(src).value + old(dst[at + INADDRSZ..]) else old(dst[..])
  {
    var sawDigit, octets := false, 0;
    var tmp, tp := new octet[INADDRSZ], 0;
    tmp[0] := 0;
    assert tmp[..1] == [0] && src[0..] == src;
    var i := 0;
    while i < |src|
      invariant 0 <= i <= |src| && dst[..] == old(dst[..])
      invariant tp + 1 == octets + (if sawDigit then 0 else 1) <= 4
      invariant Pton4(src) == Scan4(src[i..], tmp[..tp + 1], sawDigit, octets)
    {
      var ch := src[i];
      assert src[i..][1..] == src[i + 1..];
      i := i + 1;
      if IsDecimal(ch) {
        var next := tmp[tp] * 10 + DigitValue(ch);
        if next > 255 {
          return false;
        }
        ghost var was := tmp[..tp + 1];
        tmp[tp] := next;
        assert tmp[..tp + 1] == was[tp := tmp[tp]];
        if !sawDigit {
          octets := octets + 1;
          sawDigit := true;
        }
      } else if ch == '.' && sawDigit {
        if octets == 4 {
          return false;
        }
        ghost var was := tmp[..tp + 1];
        tp := tp + 1;
        tmp[tp] := 0;
        sawDigit := false;
        assert tmp[..tp + 1] == was + [0];
      } else {
        return false;
      }
    }
    if octets < 4 {
      return false;
    }
    forall k | 0 <= k < INADDRSZ {
      dst[at + k] := tmp[k];
    }
    assert tmp[..4] == Pton4(src).value;
    assert dst[..] == old(dst[..at]) + tmp[..4] + old(dst[at + INADDRSZ..]);
    return true;
  }

  /** The buffer when the last `done` of the bytes after `gap` have moved to the end. */
  ghost predicate Shifted(now: seq<octet>, was: seq<octet>, gap: nat, tp: nat, done: nat) {
    && |now| == |was| == IN6ADDRSZ && gap + done <= tp <= IN6ADDRSZ
    && (forall k :: 0 <= k < tp - done ==> now[k] == was[k])
    && (forall k :: tp - done <= k < IN6ADDRSZ - done ==> now[k] == 0)
    && forall k :: IN6ADDRSZ - done <= k < IN6ADDRSZ ==>
         now[k] == if tp == IN6ADDRSZ then 0 else was[k - (IN6ADDRSZ - tp)]
  }

  lemma NothingShifted(was: seq<octet>, gap: nat, tp: nat)
    requires |was| == IN6ADDRSZ && gap <= tp <= IN6ADDRSZ && forall k :: tp <= k < IN6ADDRSZ ==> was[k] == 0
    ensures Shifted(was, was, gap, tp, 0)
  {}

  lemma OneShifted(now: seq<octet>, was: seq<octet>, gap: nat, tp: nat, done: nat)
    requires Shifted(now, was, gap, tp, done) && gap + done < tp
    ensures var to, from := IN6ADDRSZ - done - 1, tp - done - 1;
      to < |now| && from < |now| && Shifted(now[to := now[from]][from := 0], was, gap, tp, done + 1)
  {}

  lemma AllShifted(now: seq<octet>, was: seq<octet>, gap: nat, tp: nat)
    requires gap <= tp && Shifted(now, was, gap, tp, tp - gap)
    ensures now == Opened(was[..tp], gap)
  {
    var goal := Opened(was[..tp], gap);
    assert forall k :: 0 <= k < IN6ADDRSZ ==> now[k] == goal[k];
  }

  /** The shift that opens the gap: the bytes from `gap` to `tp` move to the end, last first. */
  method OpenGap(tmp: array<octet>, gap: nat, tp: nat)
    requires tmp.Length == IN6ADDRSZ && gap <= tp <= IN6ADDRSZ
    requires forall k :: tp <= k < IN6ADDRSZ ==> tmp[k] == 0
    modifies tmp
    ensures tmp[..] == Opened(old(tmp[..tp]), gap)
  {
    hide Shifted, Opened;
    ghost var was := tmp[..];
    var n, endp := tp - gap, IN6ADDRSZ;
    var i := 1;
    NothingShifted(was, gap, tp);
    while i <= n
      invariant 1 <= i <= n + 1 && Shifted(tmp[..], was, gap, tp, i - 1)
    {
      ghost var now := tmp[..];
      OneShifted(now, was, gap, tp, i - 1);
      tmp[endp - i] := tmp[gap + n - i];
      tmp[gap + n - i] := 0;
      assert tmp[..] == now[endp - i := now[gap + n - i]][gap + n - i := 0];
      i := i + 1;
    }
    AllShifted(tmp[..], was, gap, tp);
    assert was[..tp] == old(tmp[..tp]);
  }

  /** Storing a group in network order. */
  method StoreWord(tmp: array<octet>, tp: nat, val: word)
    requires tp + 2 <= tmp.Length == IN6ADDRSZ
    modifies tmp
    ensures tmp[..] == old(tmp[..tp]) + WordBytes(val) + old(tmp[tp + 2..])
    ensures tmp[..tp + 2] == old(tmp[..tp]) + WordBytes(val)
  {
    tmp[tp], tmp[tp + 1] := val / 256, val % 256;
  }

  /** The gap marker `colonp`, -1 standing for the null pointer. */
  function Gap(colonp: int): Option<nat>
    requires -1 <= colonp
  {
    if colonp == -1 then None else Some(colonp)
  }

  /** The part of `inet_pton6` after the scan. */
  method FinishParse(tmp: array<octet>, start: nat, colonp: int, sawXdigit: bool, val: word, dst: array<octet>)
    returns (ok: bool)
    requires tmp != dst && dst.Length == tmp.Length == IN6ADDRSZ
    requires -1 <= colonp <= start <= IN6ADDRSZ
    requires forall k :: start <= k < IN6ADDRSZ ==> tmp[k] == 0
    modifies tmp, dst
    ensures var r := Finish(old(tmp[..start]), Gap(colonp), sawXdigit, val);
      ok == r.Some? && dst[..] == if ok then r.value else old(dst[..])
  {
    var tp, endp := start, IN6ADDRSZ;
    if sawXdigit {
      if tp + INT16SZ > endp {
        return false;
      }
      StoreWord(tmp, tp, val);
      tp := tp + INT16SZ;
    }
    if colonp != -1 {
      OpenGap(tmp, colonp, tp);
      tp := endp;
    }
    if tp != endp {
      return false;
    }
    forall k | 0 <= k < IN6ADDRSZ {
      dst[k] := tmp[k];
    }
    assert dst[..] == tmp[..] == tmp[..16];
    return true;
  }

  /** `inet_pton6`: writes sixteen octets to `dst`, or leaves `dst` alone. */
  method InetPton6(src: string, dst: array<octet>) returns (ok: bool)
    requires dst.Length == IN6ADDRSZ
    modifies dst
    ensures ok == Pton6(src).Some?
    ensures dst[..] == if ok then Pton6(src).value else old(dst[..])
  {
    hide Pton4, Finish, WordBytes, DigitValue;
    var tmp := new octet[IN6ADDRSZ](_ => 0);
    var tp, endp, colonp := 0, IN6ADDRSZ, -1;
    var i := 0;
    assert src[0..] == src;
    if |src| > 0 && src[0] == ':' {
      i := 1;
      if !(|src| > 1 && src[1] == ':') {
        return false;
      }
    }
    var curtok, sawXdigit, val: int := i, false, 0;
    assert tmp[..0] == [];
    while i < |src|
      invariant 0 <= curtok <= i <= |src| && dst[..] == old(dst[..])
      invariant 0 <= tp <= 16 && -1 <= colonp <= tp && 0 <= val <= 0xffff && (!sawXdigit ==> val == 0)
      invariant forall k :: tp <= k < 16 ==> tmp[k] == 0
      invariant Pton6(src) == Scan6(src[curtok..], src[i..], tmp[..tp], Gap(colonp), sawXdigit, val)
    {
      var ch := src[i];
      assert src[i..][0] == ch && src[i..][1..] == src[i + 1..];
      i := i + 1;
      if IsHex(ch) {
        val := val * 16 + DigitValue(ch);
        if val > 0xffff {
          return false;
        }
        sawXdigit := true;
      } else if ch == ':' {
        curtok := i;
        if !sawXdigit {
          if colonp != -1 {
            return false;
          }
          colonp := tp;
        } else {
          if tp + INT16SZ > endp {
            return false;
          }
          StoreWord(tmp, tp, val);
          tp := tp + INT16SZ;
          sawXdigit, val := false, 0;
        }
      } else if ch == '.' && tp + INADDRSZ <= endp {
        ghost var was := tmp[..];
        var quad := InetPton4(src[curtok..], tmp, tp);
        if !quad {
          return false;
        }
        assert tmp[..tp + 4] == was[..tp] + Pton4(src[curtok..]).value;
        assert forall k :: tp + 4 <= k < 16 ==> tmp[k] == was[k];
        tp := tp + INADDRSZ;
        sawXdigit := false;
        break;
      } else {
        return false;
      }
    }
    ok := FinishParse(tmp, tp, colonp, sawXdigit, val, dst);
  }
}
