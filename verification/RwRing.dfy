/**
  The single-producer single-consumer ring: two 32-bit indices that are only
  ever increased, masked to find a slot.
 */
module RwRing {
  import opened Common

  const U32 := 0x1_0000_0000

  /** The largest ring size, `RTE_RING_SZ_MASK`. */
  const SIZE_MASK := 0x0fff_ffff

  // ---------------------------------------------------------------- bits and powers of two

  function Pow2(k: nat): (p: nat)
    ensures p >= 1
  {
    if k == 0 then 1 else 2 * Pow2(k - 1)
  }

  /** The `&` operator on unsigned numbers. */
  function BitAnd(a: nat, b: nat): (c: nat)
  {
    if a == 0 || b == 0 then 0 else 2 * BitAnd(a / 2, b / 2) + (if a % 2 == 1 && b % 2 == 1 then 1 else 0)
  }

  lemma ModIs(x: int, q: int, m: int, r: int)
    requires 0 <= r < m && x == q * m + r
    ensures x % m == r
  {
    var d := x / m - q;
    assert x == (x / m) * m + x % m;
    assert d * m == r - x % m by {
      assert d * m == (x / m) * m - q * m;
    }
    MulBounds(d, m);
  }

  lemma MulBounds(d: int, m: int)
    requires m >= 1
    ensures d >= 1 ==> d * m >= m
    ensures d <= -1 ==> d * m <= -m
    ensures d == 0 ==> d * m == 0
  {}

  /** Masking with `2^k - 1` is the remainder by `2^k`. */
  lemma {:induction false} MaskIsMod(x: nat, k: nat)
    ensures BitAnd(x, Pow2(k) - 1) == x % Pow2(k)
  {
    if k == 0 {
      assert Pow2(0) == 1;
    } else {
      var p := Pow2(k - 1);
      assert Pow2(k) == 2 * p;
      hide *;
      MaskIsMod(x / 2, k - 1);
      MaskStep(x, p);
      ModDouble(x, p);
    }
  }

  lemma MaskStep(x: nat, p: nat)
    requires p >= 1
    ensures BitAnd(x, 2 * p - 1) == 2 * BitAnd(x / 2, p - 1) + x % 2
  {
    assert (2 * p - 1) / 2 == p - 1 && (2 * p - 1) % 2 == 1;
  }

  lemma ModDouble(x: nat, p: nat)
    requires p >= 1
    ensures x % (2 * p) == 2 * (x / 2 % p) + x % 2
  {
    var h := x / 2;
    var q, r := h / p, h % p;
    assert h == q * p + r;
    assert q * (2 * p) == 2 * (q * p);
    ModIs(x, q, 2 * p, 2 * r + x % 2);
  }

  lemma {:induction false} AndSelf(x: nat)
    ensures BitAnd(x, x) == x
  {
    if x != 0 {
      AndSelf(x / 2);
    }
  }

  ghost predicate IsPow2(x: nat) { exists k: nat :: x == Pow2(k) }

  lemma OddIsNone(x: nat)
    requires x > 1 && x % 2 == 1
    ensures !IsPow2(x) && BitAnd(x - 1, x) != 0
  {
    forall k: nat ensures x != Pow2(k) {
      assert k > 0 ==> Pow2(k) % 2 == 0;
    }
    AndSelf(x / 2);
    assert (x - 1) / 2 == x / 2;
  }

  lemma EvenIsHalf(x: nat)
    requires x > 0 && x % 2 == 0
    ensures IsPow2(x) <==> IsPow2(x / 2)
    ensures BitAnd(x - 1, x) == 2 * BitAnd(x / 2 - 1, x / 2)
  {
    assert (x - 1) / 2 == x / 2 - 1;
    if IsPow2(x) {
      var k: nat :| x == Pow2(k);
      assert k > 0;
      var j: nat := k - 1;
      assert x / 2 == Pow2(j);
    }
    if IsPow2(x / 2) {
      var k: nat :| x / 2 == Pow2(k);
      assert x == Pow2(k + 1);
    }
  }

  /** The `POWEROF2` test on a positive number holds of the powers of two and nothing else. */
  lemma {:induction false} PowerOfTwoTest(x: nat)
    requires x >= 1
    ensures BitAnd(x - 1, x) == 0 <==> IsPow2(x)
  {
    if x == 1 {
      assert x == Pow2(0);
    } else {
      hide *;
      if x % 2 == 1 {
        OddIsNone(x);
      } else {
        EvenIsHalf(x);
        PowerOfTwoTest(x / 2);
      }
    }
  }

  lemma {:induction false} Pow2Below(k: nat, n: nat)
    requires Pow2(k) < Pow2(n)
    ensures k < n && Pow2(n) == Pow2(k) * Pow2(n - k)
    decreases k
  {
    if k > 0 {
      assert n > 0;
      Pow2Below(k - 1, n - 1);
      assert 2 * (Pow2(k - 1) * Pow2(n - k)) == Pow2(k) * Pow2(n - k);
    } else {
      assert n > 0 && Pow2(0) == 1;
    }
  }

  lemma Pow2Of32()
    ensures Pow2(32) == U32
  {
    assert Pow2(8) == 256;
    assert Pow2(16) == 65536;
    assert Pow2(24) == 0x100_0000;
  }

  // ---------------------------------------------------------------- index arithmetic

  /** What a 32-bit unsigned index keeps of a number. */
  function Wrapped(n: nat): (index: nat)
    ensures index < U32
  {
    n % U32
  }

  /** `rw_ring_entries` and `rw_ring_free_entries`, in 32-bit arithmetic. */
  function Entries(prod: nat, cons: nat): nat { (prod - cons) % U32 }

  function FreeEntries(size: nat, prod: nat, cons: nat): nat { (size + cons - prod) % U32 }

  /**
    However often the indices have wrapped, they tell how many of the `puts` objects put in have not
    been taken out, and how much room is left.
   */
  lemma IndicesCount(puts: nat, takes: nat, size: nat)
    requires takes <= puts <= takes + size && size <= SIZE_MASK
    ensures Entries(Wrapped(puts), Wrapped(takes)) == puts - takes
    ensures FreeEntries(size, Wrapped(puts), Wrapped(takes)) == size - (puts - takes)
  {
    var p, c := puts / U32, takes / U32;
    assert puts == p * U32 + puts % U32 && takes == c * U32 + takes % U32;
    ModIs(puts % U32 - takes % U32, c - p, U32, puts - takes);
    ModIs(size + takes % U32 - puts % U32, p - c, U32, size - (puts - takes));
  }

  lemma ModOfMod(n: nat, m: nat, f: nat)
    requires m >= 1 && f >= 1
    ensures m * f >= 1 && n % (m * f) % m == n % m
  {
    MulBounds(m, f);
    var q, r := n / (m * f), n % (m * f);
    assert n == q * (m * f) + r;
    assert q * (m * f) == (q * f) * m by {
      assert m * f == f * m;
      assert q * (f * m) == (q * f) * m;
    }
    assert r == (r / m) * m + r % m;
    assert n == (q * f + r / m) * m + r % m;
    ModIs(n, q * f + r / m, m, r % m);
  }

  /** The slot of the `n`th object in a ring of `size`. */
  function Place(n: nat, size: nat): (slot: nat)
    requires size > 0
    ensures slot < size
  {
    n % size
  }

  /** The slot of the `n`th object ever put in, found from the wrapped index. */
  lemma SlotOfIndex(n: nat, k: nat)
    requires Pow2(k) <= SIZE_MASK
    ensures BitAnd(Wrapped(n), Pow2(k) - 1) == Place(n, Pow2(k))
  {
    Pow2Of32();
    Pow2Below(k, 32);
    MaskIsMod(Wrapped(n), k);
    ModOfMod(n, Pow2(k), Pow2(32 - k));
  }

  /** Objects that are in the ring together have different slots. */
  lemma SlotsDiffer(i: nat, j: nat, m: nat)
    requires i < j < i + m
    ensures Place(i, m) != Place(j, m)
  {
    var d := j / m - i / m;
    assert i == (i / m) * m + i % m && j == (j / m) * m + j % m;
    assert d * m == (j / m) * m - (i / m) * m;
    MulBounds(d, m);
  }

  // ---------------------------------------------------------------- the ring

  /** What a bounded queue does with one more object: refuse it just when it is full. */
  function Put<T>(q: seq<T>, capacity: nat, obj: T): (bool, seq<T>) {
    if |q| >= capacity then (false, q) else (true, q + [obj])
  }

  /** What a queue does when asked for an object: nothing just when it is empty. */
  function Take<T>(q: seq<T>): (Option<T>, seq<T>) {
    if q == [] then (None, []) else (Some(q[0]), q[1..])
  }

  predicate IsPowerOf2(x: nat) { x == 0 || BitAnd(x - 1, x) == 0 }

  class RwRing<T(0)> {
    const size: nat
    const mask: nat
    const objs: array<T>
    var consIndx: nat
    var prodIndx: nat
    // How many objects were ever put in and taken out; the indices are these modulo 2^32.
    ghost var puts: nat
    ghost var takes: nat
    ghost const lg: nat

    ghost predicate Valid()
      reads this
    {
      && size == objs.Length <= SIZE_MASK
      && (size == 0 || (size == Pow2(lg) && mask == size - 1))
      && takes <= puts <= takes + size
      && prodIndx == Wrapped(puts) && consIndx == Wrapped(takes)
    }

    /** The objects in the ring, oldest first. */
    ghost function Contents(): (q: seq<T>)
      requires Valid()
      reads this, objs
      ensures |q| == puts - takes
    {
      if size == 0 then []
      else seq(puts - takes, i requires 0 <= i < puts - takes reads this, objs => objs[Place(takes + i, size)])
    }

    /** `create_rw_ring`, for a count its check accepts. */
    constructor (count: nat, ghost exponent: nat)
      requires count <= SIZE_MASK && (count == 0 || count == Pow2(exponent))
      ensures Valid() && fresh(objs) && size == count && Contents() == []
    {
      size, lg := count, exponent;
      mask := (count - 1) % U32;
      objs := new T[count];
      prodIndx, consIndx, puts, takes := 0, 0, 0, 0;
    }

    /** `rw_ring_sp_enqueue`. */
    method Enqueue(obj: T) returns (ok: bool)
      requires Valid()
      modifies this, objs
      ensures Valid() && (ok, Contents()) == Put(old(Contents()), size, obj)
    {
      hide BitAnd, Pow2, Entries, FreeEntries, Place, Wrapped;
      IndicesCount(puts, takes, size);
      if FreeEntries(size, prodIndx, consIndx) == 0 {
        return false;
      }
      SlotOfIndex(puts, lg);
      ghost var was := Contents();
      objs[BitAnd(prodIndx, mask)] := obj;
      prodIndx := Wrapped(prodIndx + 1);
      ghost var last := puts;
      puts := puts + 1;
      NextIndex(last);
      forall i | 0 <= i < |was|
        ensures Contents()[i] == was[i]
      {
        SlotsDiffer(takes + i, last, size);
      }
      assert Contents() == was + [obj];
      return true;
    }

    /** `rw_ring_sc_dequeue`. */
    method Dequeue() returns (obj: Option<T>)
      requires Valid()
      modifies this
      ensures Valid() && (obj, Contents()) == Take(old(Contents()))
    {
      hide BitAnd, Pow2, Entries, Place, Wrapped;
      IndicesCount(puts, takes, size);
      if Entries(prodIndx, consIndx) == 0 {
        return None;
      }
      SlotOfIndex(takes, lg);
      ghost var was := Contents();
      obj := Some(objs[BitAnd(consIndx, mask)]);
      assert obj.value == was[0];
      NextIndex(takes);
      consIndx := Wrapped(consIndx + 1);
      takes := takes + 1;
      assert Contents() == was[1..];
    }
  }

  lemma NextIndex(n: nat)
    ensures Wrapped(Wrapped(n) + 1) == Wrapped(n + 1)
  {}

  /** `create_rw_ring`: null exactly for a count that is no power of two (nor 0) or too large. */
  method CreateRwRing<T(0)>(count: nat) returns (ring: RwRing?<T>)
    ensures ring == null <==> !(count == 0 || IsPow2(count)) || count > SIZE_MASK
    ensures ring != null ==>
      fresh(ring) && fresh(ring.objs) && ring.Valid() && ring.size == count && ring.Contents() == []
  {
    if count > 0 {
      PowerOfTwoTest(count);
    }
    if !IsPowerOf2(count) || count > SIZE_MASK {
      return null;
    }
    ghost var k: nat :| count == 0 || count == Pow2(k);
    ring := new RwRing(count, k);
  }
}
