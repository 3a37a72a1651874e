/** CIDR blocks: aligned power-of-two intervals, any two of which are nested or disjoint. */
module Cidr {
  import opened Bits
  import opened Arithmetic

  const ADDRESSES := 0x1_0000_0000

  /** The block of `2^bits` addresses from `start` on; its prefix length is `32 - bits`. */
  datatype Block = Block(start: nat, bits: nat)

  function End(b: Block): (e: nat)
    ensures e > b.start
  {
    b.start + Pow2(b.bits)
  }

  predicate Aligned(b: Block) {
    b.bits <= 32 && b.start % Pow2(b.bits) == 0
  }

  predicate Holds(b: Block, a: nat) {
    b.start <= a < End(b)
  }

  /** `c` lies in the addresses [lo, hi). */
  predicate Inside(c: Block, lo: nat, hi: nat) {
    lo <= c.start && End(c) <= hi
  }

  lemma HalveMultiple(x: nat, p: nat)
    requires p > 0 && x % (2 * p) == 0
    ensures x % p == 0
  {
    var k := x / (2 * p);
    assert x == p * (2 * k) + 0;
    RemainderIs(x, p, 2 * k, 0);
  }

  lemma {:induction false} PowDivides(m: nat, b: nat, x: nat)
    requires m <= b && x % Pow2(b) == 0
    ensures x % Pow2(m) == 0
  {
    if m < b {
      HalveMultiple(x, Pow2(b - 1));
      PowDivides(m, b - 1, x);
    }
  }

  lemma MultipleGap(d: nat, x: nat, y: nat)
    requires d > 0 && x % d == 0 && y % d == 0 && x < y
    ensures x + d <= y
  {
    var e := y / d - x / d;
    assert y - x == d * e by { assert d * e == d * (y / d) - d * (x / d); }
    if y - x < d {
      SmallMultiple(d, e);
      assert false;
    }
  }

  lemma MultipleSum(d: nat, x: nat)
    requires d > 0 && x % d == 0
    ensures (x + d) % d == 0
  {
    var u := x / d;
    assert x + d == d * (u + 1) + 0;
    RemainderIs(x + d, d, u + 1, 0);
  }

  /** A block that starts strictly inside another ends inside it. */
  lemma Nested(c: Block, b: Block)
    requires Aligned(c) && Aligned(b) && b.start < c.start < End(b)
    ensures End(c) <= End(b)
  {
    hide Pow2;
    if c.bits >= b.bits {
      PowDivides(b.bits, c.bits, c.start);
      MultipleGap(Pow2(b.bits), b.start, c.start);
      assert false;
    }
    PowDivides(c.bits, b.bits, b.start);
    MultipleSum(Pow2(b.bits), b.start);
    PowDivides(c.bits, b.bits, End(b));
    MultipleGap(Pow2(c.bits), c.start, End(b));
  }

  // ----- trailing and leading zeros -----

  function TrailingZeros(n: nat): (z: nat)
    requires n > 0
    ensures n % Pow2(z) == 0
    ensures forall m: nat :: n % Pow2(m) == 0 ==> m <= z
  {
    if n % 2 == 1 then
      (OddMultiples(n); 0)
    else
      var z := TrailingZeros(n / 2);
      EvenMultiples(n, z);
      1 + z
  }

  lemma OddMultiples(n: nat)
    requires n % 2 == 1
    ensures forall m: nat :: n % Pow2(m) == 0 ==> m <= 0
  {
    assert Pow2(1) == 2;
    forall m: nat | n % Pow2(m) == 0 ensures m <= 0 {
      if m > 0 {
        PowDivides(1, m, n);
        assert false;
      }
    }
  }

  lemma EvenMultiples(n: nat, z: nat)
    requires n > 0 && n % 2 == 0 && n / 2 % Pow2(z) == 0
    requires forall m: nat :: n / 2 % Pow2(m) == 0 ==> m <= z
    ensures n % Pow2(z + 1) == 0
    ensures forall m: nat :: n % Pow2(m) == 0 ==> m <= z + 1
  {
    DoubleMultiple(n / 2, Pow2(z));
    forall m: nat | n % Pow2(m) == 0 ensures m <= z + 1 {
      if m > 0 {
        HalfMultiple(n, Pow2(m - 1));
      }
    }
  }

  lemma DoubleMultiple(x: nat, p: nat)
    requires p > 0 && x % p == 0
    ensures 2 * x % (2 * p) == 0
  {
    var k := x / p;
    assert x == p * k;
    assert 2 * x == 2 * p * k + 0;
    RemainderIs(2 * x, 2 * p, k, 0);
  }

  lemma HalfMultiple(n: nat, p: nat)
    requires p > 0 && n % (2 * p) == 0
    ensures n / 2 % p == 0
  {
    var k := n / (2 * p);
    assert n == 2 * p * k;
    assert n == 2 * (p * k);
    assert n / 2 == p * k + 0;
    RemainderIs(n / 2, p, k, 0);
  }

  /** The position of the highest set bit. */
  function Log2(n: nat): (l: nat)
    requires n > 0
    ensures Pow2(l) <= n
    ensures forall m: nat :: Pow2(m) <= n ==> m <= l
  {
    if n == 1 then
      (OneBit(); 0)
    else
      var l := Log2(n / 2);
      MoreBits(n, l);
      1 + l
  }

  lemma OneBit()
    ensures forall m: nat :: Pow2(m) <= 1 ==> m <= 0
  {
    forall m: nat | Pow2(m) <= 1 ensures m <= 0 {
    }
  }

  lemma MoreBits(n: nat, l: nat)
    requires n > 1 && Pow2(l) <= n / 2
    requires forall m: nat :: Pow2(m) <= n / 2 ==> m <= l
    ensures Pow2(l + 1) <= n
    ensures forall m: nat :: Pow2(m) <= n ==> m <= l + 1
  {
    forall m: nat | Pow2(m) <= n ensures m <= l + 1 {
      if m > 0 {
        assert Pow2(m - 1) <= n / 2;
      }
    }
  }

  // ----- the greedy step -----

  function Alignment(start: nat): nat {
    if start == 0 then 32 else TrailingZeros(start)
  }

  /** The block the decomposition takes at `start`: as large as alignment and room allow. */
  function Greedy(start: nat, end: nat): (b: Block)
    requires start < end <= ADDRESSES
    ensures b.start == start && Aligned(b) && End(b) <= end
  {
    var alignment, span := Alignment(start), Log2(end - start);
    var bits := if alignment <= span then alignment else span;
    GreedyFits(start, end, alignment, span, bits);
    Block(start, bits)
  }

  lemma GreedyFits(start: nat, end: nat, alignment: nat, span: nat, bits: nat)
    requires start < end <= ADDRESSES && Pow2(span) <= end - start && bits == (if alignment <= span then
             alignment else span)
    requires start == 0 ==> alignment == 32
    requires start > 0 ==> start % Pow2(alignment) == 0
    ensures bits <= 32 && start % Pow2(bits) == 0 && Pow2(bits) <= end - start
  {
    hide Pow2;
    PowMonotone(bits, span);
    if span > 32 {
      PowMonotone(33, span);
      PowThirtyThree();
      assert false;
    }
    if start > 0 {
      PowDivides(bits, alignment, start);
    } else {
      ZeroDivides(Pow2(bits));
    }
  }

  lemma PowThirtyThree()
    ensures Pow2(33) == 2 * ADDRESSES
  {
    assert Pow2(8) == 0x100;
    assert Pow2(16) == 0x1_0000;
    assert Pow2(24) == 0x100_0000;
    assert Pow2(32) == ADDRESSES;
  }

  /** No block starts at `start`, stays below `end` and is larger. */
  lemma GreedyLargest(start: nat, end: nat, c: Block)
    requires start < end <= ADDRESSES && Aligned(c) && c.start == start && End(c) <= end
    ensures End(c) <= End(Greedy(start, end))
  {
    hide Pow2, TrailingZeros, Log2;
    assert Pow2(c.bits) <= end - start;
    assert c.bits <= Log2(end - start);
    assert c.bits <= Alignment(start);
    PowMonotone(c.bits, Greedy(start, end).bits);
  }

  lemma ZeroDivides(p: nat)
    requires p > 0
    ensures 0 % p == 0
  {
  }
}
