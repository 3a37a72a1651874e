/** Machine words as numbers, one bit at a time. */
module Bits {

  function Pow2(n: nat): (p: nat)
    ensures p > 0
  {
    if n == 0 then 1 else 2 * Pow2(n - 1)
  }

  lemma {:induction false} PowMonotone(m: nat, n: nat)
    requires m <= n
    ensures Pow2(m) <= Pow2(n)
  {
    if m < n {
      PowMonotone(m, n - 1);
    }
  }

  /** Whether bit `i` of `w` is set: `w & (1 << i) != 0`. */
  predicate TestBit(w: nat, i: nat) {
    if i == 0 then w % 2 == 1 else TestBit(w / 2, i - 1)
  }

  /** `w | (1 << i)` */
  function SetBit(w: nat, i: nat): nat {
    if i == 0 then w / 2 * 2 + 1 else w % 2 + 2 * SetBit(w / 2, i - 1)
  }

  /** `w & !(1 << i)` */
  function ClearBit(w: nat, i: nat): nat {
    if i == 0 then w / 2 * 2 else w % 2 + 2 * ClearBit(w / 2, i - 1)
  }

  lemma {:induction false} SetBitTests(w: nat, i: nat, j: nat)
    ensures TestBit(SetBit(w, i), j) == (i == j || TestBit(w, j))
  {
    if i > 0 && j > 0 {
      SetBitTests(w / 2, i - 1, j - 1);
    }
  }

  lemma {:induction false} ClearBitTests(w: nat, i: nat, j: nat)
    ensures TestBit(ClearBit(w, i), j) == (i != j && TestBit(w, j))
  {
    if i > 0 && j > 0 {
      ClearBitTests(w / 2, i - 1, j - 1);
    }
  }

  /** Neither operation leaves a word of `n` bits. */
  lemma {:induction false} BitsFit(w: nat, i: nat, n: nat)
    requires w < Pow2(n) && i < n
    ensures SetBit(w, i) < Pow2(n) && ClearBit(w, i) < Pow2(n)
  {
    var p := Pow2(n - 1);
    assert Pow2(n) == 2 * p;
    if i == 0 {
      assert SetBit(w, 0) == w / 2 * 2 + 1 && ClearBit(w, 0) == w / 2 * 2;
      hide Pow2, SetBit, ClearBit;
      HalfFits(w, p);
    } else {
      assert SetBit(w, i) == w % 2 + 2 * SetBit(w / 2, i - 1);
      assert ClearBit(w, i) == w % 2 + 2 * ClearBit(w / 2, i - 1);
      hide Pow2, SetBit, ClearBit;
      HalfFits(w, p);
      BitsFit(w / 2, i - 1, n - 1);
    }
  }

  lemma HalfFits(w: nat, p: nat)
    requires w < 2 * p
    ensures w / 2 < p && w / 2 * 2 + 1 < 2 * p
  {
  }

  lemma {:induction false} ZeroTests(i: nat)
    ensures !TestBit(0, i)
  {
    if i > 0 {
      ZeroTests(i - 1);
    }
  }

  // ----- exclusive or -----

  function Xor(a: nat, b: nat): nat {
    if a == 0 && b == 0 then 0 else (a + b) % 2 + 2 * Xor(a / 2, b / 2)
  }

  lemma {:induction false} XorCommutes(a: nat, b: nat)
    ensures Xor(a, b) == Xor(b, a)
  {
    if a != 0 || b != 0 {
      XorCommutes(a / 2, b / 2);
    }
  }

  lemma {:induction false} XorZero(a: nat)
    ensures Xor(a, 0) == a && Xor(0, a) == a
  {
    if a != 0 {
      XorZero(a / 2);
    }
  }

  lemma {:induction false} XorSelf(a: nat)
    ensures Xor(a, a) == 0
  {
    if a != 0 {
      XorSelf(a / 2);
    }
  }

  lemma XorHalves(a: nat, b: nat)
    ensures Xor(a, b) % 2 == (a + b) % 2 && Xor(a, b) / 2 == Xor(a / 2, b / 2)
  {
    var x := Xor(a / 2, b / 2);
    assert Xor(a, b) == (a + b) % 2 + 2 * x;
    hide Xor;
    LowBit((a + b) % 2, x);
  }

  lemma LowBit(bit: nat, rest: nat)
    requires bit < 2
    ensures (bit + 2 * rest) % 2 == bit && (bit + 2 * rest) / 2 == rest
  {
  }

  lemma {:induction false} XorAssociates(a: nat, b: nat, c: nat)
    ensures Xor(Xor(a, b), c) == Xor(a, Xor(b, c))
    decreases a + b + c
  {
    if a != 0 || b != 0 || c != 0 {
      XorAssociates(a / 2, b / 2, c / 2);
      hide Xor;
      XorHalves(a, b);
      XorHalves(b, c);
      var l, r := Xor(Xor(a, b), c), Xor(a, Xor(b, c));
      XorHalves(Xor(a, b), c);
      XorHalves(a, Xor(b, c));
      ParitySum(Xor(a, b), a + b, c);
      ParitySum(Xor(b, c), b + c, a);
      SameNumber(l, r);
    }
  }

  lemma SameNumber(l: nat, r: nat)
    requires l / 2 == r / 2 && l % 2 == r % 2
    ensures l == r
  {
  }

  lemma ParitySum(x: nat, y: nat, z: nat)
    requires x % 2 == y % 2
    ensures (x + z) % 2 == (y + z) % 2
  {
  }

  lemma {:induction false} XorFits(a: nat, b: nat, n: nat)
    requires a < Pow2(n) && b < Pow2(n)
    ensures Xor(a, b) < Pow2(n)
  {
    if n > 0 {
      XorFits(a / 2, b / 2, n - 1);
    }
  }
}
