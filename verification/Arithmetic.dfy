/** The few facts about multiplication and remainders that the solver does not find by itself. */
module Arithmetic {

  lemma SmallMultiple(d: int, e: int)
    requires d > 0 && -d < d * e < d
    ensures e == 0
  {
    if e >= 1 {
      MultipleAtLeast(d, e);
    } else if e <= -1 {
      MultipleAtLeast(d, -e);
    }
  }

  lemma MultipleAtLeast(d: int, e: int)
    requires d > 0 && e >= 1
    ensures d * e >= d
  {
    assert d * e == d + d * (e - 1);
  }

  lemma RemainderIs(w: nat, d: nat, q: nat, r: nat)
    requires d > 0 && w == d * q + r && r < d
    ensures w % d == r
  {
    var e := w / d - q;
    assert d * e == d * (w / d) - d * q;
    assert d * e == r - w % d;
    SmallMultiple(d, e);
  }

  lemma SmallRemainder(w: nat, d: nat)
    requires w < d
    ensures w % d == w
  {
  }
}
