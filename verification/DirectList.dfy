/** The address ranges of `engine/src/direct_list.rs`: merged, searched, punctured, and decomposed
    into the fewest CIDR blocks. */
module DirectList {
  import opened Bytes
  import opened Bits
  import opened Cidr
  import Sorting

  const MIN_PREFIX := 8
  const MAX_NETWORKS := 65_536

  datatype Range = Range(first: nat, last: nat)

  predicate Proper(r: Range) {
    r.first <= r.last < ADDRESSES
  }

  predicate Has(r: Range, a: nat) {
    r.first <= a <= r.last
  }

  /** The set of addresses a list of ranges denotes. */
  ghost predicate Denotes(rs: seq<Range>, a: nat) {
    exists r :: r in rs && Has(r, a)
  }

  /** Sorted, disjoint, and not even adjacent. */
  predicate Canonical(rs: seq<Range>) {
    && (forall r <- rs :: Proper(r))
    && (forall i, j :: 0 <= i < j < |rs| ==> rs[i].last + 1 < rs[j].first)
  }

  // ----- networks -----

  /** One line of the list: malformed, or an address and a prefix length. */
  datatype Entry = Bad | Network(address: nat, prefix: nat)

  predicate ProperEntry(e: Entry) {
    e.Network? ==> e.address < ADDRESSES
  }

  /** `x` without its low `bits` bits. */
  function Shifted(x: nat, bits: nat): nat
    decreases bits
  {
    if bits == 0 then x else Shifted(x / 2, bits - 1)
  }

  /** `x` with its low `bits` bits cleared: the start of its block. */
  function Masked(x: nat, bits: nat): nat
    decreases bits
  {
    if bits == 0 then x else 2 * Masked(x / 2, bits - 1)
  }

  /** The addresses that agree with `address` in their first `prefix` bits. */
  ghost predicate EntryHas(e: Entry, a: nat) {
    e.Network? && 8 <= e.prefix <= 32 && Shifted(a, 32 - e.prefix) == Shifted(e.address, 32 - e.prefix)
  }

  function ParseNetwork(e: Entry): Option<Range> {
    if e.Bad? || !(MIN_PREFIX <= e.prefix <= 32) then None
    else
      var first := Masked(e.address, 32 - e.prefix);
      Some(Range(first, first + Pow2(32 - e.prefix) - 1))
  }

  /** Host bits are masked away: the range is exactly the block around the address. */
  lemma ParsedRange(e: Entry, a: nat)
    requires ProperEntry(e)
    ensures ParseNetwork(e).Some? ==> Proper(ParseNetwork(e).value)
    ensures (ParseNetwork(e).Some? && Has(ParseNetwork(e).value, a)) <==> EntryHas(e, a)
  {
    if ParseNetwork(e).Some? {
      hide Pow2, Masked, Shifted;
      SameBlock(e.address, a, 32 - e.prefix);
      PowThirtyTwo();
      BlockBelow(e.address, 32 - e.prefix, 32);
    }
  }

  lemma {:induction false} SameBlock(x: nat, a: nat, bits: nat)
    ensures Masked(x, bits) <= a < Masked(x, bits) + Pow2(bits) <==> Shifted(a, bits) == Shifted(x, bits)
    decreases bits
  {
    if bits > 0 {
      SameBlock(x / 2, a / 2, bits - 1);
    }
  }

  lemma {:induction false} BlockBelow(x: nat, bits: nat, width: nat)
    requires x < Pow2(width) && bits <= width
    ensures Masked(x, bits) + Pow2(bits) <= Pow2(width)
    decreases bits
  {
    if bits > 0 {
      BlockBelow(x / 2, bits - 1, width - 1);
    }
  }

  lemma PowThirtyTwo()
    ensures Pow2(32) == ADDRESSES
  {
    PowThirtyThree();
  }

  // ----- sorting and merging -----

  function Before(): (Range, Range) -> bool {
    (a: Range, b: Range) => a.first < b.first || (a.first == b.first && a.last <= b.last)
  }

  predicate Ascending(rs: seq<Range>) {
    forall i, j :: 0 <= i < j < |rs| ==> rs[i].first <= rs[j].first
  }

  lemma SortIs(rs: seq<Range>)
    ensures Ascending(Sorting.Sort(rs, Before())) && forall x :: x in Sorting.Sort(rs, Before()) <==> x in rs
  {
    hide Sorting.Sort;
    Sorting.SortIs(rs, Before());
    var r := Sorting.Sort(rs, Before());
    forall i, j | 0 <= i < j < |r| ensures r[i].first <= r[j].first {
      assert Before()(r[i], r[j]);
    }
  }

  function SaturatingNext(a: nat): nat {
    Min(a + 1, ADDRESSES - 1)
  }

  /** Absorbing `r` into the last merged range, or starting a new one. */
  function Absorb(merged: seq<Range>, r: Range): seq<Range> {
    var n := |merged|;
    if n > 0 && r.first <= SaturatingNext(merged[n - 1].last)
    then merged[n - 1 := merged[n - 1].(last := Max(merged[n - 1].last, r.last))]
    else merged + [r]
  }

  lemma AbsorbIs(merged: seq<Range>, r: Range)
    requires Canonical(merged) && Proper(r) && (merged != [] ==> merged[|merged| - 1].first <= r.first)
    ensures Canonical(Absorb(merged, r))
    ensures Absorb(merged, r)[|Absorb(merged, r)| - 1].first <= r.first
    ensures forall a :: Denotes(Absorb(merged, r), a) <==> Denotes(merged, a) || Has(r, a)
  {
    var n, next := |merged|, Absorb(merged, r);
    if n > 0 && r.first <= SaturatingNext(merged[n - 1].last) {
      AbsorbLast(merged, r);
    } else {
      AbsorbNew(merged, r);
    }
  }

  lemma AbsorbNew(merged: seq<Range>, r: Range)
    requires Canonical(merged) && Proper(r)
    requires merged != [] ==> merged[|merged| - 1].last + 1 < r.first
    ensures Canonical(merged + [r])
    ensures forall a :: Denotes(merged + [r], a) <==> Denotes(merged, a) || Has(r, a)
  {
    var n, next := |merged|, merged + [r];
    assert forall i :: 0 <= i < n ==> merged[i] in merged && (i < n - 1 ==> merged[i].last + 1 < merged[n - 1].first);
    assert n > 0 ==> Proper(merged[n - 1]);
    forall a ensures Denotes(next, a) <==> Denotes(merged, a) || Has(r, a) {
      if Denotes(merged, a) {
        var x :| x in merged && Has(x, a);
        assert x in next;
      }
      assert r in next;
    }
  }

  lemma AbsorbLast(merged: seq<Range>, r: Range)
    requires Canonical(merged) && Proper(r) && merged != []
    requires merged[|merged| - 1].first <= r.first <= merged[|merged| - 1].last + 1
    ensures var last := merged[|merged| - 1];
            var next := merged[|merged| - 1 := last.(last := Max(last.last, r.last))];
            Canonical(next) && forall a :: Denotes(next, a) <==> Denotes(merged, a) || Has(r, a)
  {
    var n := |merged|;
    var last := merged[n - 1];
    var wider := last.(last := Max(last.last, r.last));
    var next := merged[n - 1 := wider];
    assert last in merged && next[n - 1] == wider;
    forall a ensures Denotes(next, a) <==> Denotes(merged, a) || Has(r, a) {
      assert Has(wider, a) <==> Has(last, a) || Has(r, a);
      if Denotes(merged, a) {
        var i :| 0 <= i < n && Has(merged[i], a);
        assert next[i] in next;
      }
      if Denotes(next, a) {
        var i :| 0 <= i < n && Has(next[i], a);
        assert merged[i] in merged;
      }
    }
  }

  /** Merging keeps the addresses and leaves a canonical list. */
  method Merge(ranges: seq<Range>) returns (merged: seq<Range>)
    requires forall r <- ranges :: Proper(r)
    ensures Canonical(merged)
    ensures forall a :: Denotes(merged, a) <==> Denotes(ranges, a)
  {
    hide Canonical, Denotes, Absorb, Sorting.Sort, Proper;
    SortIs(ranges);
    var sorted := Sorting.Sort(ranges, Before());
    merged := [];
    EmptyCanonical();
    for i := 0 to |sorted|
      invariant Canonical(merged)
      invariant i > 0 ==> |merged| > 0 && merged[|merged| - 1].first <= sorted[i - 1].first
      invariant i == 0 ==> merged == []
      invariant forall a :: Denotes(merged, a) <==> Denotes(sorted[..i], a)
    {
      var r := sorted[i];
      assert r in sorted;
      AbsorbIs(merged, r);
      DenotesOneMore(sorted, i);
      AbsorbNonempty(merged, r);
      merged := Absorb(merged, r);
    }
    assert sorted[..|sorted|] == sorted;
    SameMembers(sorted, ranges);
  }

  lemma AbsorbNonempty(merged: seq<Range>, r: Range)
    ensures |Absorb(merged, r)| > 0
  {
  }

  lemma EmptyCanonical()
    ensures Canonical([]) && forall a :: !Denotes([], a)
  {
  }

  lemma DenotesOneMore(rs: seq<Range>, i: nat)
    requires i < |rs|
    ensures forall a :: Denotes(rs[..i + 1], a) <==> Denotes(rs[..i], a) || Has(rs[i], a)
  {
    assert rs[..i + 1] == rs[..i] + [rs[i]];
    forall a ensures Denotes(rs[..i + 1], a) <==> Denotes(rs[..i], a) || Has(rs[i], a) {
      assert rs[i] in rs[..i + 1];
      if Denotes(rs[..i], a) {
        var x :| x in rs[..i] && Has(x, a);
        assert x in rs[..i + 1];
      }
    }
  }

  lemma SameMembers(p: seq<Range>, q: seq<Range>)
    requires forall x :: x in p <==> x in q
    ensures forall a :: Denotes(p, a) <==> Denotes(q, a)
  {
  }

  // ----- looking up and taking out -----

  /** The number of ranges that start at or below `address`, by bisection. */
  method PartitionPoint(rs: seq<Range>, address: nat) returns (index: nat)
    requires Canonical(rs)
    ensures index <= |rs|
    ensures forall i :: 0 <= i < index ==> rs[i].first <= address
    ensures forall i :: index <= i < |rs| ==> rs[i].first > address
  {
    var low, high := 0, |rs|;
    while low < high
      invariant 0 <= low <= high <= |rs|
      invariant forall i :: 0 <= i < low ==> rs[i].first <= address
      invariant forall i :: high <= i < |rs| ==> rs[i].first > address
    {
      var middle := (low + high) / 2;
      if rs[middle].first <= address {
        forall i | 0 <= i < middle + 1 ensures rs[i].first <= address { FirstsAscend(rs, i, middle); }
        low := middle + 1;
      } else {
        forall i | middle <= i < |rs| ensures rs[i].first > address { FirstsAscend(rs, middle, i); }
        high := middle;
      }
    }
    index := low;
  }

  lemma FirstsAscend(rs: seq<Range>, i: nat, j: nat)
    requires Canonical(rs) && i <= j < |rs|
    ensures rs[i].first <= rs[j].first
  {
    assert rs[i] in rs;
    assert i < j ==> rs[i].last + 1 < rs[j].first;
  }

  /** Only the last range that starts at or below `a` can hold it. */
  lemma OnlyCandidate(rs: seq<Range>, a: nat, index: nat)
    requires Canonical(rs) && index <= |rs|
    requires forall i :: 0 <= i < index ==> rs[i].first <= a
    requires forall i :: index <= i < |rs| ==> rs[i].first > a
    ensures Denotes(rs, a) <==> index > 0 && a <= rs[index - 1].last
  {
    if Denotes(rs, a) {
      var r :| r in rs && Has(r, a);
      var i :| 0 <= i < |rs| && rs[i] == r;
    }
    if index > 0 && a <= rs[index - 1].last {
      assert rs[index - 1] in rs && Has(rs[index - 1], a);
    }
  }

  /** What is left of `r` without `a`. */
  function Pieces(r: Range, a: nat): seq<Range>
    requires Has(r, a)
  {
    (if r.first < a then [Range(r.first, a - 1)] else []) + (if a < r.last then [Range(a + 1, r.last)] else [])
  }

  function Punctured(rs: seq<Range>, k: nat, a: nat): seq<Range>
    requires k < |rs| && Has(rs[k], a)
  {
    rs[..k] + Pieces(rs[k], a) + rs[k + 1..]
  }

  lemma PiecesDenote(r: Range, a: nat, x: nat)
    requires Has(r, a)
    ensures Denotes(Pieces(r, a), x) <==> Has(r, x) && x != a
  {
    var ps := Pieces(r, a);
    if Has(r, x) && x < a {
      assert ps[0] in ps && Has(ps[0], x);
    } else if Has(r, x) && x > a {
      assert ps[|ps| - 1] in ps && Has(ps[|ps| - 1], x);
    }
  }

  lemma DenotesConcat(p: seq<Range>, q: seq<Range>, x: nat)
    ensures Denotes(p + q, x) <==> Denotes(p, x) || Denotes(q, x)
  {
    if Denotes(p, x) {
      var r :| r in p && Has(r, x);
      assert r in p + q;
    }
    if Denotes(q, x) {
      var r :| r in q && Has(r, x);
      assert r in p + q;
    }
  }

  lemma PuncturedDenotes(rs: seq<Range>, k: nat, a: nat, x: nat)
    requires Canonical(rs) && k < |rs| && Has(rs[k], a)
    ensures Denotes(Punctured(rs, k, a), x) <==> Denotes(rs, x) && x != a
  {
    hide Denotes;
    DenotesConcat(rs[..k] + Pieces(rs[k], a), rs[k + 1..], x);
    DenotesConcat(rs[..k], Pieces(rs[k], a), x);
    PiecesDenote(rs[k], a, x);
    assert rs == rs[..k] + [rs[k]] + rs[k + 1..];
    DenotesConcat(rs[..k] + [rs[k]], rs[k + 1..], x);
    DenotesConcat(rs[..k], [rs[k]], x);
    DenotesSingle(rs[k], x);
    OthersMiss(rs, k, a);
  }

  lemma DenotesSingle(r: Range, x: nat)
    ensures Denotes([r], x) <==> Has(r, x)
  {
    assert r in [r];
  }

  lemma OthersMiss(rs: seq<Range>, k: nat, a: nat)
    requires Canonical(rs) && k < |rs| && Has(rs[k], a)
    ensures !Denotes(rs[..k], a) && !Denotes(rs[k + 1..], a)
  {
    forall r | r in rs[..k] ensures !Has(r, a) {
      var i :| 0 <= i < k && rs[i] == r;
      assert rs[i].last + 1 < rs[k].first;
    }
    forall r | r in rs[k + 1..] ensures !Has(r, a) {
      var i :| k < i < |rs| && rs[i] == r;
      assert rs[k].last + 1 < rs[i].first;
    }
  }

  /** Puncturing a canonical list leaves a canonical list: the hole separates the two halves. */
  lemma PuncturedCanonical(rs: seq<Range>, k: nat, a: nat)
    requires Canonical(rs) && k < |rs| && Has(rs[k], a)
    ensures Canonical(Punctured(rs, k, a))
  {
    hide Canonical, Pieces;
    var ps := Pieces(rs[k], a);
    CanonicalParts(rs, k);
    PiecesCanonical(rs[k], a);
    var front := rs[..k] + ps;
    CanonicalJoin(rs[..k], ps);
    assert ps != [] ==> front[|front| - 1] == ps[|ps| - 1];
    assert ps == [] ==> front == rs[..k];
    CanonicalJoin(front, rs[k + 1..]);
  }

  lemma CanonicalParts(rs: seq<Range>, k: nat)
    requires Canonical(rs) && k < |rs|
    ensures Canonical(rs[..k]) && Canonical(rs[k + 1..]) && Proper(rs[k])
    ensures k > 0 ==> rs[k - 1].last + 1 < rs[k].first
    ensures k + 1 < |rs| ==> rs[k].last + 1 < rs[k + 1].first
  {
    assert rs[k] in rs;
  }

  lemma PiecesCanonical(r: Range, a: nat)
    requires Proper(r) && Has(r, a)
    ensures var ps := Pieces(r, a);
            Canonical(ps) && (ps != [] ==> r.first <= ps[0].first && ps[|ps| - 1].last <= r.last)
  {
  }

  lemma CanonicalJoin(p: seq<Range>, q: seq<Range>)
    requires Canonical(p) && Canonical(q)
    requires p != [] && q != [] ==> p[|p| - 1].last + 1 < q[0].first
    ensures Canonical(p + q)
  {
    var all := p + q;
    forall i, j | 0 <= i < j < |all| ensures all[i].last + 1 < all[j].first {
      if i < |p| <= j {
        assert p[i] in p && p[|p| - 1] in p && q[0] in q;
        assert i < |p| - 1 ==> p[i].last + 1 < p[|p| - 1].first;
        FirstsAscend(q, 0, j - |p|);
      } else if i >= |p| {
        assert q[i - |p|].last + 1 < q[j - |p|].first;
      }
    }
  }

  // ----- blocks -----

  ghost predicate InBlocks(bs: seq<Block>, a: nat) {
    exists b :: b in bs && Holds(b, a)
  }

  /** Ascending blocks, each ending before the next starts. */
  predicate Disjoint(bs: seq<Block>) {
    forall i, j :: 0 <= i < j < |bs| ==> End(bs[i]) <= bs[j].start
  }

  /** `c` lies within one of `bs`. */
  ghost predicate Enclosed(c: Block, bs: seq<Block>) {
    exists b :: b in bs && Inside(c, b.start, End(b))
  }

  /** No block within [first, end) reaches across `at`. */
  ghost predicate Unstraddled(first: nat, end: nat, at: nat) {
    forall c :: Aligned(c) && Inside(c, first, end) ==> !(c.start < at < End(c))
  }

  /** Every block within [first, end) that ends by `at` is enclosed. */
  ghost predicate Swallowed(bs: seq<Block>, first: nat, end: nat, at: nat) {
    forall c :: Aligned(c) && Inside(c, first, end) && End(c) <= at ==> Enclosed(c, bs)
  }

  /** Blocks side by side from `first` to `at`. */
  predicate Chained(bs: seq<Block>, first: nat, at: nat) {
    && (forall b <- bs :: Aligned(b) && Inside(b, first, at))
    && (bs == [] ==> at == first)
    && (bs != [] ==> bs[0].start == first && End(bs[|bs| - 1]) == at)
    && (forall i :: 0 < i < |bs| ==> bs[i].start == End(bs[i - 1]))
  }

  /** The greedy block keeps the decomposition maximal. */
  lemma GreedyKeeps(bs: seq<Block>, first: nat, end: nat, at: nat)
    requires first <= at < end <= ADDRESSES
    requires Chained(bs, first, at) && Unstraddled(first, end, at) && Swallowed(bs, first, end, at)
    ensures var b := Greedy(at, end);
            && Chained(bs + [b], first, End(b)) && Unstraddled(first, end, End(b))
            && Swallowed(bs + [b], first, end, End(b))
  {
    hide Greedy, Pow2, End, Aligned, Chained, Swallowed;
    var b := Greedy(at, end);
    ChainExtends(bs, first, at, b);
    forall c | Aligned(c) && Inside(c, first, end) ensures !(c.start < End(b) < End(c)) {
      GreedyNotCrossed(first, end, at, c);
    }
    SwallowsMore(bs, first, end, at, b);
  }

  lemma ChainExtends(bs: seq<Block>, first: nat, at: nat, b: Block)
    requires first <= at && Chained(bs, first, at) && Aligned(b) && b.start == at
    ensures Chained(bs + [b], first, End(b))
  {
    hide Pow2, End, Aligned;
    BlockNonempty(b);
  }

  lemma SwallowsMore(bs: seq<Block>, first: nat, end: nat, at: nat, b: Block)
    requires Unstraddled(first, end, at) && Swallowed(bs, first, end, at) && b.start == at
    ensures Swallowed(bs + [b], first, end, End(b))
  {
    hide Pow2, End, Aligned;
    forall c | Aligned(c) && Inside(c, first, end) && End(c) <= End(b) ensures Enclosed(c, bs + [b]) {
      if End(c) <= at {
        assert Enclosed(c, bs);
        EnclosedConcat(c, bs, [b]);
      } else {
        BlockNonempty(c);
        assert Inside(c, b.start, End(b));
        assert b in bs + [b];
      }
    }
  }

  lemma BlockNonempty(b: Block)
    ensures b.start < End(b)
  {
  }

  lemma GreedyNotCrossed(first: nat, end: nat, at: nat, c: Block)
    requires first <= at < end <= ADDRESSES && Unstraddled(first, end, at)
    requires Aligned(c) && Inside(c, first, end)
    ensures var b := Greedy(at, end); !(c.start < End(b) < End(c))
  {
    hide Greedy, Pow2, End, Aligned;
    var b := Greedy(at, end);
    if c.start < End(b) < End(c) {
      assert !(c.start < at < End(c));
      BlockNonempty(b);
      if c.start == at {
        GreedyLargest(at, end, c);
      } else {
        Nested(c, b);
      }
    }
  }

  /** The blocks of one range: they tile it, and swallow every block it contains. */
  method RangeBlocks(r: Range) returns (bs: seq<Block>)
    requires Proper(r)
    ensures Chained(bs, r.first, r.last + 1)
    ensures Swallowed(bs, r.first, r.last + 1, r.last + 1)
  {
    hide Unstraddled, Swallowed, Chained, Greedy, Pow2;
    bs := [];
    var start, end := r.first, r.last + 1;
    NothingYet(start, end);
    while start < end
      invariant r.first <= start <= end
      invariant Chained(bs, r.first, start) && Unstraddled(r.first, end, start) && Swallowed(bs, r.first, end, start)
      decreases end - start
    {
      GreedyKeeps(bs, r.first, end, start);
      var b := Greedy(start, end);
      bs := bs + [b];
      start := End(b);
    }
  }

  lemma NothingYet(first: nat, end: nat)
    ensures Chained([], first, first) && Unstraddled(first, end, first) && Swallowed([], first, end, first)
  {
    forall c: Block ensures c.start < End(c) { BlockNonempty(c); }
  }

  /** A chain holds exactly the addresses it spans, and its blocks do not overlap. */
  lemma {:induction false} ChainSpans(bs: seq<Block>, first: nat, at: nat)
    requires Chained(bs, first, at)
    ensures first <= at && Disjoint(bs) && forall a: nat :: InBlocks(bs, a) <==> first <= a < at
  {
    hide Pow2, Aligned;
    if bs != [] {
      var n := |bs| - 1;
      var init, b := bs[..n], bs[n];
      assert b in bs;
      BlockNonempty(b);
      ChainPrefix(bs, first, at);
      ChainSpans(init, first, b.start);
      assert bs == init + [b];
      forall i, j | 0 <= i < j < |bs| ensures End(bs[i]) <= bs[j].start {
        if j == n {
          assert init[i] in init && Inside(init[i], first, b.start);
        } else {
          assert End(init[i]) <= init[j].start;
        }
      }
      InBlocksLast(init, b);
    }
  }

  lemma ChainPrefix(bs: seq<Block>, first: nat, at: nat)
    requires Chained(bs, first, at) && bs != []
    ensures Chained(bs[..|bs| - 1], first, bs[|bs| - 1].start)
  {
    hide Pow2, Aligned;
    var n := |bs| - 1;
    var init := bs[..n];
    forall i | 0 <= i < n ensures Aligned(init[i]) && Inside(init[i], first, bs[n].start) {
      assert bs[i] in bs;
      ChainAscends(bs, first, at, i, n);
    }
  }

  lemma {:induction false} ChainAscends(bs: seq<Block>, first: nat, at: nat, i: nat, j: nat)
    requires Chained(bs, first, at) && i < j < |bs|
    ensures End(bs[i]) <= bs[j].start
    decreases j
  {
    hide Pow2, Aligned;
    if i < j - 1 {
      ChainAscends(bs, first, at, i, j - 1);
      BlockNonempty(bs[j - 1]);
    }
  }

  lemma InBlocksLast(init: seq<Block>, b: Block)
    ensures forall a :: InBlocks(init + [b], a) <==> InBlocks(init, a) || Holds(b, a)
  {
    InBlocksConcat(init, [b]);
    assert b in [b];
  }

  lemma InBlocksConcat(p: seq<Block>, q: seq<Block>)
    ensures forall a :: InBlocks(p + q, a) <==> InBlocks(p, a) || InBlocks(q, a)
  {
    forall a ensures InBlocks(p + q, a) <==> InBlocks(p, a) || InBlocks(q, a) {
      if InBlocks(p, a) {
        var b :| b in p && Holds(b, a);
        assert b in p + q;
      }
      if InBlocks(q, a) {
        var b :| b in q && Holds(b, a);
        assert b in p + q;
      }
    }
  }

  // ----- the whole decomposition -----

  /** Disjoint aligned blocks with exactly the denoted addresses, enclosing every block among them. */
  ghost predicate Decomposes(bs: seq<Block>, rs: seq<Range>) {
    && Disjoint(bs) && (forall b <- bs :: Aligned(b))
    && (forall a :: InBlocks(bs, a) <==> Denotes(rs, a))
    && (forall c :: Aligned(c) && (exists r :: r in rs && Inside(c, r.first, r.last + 1)) ==> Enclosed(c, bs))
  }

  lemma DecomposeMore(bs: seq<Block>, rs: seq<Range>, r: Range, more: seq<Block>)
    requires Canonical(rs + [r]) && Decomposes(bs, rs)
    requires Chained(more, r.first, r.last + 1) && Swallowed(more, r.first, r.last + 1, r.last + 1)
    ensures Decomposes(bs + more, rs + [r])
  {
    hide Pow2, End, Aligned, Canonical, Chained, InBlocks, Denotes, Disjoint, Enclosed;
    ChainSpans(more, r.first, r.last + 1);
    InBlocksConcat(bs, more);
    DisjointConcat(bs, rs, r, more);
    forall a ensures InBlocks(bs + more, a) <==> Denotes(rs + [r], a) {
      DenotesConcat(rs, [r], a);
      DenotesSingle(r, a);
    }
    forall c | Aligned(c) && exists x :: x in rs + [r] && Inside(c, x.first, x.last + 1)
        ensures Enclosed(c, bs + more) {
      var x :| x in rs + [r] && Inside(c, x.first, x.last + 1);
      assert Enclosed(c, if x in rs then bs else more);
      EnclosedConcat(c, bs, more);
    }
    ChainCidr(more, r.first, r.last + 1);
    assert forall b <- bs + more :: b in bs || b in more;
  }

  lemma EnclosedConcat(c: Block, p: seq<Block>, q: seq<Block>)
    requires Enclosed(c, p) || Enclosed(c, q)
    ensures Enclosed(c, p + q)
  {
    hide Pow2, End;
    var b :| (b in p || b in q) && Inside(c, b.start, End(b));
    assert b in p + q;
  }

  lemma ChainCidr(bs: seq<Block>, first: nat, at: nat)
    requires Chained(bs, first, at)
    ensures forall b <- bs :: Aligned(b) && Inside(b, first, at)
  {
  }

  lemma DisjointConcat(bs: seq<Block>, rs: seq<Range>, r: Range, more: seq<Block>)
    requires Canonical(rs + [r]) && Disjoint(bs) && (forall a :: InBlocks(bs, a) <==> Denotes(rs, a))
    requires Disjoint(more) && Chained(more, r.first, r.last + 1)
    ensures Disjoint(bs + more)
  {
    hide Pow2, Aligned;
    ChainCidr(more, r.first, r.last + 1);
    forall b | b in bs ensures End(b) <= r.first {
      BlockBefore(bs, rs, r, b);
    }
    var all := bs + more;
    forall i, j | 0 <= i < j < |all| ensures End(all[i]) <= all[j].start {
      if i < |bs| <= j {
        assert bs[i] in bs && more[j - |bs|] in more;
      } else if j < |bs| {
        assert End(bs[i]) <= bs[j].start;
      } else {
        assert End(more[i - |bs|]) <= more[j - |bs|].start;
      }
    }
  }

  lemma BlockBefore(bs: seq<Block>, rs: seq<Range>, r: Range, b: Block)
    requires Canonical(rs + [r]) && b in bs && (forall a :: InBlocks(bs, a) <==> Denotes(rs, a))
    ensures End(b) <= r.first
  {
    hide Pow2;
    var last := End(b) - 1;
    assert Holds(b, last);
    assert InBlocks(bs, last) && Denotes(rs, last);
    var x :| x in rs && Has(x, last);
    var i :| 0 <= i < |rs| && rs[i] == x;
    assert (rs + [r])[i].last + 1 < (rs + [r])[|rs|].first;
  }

  /** The fewest blocks: any set of CIDR blocks with the same addresses has at least as many. */
  lemma Fewest(bs: seq<Block>, rs: seq<Range>, others: set<Block>)
    requires Canonical(rs) && Decomposes(bs, rs)
    requires forall c <- others :: Aligned(c)
    requires forall a :: (exists c :: c in others && Holds(c, a)) <==> Denotes(rs, a)
    ensures |bs| <= |others|
  {
    hide Pow2, Aligned, Denotes, Canonical, Enclosed, InBlocks;
    forall i | 0 <= i < |bs| ensures Represented(bs[i], others) {
      var a := bs[i].start;
      assert bs[i] in bs && Holds(bs[i], a) by { BlockNonempty(bs[i]); }
      assert InBlocks(bs, a) by { InBlocksWitness(bs, bs[i], a); }
      assert Denotes(rs, a);
      var c :| c in others && Holds(c, a);
      assert forall x :: Holds(c, x) ==> Denotes(rs, x);
      var r := WithinOneRange(rs, c);
      assert Enclosed(c, bs);
      InThatBlock(bs, i, c);
    }
    Injection(bs, others);
  }

  lemma InBlocksWitness(bs: seq<Block>, b: Block, a: nat)
    requires b in bs && Holds(b, a)
    ensures InBlocks(bs, a)
  {
  }

  ghost predicate Represented(b: Block, others: set<Block>) {
    exists c :: c in others && Inside(c, b.start, End(b))
  }

  /** A block of denoted addresses cannot bridge two ranges, since they are not adjacent. */
  lemma WithinOneRange(rs: seq<Range>, c: Block) returns (r: Range)
    requires Canonical(rs) && forall x :: Holds(c, x) ==> Denotes(rs, x)
    ensures r in rs && Inside(c, r.first, r.last + 1)
  {
    hide Pow2;
    BlockNonempty(c);
    assert Holds(c, c.start) && Denotes(rs, c.start);
    r :| r in rs && Has(r, c.start);
    var i :| 0 <= i < |rs| && rs[i] == r;
    var past := r.last + 1;
    assert !Holds(c, past);
  }

  lemma InThatBlock(bs: seq<Block>, i: nat, c: Block)
    requires Disjoint(bs) && i < |bs| && Enclosed(c, bs) && Holds(c, bs[i].start)
    ensures Inside(c, bs[i].start, End(bs[i]))
  {
    hide Pow2;
    var b :| b in bs && Inside(c, b.start, End(b));
    var j :| 0 <= j < |bs| && bs[j] == b;
    BlockNonempty(bs[i]);
    assert i == j;
  }

  lemma {:induction false} Injection(bs: seq<Block>, others: set<Block>)
    requires Disjoint(bs) && forall i :: 0 <= i < |bs| ==> Represented(bs[i], others)
    ensures |bs| <= |others|
  {
    hide Pow2;
    if bs != [] {
      var n := |bs| - 1;
      assert Represented(bs[n], others);
      var c :| c in others && Inside(c, bs[n].start, End(bs[n]));
      BlockNonempty(c);
      forall i | 0 <= i < n ensures Represented(bs[..n][i], others - {c}) {
        assert Represented(bs[i], others);
        var d :| d in others && Inside(d, bs[i].start, End(bs[i]));
        assert End(bs[i]) <= bs[n].start;
        assert d != c;
      }
      Injection(bs[..n], others - {c});
    }
  }

  // ----- the class -----

  /** The addresses of the listed networks. */
  ghost predicate Listed(entries: seq<Entry>, a: nat) {
    exists e :: e in entries && EntryHas(e, a)
  }

  /** How many entries are well formed and narrow enough. */
  function Usable(entries: seq<Entry>): nat {
    if entries == [] then 0
    else Usable(entries[..|entries| - 1]) + if ParseNetwork(entries[|entries| - 1]).Some? then 1 else 0
  }

  lemma UsableStep(entries: seq<Entry>, i: nat)
    requires i < |entries|
    ensures Usable(entries[..i + 1]) == Usable(entries[..i]) + if ParseNetwork(entries[i]).Some? then 1 else 0
  {
    hide ParseNetwork;
    assert entries[..i + 1][..i] == entries[..i];
  }

  class DirectRanges {
    var ranges: seq<Range>
    var skipped: nat

    /** Compiles the first 65536 entries; malformed and too wide ones are counted and left out. */
    constructor (networks: seq<Entry>)
      requires forall e <- networks :: ProperEntry(e)
      ensures Canonical(ranges)
      ensures forall a :: Denotes(ranges, a) <==> Listed(networks[..Min(|networks|, 65_536)], a)
      ensures skipped + Usable(networks[..Min(|networks|, 65_536)]) == |networks|
    {
      hide Canonical, Denotes, ParseNetwork, EntryHas, Pow2, Proper;
      var taken := networks[..Min(|networks|, MAX_NETWORKS)];
      var rs: seq<Range>, bad := [], 0;
      NoneListed();
      EmptyCanonical();
      for i := 0 to |taken|
        invariant forall r <- rs :: Proper(r)
        invariant forall a :: Denotes(rs, a) <==> Listed(taken[..i], a)
        invariant bad + Usable(taken[..i]) == i
      {
        assert taken[i] in networks;
        OneMoreListed(rs, taken, i);
        UsableStep(taken, i);
        var r := ParseNetwork(taken[i]);
        if r.Some? {
          rs := rs + [r.value];
        } else {
          bad := bad + 1;
        }
      }
      assert taken[..|taken|] == taken;
      var merged := Merge(rs);
      ranges := merged;
      skipped := bad + |networks| - |taken|;
    }

    method Contains(address: nat) returns (r: bool)
      requires Canonical(ranges)
      ensures r <==> Denotes(ranges, address)
    {
      var index := PartitionPoint(ranges, address);
      OnlyCandidate(ranges, address, index);
      r := index > 0 && address <= ranges[index - 1].last;
    }

    method Exclude(address: nat)
      requires Canonical(ranges)
      modifies this`ranges
      ensures Canonical(ranges)
      ensures forall a :: Denotes(ranges, a) <==> old(Denotes(ranges, a)) && a != address
    {
      hide Denotes;
      var index := PartitionPoint(ranges, address);
      OnlyCandidate(ranges, address, index);
      if index == 0 || address > ranges[index - 1].last {
        return;
      }
      PuncturedCanonical(ranges, index - 1, address);
      forall a ensures Denotes(Punctured(ranges, index - 1, address), a) <==> Denotes(ranges, a) && a != address {
        PuncturedDenotes(ranges, index - 1, address, a);
      }
      ranges := Punctured(ranges, index - 1, address);
    }

    /** The ranges as CIDR blocks. */
    method Prefixes() returns (blocks: seq<Block>)
      requires Canonical(ranges)
      ensures Decomposes(blocks, ranges)
    {
      hide Canonical, Decomposes, Chained, Swallowed, Denotes, Pow2;
      blocks := [];
      NothingDecomposes();
      for i := 0 to |ranges|
        invariant Decomposes(blocks, ranges[..i])
      {
        CanonicalPrefix(ranges, i);
        var more := RangeBlocks(ranges[i]);
        DecomposeMore(blocks, ranges[..i], ranges[i], more);
        assert ranges[..i + 1] == ranges[..i] + [ranges[i]];
        blocks := blocks + more;
      }
      assert ranges[..|ranges|] == ranges;
    }
  }

  /** The list that is routed directly: the usable networks without the protected addresses. */
  method Compile(networks: seq<Entry>, protected: seq<nat>) returns (list: DirectRanges)
    requires forall e <- networks :: ProperEntry(e)
    ensures fresh(list) && Canonical(list.ranges)
    ensures forall a :: Denotes(list.ranges, a) <==> Direct(networks, protected, a)
  {
    hide Denotes, Canonical;
    list := new DirectRanges(networks);
    for i := 0 to |protected|
      invariant fresh(list) && Canonical(list.ranges)
      invariant forall a :: Denotes(list.ranges, a) <==> Direct(networks, protected[..i], a)
    {
      assert protected[..i + 1] == protected[..i] + [protected[i]];
      list.Exclude(protected[i]);
    }
    assert protected[..|protected|] == protected;
  }

  /** The addresses a compiled list stands for. */
  ghost predicate Direct(networks: seq<Entry>, protected: seq<nat>, a: nat) {
    Listed(networks[..Min(|networks|, 65_536)], a) && a !in protected
  }

  /** From the entries to the routes: disjoint aligned blocks with exactly the listed addresses that are
      not protected, and no fewer blocks could do. */
  method DirectBlocks(networks: seq<Entry>, protected: seq<nat>) returns (blocks: seq<Block>)
    requires forall e <- networks :: ProperEntry(e)
    ensures Disjoint(blocks) && forall b <- blocks :: Aligned(b)
    ensures forall a :: InBlocks(blocks, a) <==> Direct(networks, protected, a)
    ensures forall others :: Covers(others, networks, protected) ==> |blocks| <= |others|
  {
    hide Canonical, Denotes, Direct, Disjoint, InBlocks;
    var list := Compile(networks, protected);
    blocks := list.Prefixes();
    ghost var rs := list.ranges;
    forall others | Covers(others, networks, protected) ensures |blocks| <= |others| {
      Fewest(blocks, rs, others);
    }
  }

  /** A set of CIDR blocks with the same addresses. */
  ghost predicate Covers(others: set<Block>, networks: seq<Entry>, protected: seq<nat>) {
    && (forall c <- others :: Aligned(c))
    && forall a :: (exists c :: c in others && Holds(c, a)) <==> Direct(networks, protected, a)
  }

  lemma NoneListed()
    ensures forall a :: !Listed([], a)
  {
  }

  lemma OneMoreListed(rs: seq<Range>, entries: seq<Entry>, i: nat)
    requires i < |entries| && ProperEntry(entries[i])
    requires forall a :: Denotes(rs, a) <==> Listed(entries[..i], a)
    ensures var r := ParseNetwork(entries[i]);
            && (r.Some? ==> Proper(r.value))
            && var more := if r.Some? then rs + [r.value] else rs;
            forall a :: Denotes(more, a) <==> Listed(entries[..i + 1], a)
  {
    hide Denotes, Pow2, EntryHas, ParseNetwork, Proper;
    var r := ParseNetwork(entries[i]);
    assert entries[..i + 1] == entries[..i] + [entries[i]];
    ParsedRange(entries[i], 0);
    var more := if r.Some? then rs + [r.value] else rs;
    forall a ensures Denotes(more, a) <==> Listed(entries[..i + 1], a) {
      ParsedRange(entries[i], a);
      ListedConcat(entries[..i], entries[i], a);
      if r.Some? {
        DenotesConcat(rs, [r.value], a);
        DenotesSingle(r.value, a);
      }
    }
  }

  lemma ListedConcat(init: seq<Entry>, e: Entry, a: nat)
    ensures Listed(init + [e], a) <==> Listed(init, a) || EntryHas(e, a)
  {
    hide EntryHas;
    if Listed(init, a) {
      var x :| x in init && EntryHas(x, a);
      assert x in init + [e];
    }
    assert e in init + [e];
  }

  lemma NothingDecomposes()
    ensures Decomposes([], [])
  {
  }

  lemma CanonicalPrefix(rs: seq<Range>, i: nat)
    requires Canonical(rs) && i < |rs|
    ensures Canonical(rs[..i] + [rs[i]]) && Proper(rs[i])
  {
    assert rs[..i + 1] == rs[..i] + [rs[i]];
    assert rs[i] in rs;
  }
}
