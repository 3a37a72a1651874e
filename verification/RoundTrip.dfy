/** Splitting and reassembling are inverse: whatever the order, the repetition and the other traffic,
    the fragments of a datagram come out as the datagram, once. */
module RoundTrip {
  import opened Bytes
  import opened Checksum
  import opened Ipv4Split
  import opened Reassembly
  import opened ReassemblyTiles

  function Body(d: seq<byte>): seq<byte>
    requires Sized(d)
  {
    d[HEADER..]
  }

  /** `ps` are the fragments of the whole datagram `d`, cut at `cuts`; few enough to be held. */
  predicate Fragments(ps: seq<seq<byte>>, cuts: seq<nat>, d: seq<byte>) {
    Sized(d) && Whole(d) && Tiling(ps, cuts, d, 0, |d| - HEADER) && |ps| <= 64
  }

  lemma FragmentsCut(ps: seq<seq<byte>>, cuts: seq<nat>, d: seq<byte>)
    requires Fragments(ps, cuts, d)
    ensures |ps| > 0 && CutsOf(cuts, |ps|, |Body(d)|)
    ensures forall i :: 0 <= i < |ps| ==> |ps[i]| > HEADER
  {
    hide Whole;
    assert cuts[0] < cuts[|ps|];
    forall i | 0 <= i < |ps| ensures |ps[i]| > HEADER {
      assert FragmentOf(ps[i], d, cuts[i], cuts[i + 1]);
    }
    forall i, j | 0 <= i < j <= |ps| ensures cuts[i] < cuts[j] {
      TilingAscends(ps, cuts, d, |d| - HEADER, i, j);
    }
  }

  lemma {:induction false} TilingAscends(ps: seq<seq<byte>>, cuts: seq<nat>, d: seq<byte>, hi: nat, i: nat, j: nat)
    requires Sized(d) && Tiling(ps, cuts, d, 0, hi) && i < j <= |ps|
    ensures cuts[i] < cuts[j]
    decreases j
  {
    assert FragmentOf(ps[j - 1], d, cuts[j - 1], cuts[j]);
    if i < j - 1 {
      TilingAscends(ps, cuts, d, hi, i, j - 1);
    }
  }

  /** What a fragment says about itself is where it belongs. */
  lemma ReadFragment(p: seq<byte>, d: seq<byte>, lo: nat, hi: nat)
    requires Sized(d) && d[0] == 0x45 && FragmentOf(p, d, lo, hi)
    ensures |p| > HEADER && WellFormed(p) && !Misplaced(Read(p))
    ensures Read(p) == Reading(KeyOf(d), p[..HEADER], lo, hi < |d| - HEADER, Body(d)[lo..hi])
  {
    hide SameSender, KeyOf, DontFragment;
    FirstOctet(p, d);
    SameKey(p, d);
    FragmentIsStretch(p, d, lo, hi);
    SliceOfSlice(d, HEADER, |d|, lo, hi);
    assert d[HEADER..|d|] == Body(d);
  }

  lemma FirstOctet(p: seq<byte>, d: seq<byte>)
    requires |p| >= HEADER && |d| >= HEADER && SameSender(p, d)
    ensures p[0] == d[0]
  {
    assert p[..2][0] == d[..2][0];
  }

  lemma SameKey(p: seq<byte>, d: seq<byte>)
    requires |p| >= HEADER && |d| >= HEADER && SameSender(p, d)
    ensures KeyOf(p) == KeyOf(d)
  {
    assert p[9] == p[8..10][1] == d[8..10][1] == d[9];
    assert p[4] == p[4..6][0] == d[4..6][0] && p[5] == p[4..6][1] == d[4..6][1];
    SliceOfSlice(p, 12, HEADER, 0, 4);
    SliceOfSlice(d, 12, HEADER, 0, 4);
    SliceOfSlice(p, 12, HEADER, 4, 8);
    SliceOfSlice(d, 12, HEADER, 4, 8);
  }

  // ----- one datagram -----

  /** The header of a first fragment. */
  predicate FirstHeader(h: seq<byte>, d: seq<byte>)
    requires Sized(d)
  {
    |h| == HEADER && SameSender(h, d) && DontFragment(WordAt(h, 6)) == DontFragment(WordAt(d, 6))
  }

  /** `partial` holds exactly the fragments of `d` numbered in `a`. */
  ghost predicate Holds(partial: Partial, d: seq<byte>, cuts: seq<nat>, n: nat, a: set<nat>)
    requires Sized(d) && CutsOf(cuts, n, |Body(d)|) && Indices(a, n)
  {
    && |partial.pieces| == |a| && DistinctStarts(partial.pieces)
    && Represents(partial.pieces, Body(d), cuts, n, a)
    && (if 0 in a then partial.header.Some? && FirstHeader(partial.header.value, d) else partial.header.None?)
    && partial.end == if n > 0 && n - 1 in a then Some(|d| - HEADER) else None
  }

  lemma HeldTile(q: seq<Piece>, body: seq<byte>, cuts: seq<nat>, n: nat, a: set<nat>, i: nat, at: nat)
    requires CutsOf(cuts, n, |body|) && Indices(a, n) && i < n && Represents(q, body, cuts, n, a)
    requires at < |q| && q[at].start == cuts[i]
    ensures i in a && q[at] == Tile(body, cuts, i)
  {
    assert IsTile(q[at], body, cuts, n, a);
    var k :| k in a && q[at] == Tile(body, cuts, k);
    assert k < i || i < k || i == k;
  }

  lemma FindTile(q: seq<Piece>, body: seq<byte>, cuts: seq<nat>, n: nat, a: set<nat>, i: nat)
    requires CutsOf(cuts, n, |body|) && Indices(a, n) && i < n && Represents(q, body, cuts, n, a)
    ensures Find(q, cuts[i]) < |q| <==> i in a
    ensures i in a ==> q[Find(q, cuts[i])] == Tile(body, cuts, i)
  {
    var at := Find(q, cuts[i]);
    if at < |q| {
      HeldTile(q, body, cuts, n, a, i, at);
    } else if i in a {
      assert false;
    }
  }

  lemma ExtendHolds(partial: Partial, d: seq<byte>, cuts: seq<nat>, n: nat, a: set<nat>, i: nat, r: Reading)
    requires Sized(d) && CutsOf(cuts, n, |Body(d)|) && Indices(a, n) && i < n && i !in a
    requires Holds(partial, d, cuts, n, a)
    requires Piece(r.offset, r.payload) == Tile(Body(d), cuts, i)
    requires r.more == (cuts[i + 1] < |d| - HEADER) && (i == 0 ==> FirstHeader(r.header, d))
    ensures Holds(Extended(partial, r), d, cuts, n, a + {i})
  {
    hide FirstHeader, Represents, DistinctStarts;
    ExtendRepresents(partial.pieces, Body(d), cuts, n, a, i);
    assert r.more <==> i != n - 1;
    assert r.offset == 0 <==> i == 0;
  }

  lemma ExtendRepresents(q: seq<Piece>, body: seq<byte>, cuts: seq<nat>, n: nat, a: set<nat>, i: nat)
    requires CutsOf(cuts, n, |body|) && Indices(a, n) && i < n && i !in a
    requires Represents(q, body, cuts, n, a) && DistinctStarts(q)
    ensures Represents(q + [Tile(body, cuts, i)], body, cuts, n, a + {i})
    ensures DistinctStarts(q + [Tile(body, cuts, i)])
  {
    forall p | p in q ensures IsTile(p, body, cuts, n, a + {i}) && p.start != cuts[i] {
      assert IsTile(p, body, cuts, n, a);
      var k :| k in a && p == Tile(body, cuts, k);
      assert k in a + {i};
      assert k < i || i < k;
    }
    assert IsTile(Tile(body, cuts, i), body, cuts, n, a + {i});
  }

  /** The rebuilt header is the original one. */
  lemma HeaderRestored(h: seq<byte>, d: seq<byte>)
    requires Whole(d) && FirstHeader(h, d)
    ensures WholeHeader(h, |d|) == d[..HEADER]
  {
    var flags := if DontFragment(WordAt(h, 6)) then 0x4000 else 0;
    var zeroed := PutWord(PutWord(PutWord(h, 2, |d|), 6, flags), 10, 0);
    assert zeroed == PutWord(d[..HEADER], 10, 0) by {
      ZeroedHeader(zeroed, h, d);
    }
  }

  lemma ZeroedHeader(z: seq<byte>, h: seq<byte>, d: seq<byte>)
    requires Whole(d) && FirstHeader(h, d)
    requires |z| == HEADER && SameSender(z, h) && WordAt(z, 2) == |d| && WordAt(z, 10) == 0
    requires WordAt(z, 6) == if DontFragment(WordAt(h, 6)) then 0x4000 else 0
    ensures z == PutWord(d[..HEADER], 10, 0)
  {
    hide InternetChecksum;
    SameSenderTransitive(z, h, d);
    var w := PutWord(d[..HEADER], 10, 0);
    WordDetermines(z, w, 2);
    WordDetermines(z, w, 6);
    WordDetermines(z, w, 10);
    SenderOctets(z, d);
  }

  lemma SenderOctets(z: seq<byte>, d: seq<byte>)
    requires |z| >= HEADER && |d| >= HEADER && SameSender(z, d)
    ensures forall i :: 0 <= i < HEADER && (i < 2 || 4 <= i < 6 || 8 <= i < 10 || 12 <= i) ==> z[i] == d[i]
  {
    forall i | 0 <= i < HEADER && (i < 2 || 4 <= i < 6 || 8 <= i < 10 || 12 <= i) ensures z[i] == d[i] {
      if i < 2 { assert z[..2][i] == d[..2][i]; }
      else if i < 6 { assert z[4..6][i - 4] == d[4..6][i - 4]; }
      else if i < 10 { assert z[8..10][i - 8] == d[8..10][i - 8]; }
      else { assert z[12..HEADER][i - 12] == d[12..HEADER][i - 12]; }
    }
  }

  ghost predicate All(a: set<nat>, n: nat) {
    forall k: nat :: k < n ==> k in a
  }

  /** Assembling with everything at hand yields the datagram; with something missing it keeps waiting. */
  lemma AssembleHolds(partial: Partial, d: seq<byte>, cuts: seq<nat>, n: nat, a: set<nat>)
    requires Sized(d) && Whole(d) && CutsOf(cuts, n, |Body(d)|) && Indices(a, n) && n > 0
    requires Holds(partial, d, cuts, n, a) && 0 in a && n - 1 in a
    ensures All(a, n) ==> Assemble(partial) == Complete(d)
    ensures !All(a, n) ==> Assemble(partial).Kept? && Holds(Assemble(partial).partial, d, cuts, n, a)
  {
    hide Whole, WholeHeader, FirstHeader, Represents, Ascending, DistinctStarts;
    var sorted := Sort(partial.pieces);
    SortedHolds(partial, d, cuts, n, a);
    if All(a, n) {
      CoverAll(sorted, Body(d), cuts, n, a, 0);
      HeaderRestored(partial.header.value, d);
      assert Concat(sorted) == Body(d);
      assert d == d[..HEADER] + Body(d);
    } else {
      var missing: nat :| missing < n && missing !in a;
      CoverGap(sorted, Body(d), cuts, n, a, 0, missing);
    }
  }

  lemma SortedHolds(partial: Partial, d: seq<byte>, cuts: seq<nat>, n: nat, a: set<nat>)
    requires Sized(d) && Whole(d) && CutsOf(cuts, n, |Body(d)|) && Indices(a, n)
    requires Holds(partial, d, cuts, n, a)
    ensures Holds(partial.(pieces := Sort(partial.pieces)), d, cuts, n, a)
    ensures Ascending(Sort(partial.pieces)) && Represents(Sort(partial.pieces), Body(d), cuts, n, a)
    ensures 0 in a ==> |partial.header.value| == HEADER && FirstHeader(partial.header.value, d)
    ensures |d| <= MAX_LENGTH
  {
    hide IsTile, SameSender;
    SortKeeps(partial.pieces);
    SortAscending(partial.pieces);
    AscendingDistinct(Sort(partial.pieces));
  }

  /** One fragment meeting what has arrived of its datagram. */
  lemma AbsorbTile(partial: Partial, ps: seq<seq<byte>>, cuts: seq<nat>, d: seq<byte>, a: set<nat>, i: nat)
    requires Fragments(ps, cuts, d) && i < |ps| && CutsOf(cuts, |ps|, |Body(d)|) && Indices(a, |ps|)
    requires Holds(partial, d, cuts, |ps|, a) && HeaderOk(partial)
    ensures |ps[i]| > HEADER && WellFormed(ps[i])
    ensures var o := Absorb(partial, Read(ps[i]));
            && (i in a ==> o == Ignored)
            && (i !in a && All(a + {i}, |ps|) ==> o == Complete(d))
            && (i !in a && !All(a + {i}, |ps|) ==> o.Kept? && Holds(o.partial, d, cuts, |ps|, a + {i}))
  {
    hide Absorb, Holds, FragmentOf, Indices, HeaderOk, WellFormed, Misplaced, InternetChecksum, WordAt;
    ReadFragment(ps[i], d, cuts[i], cuts[i + 1]);
    AbsorbReading(partial, d, cuts, |ps|, a, i, Read(ps[i]), ps[i]);
  }

  lemma AbsorbReading(partial: Partial, d: seq<byte>, cuts: seq<nat>, n: nat, a: set<nat>, i: nat, r: Reading,
                      p: seq<byte>)
    requires Sized(d) && Whole(d) && i < n <= MAX_FRAGMENTS && CutsOf(cuts, n, |Body(d)|) && Indices(a, n)
    requires FragmentOf(p, d, cuts[i], cuts[i + 1])
    requires r == Reading(KeyOf(d), p[..HEADER], cuts[i], cuts[i + 1] < |d| - HEADER, Body(d)[cuts[i]..cuts[i + 1]])
    requires Holds(partial, d, cuts, n, a) && HeaderOk(partial)
    ensures var o := Absorb(partial, r);
            && (i in a ==> o == Ignored)
            && (i !in a && All(a + {i}, n) ==> o == Complete(d))
            && (i !in a && !All(a + {i}, n) ==> o.Kept? && Holds(o.partial, d, cuts, n, a + {i}))
  {
    hide Whole, FragmentOf, Find, Sort, Cover, Assemble, Represents, DistinctStarts, FirstHeader;
    FindTile(partial.pieces, Body(d), cuts, n, a, i);
    if i !in a {
      FragmentHeader(p, d, cuts[i], cuts[i + 1]);
      ExtendHolds(partial, d, cuts, n, a, i, r);
      IndicesSize(a + {i}, n);
      var extended := Extended(partial, r);
      if extended.header.Some? && extended.end.Some? {
        AssembleHolds(extended, d, cuts, n, a + {i});
      }
    }
  }

  lemma FragmentHeader(p: seq<byte>, d: seq<byte>, lo: nat, hi: nat)
    requires Sized(d) && FragmentOf(p, d, lo, hi)
    ensures FirstHeader(p[..HEADER], d)
  {
    hide SameSender;
    SameSenderPrefix(p, d);
    assert WordAt(p[..HEADER], 6) == WordAt(p, 6);
  }
}
