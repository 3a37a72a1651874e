/** Pieces that tile a payload: what sorting and covering them yields. */
module ReassemblyTiles {
  import opened Bytes
  import opened Reassembly

  /** Boundaries 0 = cuts[0] < ... < cuts[n] = length. */
  predicate CutsOf(cuts: seq<nat>, n: nat, length: nat) {
    && |cuts| == n + 1 && cuts[0] == 0 && cuts[n] == length
    && forall i, j :: 0 <= i < j <= n ==> cuts[i] < cuts[j]
  }

  /** The `i`th tile of `body`. */
  function Tile(body: seq<byte>, cuts: seq<nat>, i: nat): Piece
    requires i + 1 < |cuts| && cuts[i] <= cuts[i + 1] <= |body|
  {
    Piece(cuts[i], body[cuts[i]..cuts[i + 1]])
  }

  predicate Indices(a: set<nat>, n: nat) {
    forall i <- a :: i < n
  }

  ghost predicate IsTile(q: Piece, body: seq<byte>, cuts: seq<nat>, n: nat, a: set<nat>)
    requires CutsOf(cuts, n, |body|) && Indices(a, n)
  {
    exists i :: i in a && q == Tile(body, cuts, i)
  }

  /** `q` holds the tiles whose numbers are in `a`, and nothing else. */
  ghost predicate Represents(q: seq<Piece>, body: seq<byte>, cuts: seq<nat>, n: nat, a: set<nat>)
    requires CutsOf(cuts, n, |body|) && Indices(a, n)
  {
    && (forall i <- a :: Tile(body, cuts, i) in q)
    && (forall p <- q :: IsTile(p, body, cuts, n, a))
  }

  predicate DistinctStarts(q: seq<Piece>) {
    forall i, j :: 0 <= i < j < |q| ==> q[i].start != q[j].start
  }

  predicate Ascending(q: seq<Piece>) {
    forall i, j :: 0 <= i < j < |q| ==> q[i].start < q[j].start
  }

  // ----- sorting -----

  lemma SortKeeps(q: seq<Piece>)
    ensures multiset(Sort(q)) == multiset(q) && |Sort(q)| == |q| && forall p :: p in Sort(q) <==> p in q
  {
    Sorting.SortIs(q, ByStart());
  }

  function Differ(): (Piece, Piece) -> bool {
    (p: Piece, q: Piece) => p.start != q.start
  }

  /** Distinct offsets sort into strictly ascending ones. */
  lemma SortAscending(q: seq<Piece>)
    requires DistinctStarts(q)
    ensures Ascending(Sort(q))
  {
    Sorting.SortIs(q, ByStart());
    Sorting.PairwiseKept(q, Sort(q), Differ());
    var r := Sort(q);
    hide Sort, Sorting.Sort;
    assert Sorting.Sorted(r, ByStart()) && Sorting.Pairwise(r, Differ());
    forall i, j | 0 <= i < j < |r| ensures r[i].start < r[j].start {
      assert ByStart()(r[i], r[j]) && Differ()(r[i], r[j]);
    }
  }

  lemma AscendingDistinct(q: seq<Piece>)
    requires Ascending(q)
    ensures DistinctStarts(q)
  {
  }

  // ----- covering -----

  /** All the tiles from the `i`th on, ascending, cover to the end and concatenate to the rest of the body. */
  lemma {:induction false} CoverAll(q: seq<Piece>, body: seq<byte>, cuts: seq<nat>, n: nat, a: set<nat>, i: nat)
    requires CutsOf(cuts, n, |body|) && Indices(a, n) && i <= n
    requires Ascending(q) && Represents(q, body, cuts, n, a)
    requires forall k :: k in a <==> i <= k < n
    ensures Cover(q, cuts[i]) == Covered(|body|) && Concat(q) == body[cuts[i]..]
    decreases n - i
  {
    hide Represents, Ascending;
    if i == n {
      assert a == {};
      NoTiles(q, body, cuts, n, a);
    } else {
      assert i in a;
      FirstTile(q, body, cuts, n, a, i);
      RestTiles(q, body, cuts, n, a, i);
      CoverAll(q[1..], body, cuts, n, a - {i}, i + 1);
      CutBounds(cuts, n, |body|, i);
      assert body[cuts[i]..cuts[i + 1]] + body[cuts[i + 1]..] == body[cuts[i]..];
    }
  }

  /** With the last tile at hand and another missing, ascending tiles leave a gap. */
  lemma {:induction false} CoverGap(q: seq<Piece>, body: seq<byte>, cuts: seq<nat>, n: nat, a: set<nat>, i: nat,
                                    missing: nat)
    requires CutsOf(cuts, n, |body|) && Indices(a, n) && i <= missing < n
    requires Ascending(q) && Represents(q, body, cuts, n, a) && forall k <- a :: i <= k
    requires n - 1 in a && missing !in a
    ensures Cover(q, cuts[i]) == Gap
    decreases n - i
  {
    hide Represents, Ascending;
    if i in a {
      FirstTile(q, body, cuts, n, a, i);
      RestTiles(q, body, cuts, n, a, i);
      CoverGap(q[1..], body, cuts, n, a - {i}, i + 1, missing);
      CutBounds(cuts, n, |body|, i);
    } else {
      LaterTiles(q, body, cuts, n, a, i);
    }
  }

  lemma CutBounds(cuts: seq<nat>, n: nat, length: nat, i: nat)
    requires CutsOf(cuts, n, length) && i < n
    ensures cuts[i] < cuts[i + 1] <= length
  {
  }

  lemma NoTiles(q: seq<Piece>, body: seq<byte>, cuts: seq<nat>, n: nat, a: set<nat>)
    requires CutsOf(cuts, n, |body|) && Indices(a, n) && a == {} && Represents(q, body, cuts, n, a)
    ensures q == []
  {
    assert q != [] ==> IsTile(q[0], body, cuts, n, a);
  }

  lemma FirstTile(q: seq<Piece>, body: seq<byte>, cuts: seq<nat>, n: nat, a: set<nat>, i: nat)
    requires CutsOf(cuts, n, |body|) && Indices(a, n) && i < n && i in a
    requires Ascending(q) && Represents(q, body, cuts, n, a) && forall k <- a :: i <= k
    ensures |q| > 0 && q[0] == Tile(body, cuts, i)
  {
    var t := Tile(body, cuts, i);
    assert t in q;
    assert IsTile(q[0], body, cuts, n, a);
    var k :| k in a && q[0] == Tile(body, cuts, k);
    var at :| 0 <= at < |q| && q[at] == t;
  }

  lemma RestTiles(q: seq<Piece>, body: seq<byte>, cuts: seq<nat>, n: nat, a: set<nat>, i: nat)
    requires CutsOf(cuts, n, |body|) && Indices(a, n) && i < n && i in a
    requires Ascending(q) && Represents(q, body, cuts, n, a)
    requires |q| > 0 && q[0] == Tile(body, cuts, i)
    ensures Ascending(q[1..]) && Represents(q[1..], body, cuts, n, a - {i})
  {
    forall k | k in a - {i} ensures Tile(body, cuts, k) in q[1..] {
      assert Tile(body, cuts, k) in q;
      assert cuts[k] != cuts[i] by { assert k < i || i < k; }
    }
    forall p | p in q[1..] ensures IsTile(p, body, cuts, n, a - {i}) {
      assert p in q && IsTile(p, body, cuts, n, a);
      var k :| k in a && p == Tile(body, cuts, k);
      var at :| 0 <= at < |q| - 1 && q[1..][at] == p;
      assert q[0].start < q[at + 1].start;
    }
  }

  lemma LaterTiles(q: seq<Piece>, body: seq<byte>, cuts: seq<nat>, n: nat, a: set<nat>, i: nat)
    requires CutsOf(cuts, n, |body|) && Indices(a, n) && i < n && i !in a && n - 1 in a
    requires Represents(q, body, cuts, n, a) && forall k <- a :: i <= k
    ensures Cover(q, cuts[i]) == Gap
  {
    assert Tile(body, cuts, n - 1) in q;
    assert IsTile(q[0], body, cuts, n, a);
    var k :| k in a && q[0] == Tile(body, cuts, k);
    assert cuts[i] < cuts[k];
  }

  // ----- a set of tile numbers -----

  lemma {:induction false} IndicesSize(a: set<nat>, n: nat)
    requires Indices(a, n)
    ensures |a| <= n
  {
    if n == 0 {
      assert a == {};
    } else {
      IndicesSize(a - {n - 1}, n - 1);
    }
  }
}
