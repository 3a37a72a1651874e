/** Octets and the big-endian integers that packet headers are made of, with a few facts about
    sequences, sets and maps. */
module Bytes {

  type byte = x: int | 0 <= x < 256

  datatype Option<+T> = None | Some(value: T)

  /** The 16-bit big-endian word stored at offset `i`. */
  function WordAt(b: seq<byte>, i: nat): (w: nat)
    requires i + 2 <= |b|
    ensures w < 0x1_0000
  {
    256 * (b[i] as int) + b[i + 1] as int
  }

  /** `b` with the 16-bit word at offset `i` overwritten by `w`. */
  function PutWord(b: seq<byte>, i: nat, w: nat): (r: seq<byte>)
    requires i + 2 <= |b| && w < 0x1_0000
    ensures |r| == |b| && WordAt(r, i) == w
    ensures forall j :: 0 <= j < |b| && j != i && j != i + 1 ==> r[j] == b[j]
  {
    b[i := w / 256][i + 1 := w % 256]
  }

  function Min(a: int, b: int): int {
    if a <= b then a else b
  }

  function Max(a: int, b: int): int {
    if a <= b then b else a
  }

  /** A word is determined by, and determines, its two octets. */
  lemma WordDetermines(a: seq<byte>, b: seq<byte>, i: nat)
    requires i + 2 <= |a| && i + 2 <= |b|
    ensures WordAt(a, i) == WordAt(b, i) <==> a[i] == b[i] && a[i + 1] == b[i + 1]
  {
  }

  lemma SliceOfSlice<T>(d: seq<T>, a: nat, b: nat, lo: nat, hi: nat)
    requires a <= b <= |d| && lo <= hi <= b - a
    ensures d[a..b][lo..hi] == d[a + lo..a + hi]
  {
    var l, r := d[a..b][lo..hi], d[a + lo..a + hi];
    assert |l| == |r| && forall i :: 0 <= i < |l| ==> l[i] == r[i];
  }

  lemma SubsetSize<T>(a: set<T>, b: set<T>)
    requires a <= b
    ensures |a| <= |b|
  {
    assert b == a + (b - a);
  }

  function Without<T>(s: seq<T>, k: nat): seq<T>
    requires k < |s|
  {
    s[..k] + s[k + 1..]
  }

  /** A nonempty map has an entry that comes first. */
  lemma {:induction false} Earliest<K, V>(m: map<K, V>, at: V -> int) returns (k: K)
    requires |m| > 0
    ensures k in m && forall j :: j in m ==> at(m[k]) <= at(m[j])
    decreases |m|
  {
    k :| k in m;
    var rest := m - {k};
    assert rest.Keys == m.Keys - {k};
    assert forall i :: i in m ==> i == k || i in rest;
    if |rest| > 0 {
      var j := Earliest(rest, at);
      k := if at(m[k]) <= at(m[j]) then k else j;
    } else {
      assert rest.Keys == {};
    }
  }
}
