/** IPv4 headers and the splitter of `engine/src/ipv4_fragments.rs` (section 3.2 of RFC 791). */
module Ipv4Split {
  import opened Bytes
  import opened Checksum

  const HEADER := 20
  const MIN_MTU := 28

  datatype Key = Key(source: seq<byte>, destination: seq<byte>, protocol: byte, identification: nat)

  function KeyOf(packet: seq<byte>): Key
    requires |packet| >= HEADER
  {
    Key(packet[12..16], packet[16..20], packet[9], WordAt(packet, 4))
  }

  /** The fields of the flags word: the offset in units of eight octets, More Fragments, Don't Fragment. */
  function OffsetUnits(flags: nat): nat { flags % 0x2000 }

  predicate More(flags: nat) { flags / 0x2000 % 2 == 1 }

  predicate DontFragment(flags: nat) { flags / 0x4000 % 2 == 1 }

  /** The three values or-ed together. `units` overlaps More Fragments from 8192 up. */
  function FlagsWord(dontFragment: bool, units: nat, more: bool): (w: nat)
    requires units < 0x4000
    ensures w < 0x8000
    ensures DontFragment(w) == dontFragment && OffsetUnits(w) == units % 0x2000
    ensures More(w) == (more || units >= 0x2000)
  {
    (if dontFragment then 0x4000 else 0) + (if more || units >= 0x2000 then 0x2000 else 0) + units % 0x2000
  }

  /** Equal in every header octet but the length, the flags and the checksum. */
  predicate SameSender(a: seq<byte>, b: seq<byte>)
    requires |a| >= HEADER && |b| >= HEADER
  {
    a[..2] == b[..2] && a[4..6] == b[4..6] && a[8..10] == b[8..10] && a[12..HEADER] == b[12..HEADER]
  }

  /** A packet within `limit` octets whose header verifies. */
  predicate Sendable(p: seq<byte>, limit: nat) {
    HEADER <= |p| <= limit && InternetChecksum(p[..HEADER]) == 0
  }

  /** The header with the length and flags of one piece and a fresh checksum, then the piece. */
  function MakeFragment(header: seq<byte>, piece: seq<byte>, flags: nat): (f: seq<byte>)
    requires |header| == HEADER && HEADER + |piece| < 0x1_0000 && flags < 0x1_0000
    ensures |f| == HEADER + |piece| && f[HEADER..] == piece
    ensures WordAt(f, 2) == |f| && WordAt(f, 6) == flags
    ensures SameSender(f, header)
    ensures InternetChecksum(f[..HEADER]) == 0
  {
    var zeroed := PutWord(PutWord(PutWord(header, 2, HEADER + |piece|), 6, flags), 10, 0);
    WrittenChecksumVerifies(zeroed, 10);
    var summed := PutWord(zeroed, 10, InternetChecksum(zeroed));
    assert (summed + piece)[..HEADER] == summed;
    summed + piece
  }

  /** The chunks of `payload` from octet `at` on, each as a fragment. */
  function Chunks(header: seq<byte>, payload: seq<byte>, size: nat, base: nat, more: bool, at: nat): seq<seq<byte>>
    requires |header| == HEADER && HEADER + |payload| < 0x1_0000 && size >= 8
    requires base <= 0x1fff * 8
    decreases |payload| - at
  {
    if at >= |payload| then []
    else
      var end := Min(at + size, |payload|);
      var flags := FlagsWord(DontFragment(WordAt(header, 6)), (base + at) / 8, more || end < |payload|);
      [MakeFragment(header, payload[at..end], flags)] + Chunks(header, payload, size, base, more, at + size)
  }

  function ChunkSize(mtu: nat): (size: nat)
    requires mtu >= MIN_MTU
    ensures size % 8 == 0 && 8 <= size && HEADER + size <= mtu < HEADER + size + 8
  {
    (mtu - HEADER) / 8 * 8
  }

  predicate Splits(packet: seq<byte>, mtu: nat) {
    |packet| >= HEADER && packet[0] == 0x45 && mtu >= MIN_MTU && mtu < WordAt(packet, 2) <= |packet|
  }

  function SplitForTunnel(packet: seq<byte>, mtu: nat): Option<seq<seq<byte>>> {
    if !Splits(packet, mtu) then None
    else
      var flags := WordAt(packet, 6);
      Some(Chunks(packet[..HEADER], packet[HEADER..WordAt(packet, 2)], ChunkSize(mtu),
                  OffsetUnits(flags) * 8, More(flags), 0))
  }

  /** As a router splits: never a Don't Fragment datagram. */
  function Fragment(packet: seq<byte>, mtu: nat): Option<seq<seq<byte>>> {
    if |packet| < HEADER || DontFragment(WordAt(packet, 6)) then None else SplitForTunnel(packet, mtu)
  }

  // ----- what a splitter is for -----

  predicate Sized(d: seq<byte>) {
    HEADER < |d| < 0x1_0000
  }

  /** A datagram as a sender emits it: no options, its own length, no fragment fields, a canonical checksum. */
  predicate Whole(d: seq<byte>) {
    && Sized(d)
    && d[0] == 0x45
    && WordAt(d, 2) == |d|
    && WordAt(d, 6) == FlagsWord(DontFragment(WordAt(d, 6)), 0, false)
    && WordAt(d, 10) == InternetChecksum(PutWord(d[..HEADER], 10, 0))
  }

  /** `p` carries the octets [lo, hi) of the payload of `d`, and says so. */
  predicate FragmentOf(p: seq<byte>, d: seq<byte>, lo: nat, hi: nat)
    requires Sized(d)
  {
    && lo < hi <= |d| - HEADER
    && lo % 8 == 0 && (hi < |d| - HEADER ==> hi % 8 == 0)
    && |p| == HEADER + hi - lo
    && p[HEADER..] == d[HEADER + lo..HEADER + hi]
    && WordAt(p, 2) == |p|
    && WordAt(p, 6) == FlagsWord(DontFragment(WordAt(d, 6)), lo / 8, hi < |d| - HEADER)
    && SameSender(p, d)
  }

  /** The packets `ps` carry the consecutive stretches of [lo, hi) that `cuts` marks off. */
  predicate Tiling(ps: seq<seq<byte>>, cuts: seq<nat>, d: seq<byte>, lo: nat, hi: nat)
    requires Sized(d)
  {
    && |cuts| == |ps| + 1 && cuts[0] == lo && cuts[|ps|] == hi
    && forall i :: 0 <= i < |ps| ==> FragmentOf(ps[i], d, cuts[i], cuts[i + 1])
  }

  /** The boundaries a split of [at, hi) into chunks of `size` has. */
  function Cuts(at: nat, hi: nat, size: nat): (c: seq<nat>)
    requires size > 0 && at <= hi
    ensures |c| > 0 && c[0] == at && c[|c| - 1] == hi
    decreases hi - at
  {
    if at == hi then [at] else [at] + Cuts(Min(at + size, hi), hi, size)
  }

  /** There are as many stretches as it takes, and no more. */
  lemma {:induction false} CutsCount(at: nat, hi: nat, size: nat, n: nat)
    requires size > 0 && at <= hi
    ensures |Cuts(at, hi, size)| - 1 <= n <==> hi - at <= n * size
    decreases hi - at
  {
    if at < hi {
      if n > 0 {
        CutsCount(Min(at + size, hi), hi, size, n - 1);
        assert n * size == (n - 1) * size + size;
        assert (n - 1) * size >= 0;
      } else {
        assert n * size == 0;
      }
    } else {
      assert n * size >= 0;
    }
  }

  /** A whole datagram is the one-piece tiling of itself. */
  lemma WholeIsFragment(d: seq<byte>)
    requires Whole(d)
    ensures FragmentOf(d, d, 0, |d| - HEADER)
  {
  }

  /** When the splitter answers: for a packet without options that is at least as long as it says and
      says it is longer than an mtu of at least 28. Whether it forbids fragmentation makes no
      difference in the tunnel; a router never splits one that does. */
  lemma SplitAnswers(packet: seq<byte>, mtu: nat)
    ensures SplitForTunnel(packet, mtu).Some? <==>
              |packet| >= 20 && packet[0] == 0x45 && mtu >= 28 && mtu < WordAt(packet, 2) <= |packet|
    ensures Fragment(packet, mtu).Some? <==>
              |packet| >= 20 && WordAt(packet, 6) / 0x4000 % 2 == 0 && SplitForTunnel(packet, mtu).Some?
    ensures Fragment(packet, mtu).Some? ==> Fragment(packet, mtu) == SplitForTunnel(packet, mtu)
  {
  }

  /** For the packets a sender or an earlier split emits, too long for the link is all that counts. */
  lemma SplitIff(p: seq<byte>, d: seq<byte>, lo: nat, hi: nat, mtu: nat)
    requires Sized(d) && d[0] == 0x45 && FragmentOf(p, d, lo, hi) && mtu >= 28
    ensures SplitForTunnel(p, mtu).Some? <==> |p| > mtu
    ensures Fragment(p, mtu).Some? <==> |p| > mtu && WordAt(d, 6) / 0x4000 % 2 == 0
  {
    SameFirst(p, d);
    SameDontFragment(p, d, lo, hi);
    hide SameSender, FlagsWord;
  }

  lemma SameFirst(p: seq<byte>, d: seq<byte>)
    requires |p| >= HEADER && |d| >= HEADER && SameSender(p, d)
    ensures p[0] == d[0]
  {
    assert p[..2][0] == d[..2][0];
  }

  /** Splitting tiles: a fragment [lo, hi) of `d` - `d` itself included - that is too long for the link
      splits into fragments of `d` that tile [lo, hi), each within the mtu and with a verifying header. */
  lemma SplitTiles(p: seq<byte>, d: seq<byte>, lo: nat, hi: nat, mtu: nat)
    requires Sized(d) && d[0] == 0x45 && FragmentOf(p, d, lo, hi) && 28 <= mtu < |p|
    ensures SplitForTunnel(p, mtu).Some?
    ensures var ps := SplitForTunnel(p, mtu).value;
            && Tiling(ps, Cuts(lo, hi, ChunkSize(mtu)), d, lo, hi)
            && |ps| >= 2
            && forall q <- ps :: Sendable(q, mtu)
  {
    SplitIff(p, d, lo, hi, mtu);
    FragmentLength(p, d, lo, hi);
    hide Chunks, SameSender, Tiling, InternetChecksum, WordAt, Cuts, DontFragment, FragmentOf, Splits, OffsetUnits,
      More, Stretch, Sendable, ChunkSize;
    FragmentIsStretch(p, d, lo, hi);
    assert lo <= 0x1fff * 8;
    ChunksTile(p[..HEADER], p[HEADER..WordAt(p, 2)], d, lo, hi, ChunkSize(mtu), 0);
  }

  lemma FragmentLength(p: seq<byte>, d: seq<byte>, lo: nat, hi: nat)
    requires Sized(d) && FragmentOf(p, d, lo, hi)
    ensures HEADER <= |p| == WordAt(p, 2) && lo < hi && hi - lo == |p| - HEADER
  {
  }

  /** A router's split tiles as well, and no piece forbids being split again. */
  lemma FragmentTiles(p: seq<byte>, d: seq<byte>, lo: nat, hi: nat, mtu: nat)
    requires Sized(d) && d[0] == 0x45 && FragmentOf(p, d, lo, hi) && 28 <= mtu < |p|
    requires WordAt(d, 6) / 0x4000 % 2 == 0
    ensures Fragment(p, mtu).Some?
    ensures var ps := Fragment(p, mtu).value;
            && Tiling(ps, Cuts(lo, hi, ChunkSize(mtu)), d, lo, hi)
            && forall q <- ps :: Sendable(q, mtu) && !DontFragment(WordAt(q, 6))
  {
    SplitIff(p, d, lo, hi, mtu);
    hide Cuts, Chunks, Splits, ChunkSize, SameSender, FragmentOf;
    SplitTiles(p, d, lo, hi, mtu);
    var ps := Fragment(p, mtu).value;
    SameDontFragment(p, d, lo, hi);
    var cuts := Cuts(lo, hi, ChunkSize(mtu));
    forall q | q in ps ensures !DontFragment(WordAt(q, 6)) {
      var i :| 0 <= i < |ps| && ps[i] == q;
      SameDontFragment(q, d, cuts[i], cuts[i + 1]);
    }
  }

  lemma SameDontFragment(p: seq<byte>, d: seq<byte>, lo: nat, hi: nat)
    requires Sized(d) && FragmentOf(p, d, lo, hi)
    ensures lo < hi && |p| >= HEADER && DontFragment(WordAt(p, 6)) == DontFragment(WordAt(d, 6))
  {
  }

  lemma FragmentIsStretch(p: seq<byte>, d: seq<byte>, lo: nat, hi: nat)
    requires Sized(d) && FragmentOf(p, d, lo, hi)
    ensures Stretch(p[..HEADER], p[HEADER..WordAt(p, 2)], d, lo, hi)
    ensures OffsetUnits(WordAt(p, 6)) * 8 == lo && More(WordAt(p, 6)) == (hi < |d| - HEADER)
  {
    hide SameSender;
    SameSenderPrefix(p, d);
    assert p[HEADER..WordAt(p, 2)] == p[HEADER..];
    assert WordAt(p[..HEADER], 6) == WordAt(p, 6);
  }

  lemma SameSenderPrefix(p: seq<byte>, d: seq<byte>)
    requires |p| >= HEADER && |d| >= HEADER && SameSender(p, d)
    ensures SameSender(p[..HEADER], d)
  {
    var h := p[..HEADER];
    assert h[..2] == p[..2] && h[4..6] == p[4..6] && h[8..10] == p[8..10] && h[12..HEADER] == p[12..HEADER];
  }

  /** A header and the stretch [lo, hi) of the payload of `d`, ready to be split. */
  predicate Stretch(header: seq<byte>, payload: seq<byte>, d: seq<byte>, lo: nat, hi: nat)
    requires Sized(d)
  {
    && lo < hi <= |d| - HEADER && lo % 8 == 0 && (hi < |d| - HEADER ==> hi % 8 == 0)
    && |header| == HEADER && payload == d[HEADER + lo..HEADER + hi]
    && SameSender(header, d) && DontFragment(WordAt(header, 6)) == DontFragment(WordAt(d, 6))
  }

  /** What `Chunks` yields from octet `at` on: a tiling of the rest of the stretch in sendable packets. */
  predicate Tiled(cs: seq<seq<byte>>, d: seq<byte>, lo: nat, hi: nat, size: nat)
    requires Sized(d) && size > 0 && lo <= hi
  {
    Tiling(cs, Cuts(lo, hi, size), d, lo, hi) && forall q <- cs :: Sendable(q, HEADER + size)
  }

  lemma {:induction false} ChunksTile(header: seq<byte>, payload: seq<byte>, d: seq<byte>, lo: nat, hi: nat,
                                      size: nat, at: nat)
    requires Sized(d) && Stretch(header, payload, d, lo, hi)
    requires size >= 8 && size % 8 == 0 && at % 8 == 0 && at < hi - lo
    ensures var cs := Chunks(header, payload, size, lo, hi < |d| - HEADER, at);
            Tiled(cs, d, lo + at, hi, size) && |cs| >= (if hi - lo - at > size then 2 else 1)
    decreases hi - lo - at
  {
    hide FragmentOf, SameSender, Sendable, Tiling, Chunks, Cuts, DontFragment, WordAt;
    var more := hi < |d| - HEADER;
    var end := if at + size <= hi - lo then at + size else hi - lo;
    var rest := Chunks(header, payload, size, lo, more, at + size);
    var first := FirstChunk(header, payload, d, lo, hi, size, at, end);
    if end < hi - lo {
      ChunksTile(header, payload, d, lo, hi, size, end);
    } else {
      NoChunks(header, payload, d, lo, hi, size, at + size);
    }
    PrependTile(first, rest, d, lo + at, lo + end, hi, size);
  }

  lemma NoChunks(header: seq<byte>, payload: seq<byte>, d: seq<byte>, lo: nat, hi: nat, size: nat, at: nat)
    requires Sized(d) && Stretch(header, payload, d, lo, hi) && size >= 8 && at >= hi - lo
    ensures Tiled(Chunks(header, payload, size, lo, hi < |d| - HEADER, at), d, hi, hi, size)
  {
  }

  lemma PrependTile(first: seq<byte>, rest: seq<seq<byte>>, d: seq<byte>, lo: nat, mid: nat, hi: nat, size: nat)
    requires Sized(d) && size > 0 && lo < mid <= hi && mid == Min(lo + size, hi)
    requires FragmentOf(first, d, lo, mid) && Sendable(first, HEADER + size) && Tiled(rest, d, mid, hi, size)
    ensures Tiled([first] + rest, d, lo, hi, size)
    ensures mid < hi ==> |rest| > 0
  {
    hide FragmentOf, Sendable;
    assert Cuts(lo, hi, size) == [lo] + Cuts(mid, hi, size);
  }

  lemma FirstChunk(header: seq<byte>, payload: seq<byte>, d: seq<byte>, lo: nat, hi: nat, size: nat, at: nat, end: nat)
    returns (first: seq<byte>)
    requires Sized(d) && Stretch(header, payload, d, lo, hi)
    requires size >= 8 && size % 8 == 0 && at % 8 == 0 && at < hi - lo && end == Min(at + size, hi - lo)
    ensures var more := hi < |d| - HEADER;
            Chunks(header, payload, size, lo, more, at) == [first] + Chunks(header, payload, size, lo, more, at + size)
    ensures FragmentOf(first, d, lo + at, lo + end) && Sendable(first, HEADER + size)
  {
    hide SameSender, FlagsWord, MakeFragment, InternetChecksum, DontFragment, WordAt, FragmentOf, More, OffsetUnits;
    var piece := payload[at..end];
    SliceOfSlice(d, HEADER + lo, HEADER + hi, at, end);
    var flags := FlagsWord(DontFragment(WordAt(header, 6)), (lo + at) / 8, hi < |d| - HEADER || end < |payload|);
    first := MakeFragment(header, piece, flags);
    SameSenderTransitive(first, header, d);
    ChunkIsFragment(first, d, lo + at, lo + end);
  }

  lemma ChunkIsFragment(f: seq<byte>, d: seq<byte>, lo: nat, hi: nat)
    requires Sized(d) && lo < hi <= |d| - HEADER && lo % 8 == 0 && (hi < |d| - HEADER ==> hi % 8 == 0)
    requires |f| == HEADER + hi - lo && f[HEADER..] == d[HEADER + lo..HEADER + hi] && WordAt(f, 2) == |f|
    requires WordAt(f, 6) == FlagsWord(DontFragment(WordAt(d, 6)), lo / 8, hi < |d| - HEADER)
    requires SameSender(f, d)
    ensures FragmentOf(f, d, lo, hi)
  {
  }

  lemma SameSenderTransitive(a: seq<byte>, b: seq<byte>, c: seq<byte>)
    requires |a| >= HEADER && |b| >= HEADER && |c| >= HEADER
    requires SameSender(a, b) && SameSender(b, c)
    ensures SameSender(a, c)
  {
  }

  /** Splitting one piece of a tiling again leaves a tiling of the same datagram. */
  lemma ResplitTiles(ps: seq<seq<byte>>, cuts: seq<nat>, d: seq<byte>, lo: nat, hi: nat, i: nat, mtu: nat)
    returns (refined: seq<nat>)
    requires Sized(d) && Tiling(ps, cuts, d, lo, hi)
    requires d[0] == 0x45 && i < |ps| && 28 <= mtu < |ps[i]|
    ensures SplitForTunnel(ps[i], mtu).Some?
    ensures Tiling(ps[..i] + SplitForTunnel(ps[i], mtu).value + ps[i + 1..], refined, d, lo, hi)
  {
    SplitTiles(ps[i], d, cuts[i], cuts[i + 1], mtu);
    var qs := SplitForTunnel(ps[i], mtu).value;
    var inner := Cuts(cuts[i], cuts[i + 1], ChunkSize(mtu));
    var head := Join(ps[..i], cuts[..i + 1], qs, inner, d, lo, cuts[i], cuts[i + 1]);
    refined := Join(ps[..i] + qs, head, ps[i + 1..], cuts[i + 1..], d, lo, cuts[i + 1], hi);
  }

  /** Tilings of adjacent stretches join. */
  lemma Join(ps: seq<seq<byte>>, pc: seq<nat>, qs: seq<seq<byte>>, qc: seq<nat>, d: seq<byte>, lo: nat, mid: nat,
             hi: nat)
    returns (cuts: seq<nat>)
    requires Sized(d) && Tiling(ps, pc, d, lo, mid) && Tiling(qs, qc, d, mid, hi)
    ensures Tiling(ps + qs, cuts, d, lo, hi)
  {
    cuts := pc[..|ps|] + qc;
    forall i | 0 <= i < |ps + qs|
      ensures FragmentOf((ps + qs)[i], d, cuts[i], cuts[i + 1])
    {
      if i < |ps| {
        assert FragmentOf(ps[i], d, pc[i], pc[i + 1]);
      } else {
        assert FragmentOf(qs[i - |ps|], d, qc[i - |ps|], qc[i - |ps| + 1]);
      }
    }
  }
}
