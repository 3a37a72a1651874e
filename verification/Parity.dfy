/** Exclusive-or of octet strings of different lengths, as `xor_member` of `engine/src/fec.rs`
    accumulates it: the shorter one counts as continued by zeros. */
module Parity {
  import opened Bytes
  import opened Bits

  const LENGTH_PREFIX := 2
  const MAX_PACKET := 65_535

  function XorByte(a: byte, b: byte): byte {
    ByteXorFits(a, b);
    Xor(a, b)
  }

  lemma ByteXorFits(a: byte, b: byte)
    ensures Xor(a, b) < 256
  {
    assert Pow2(8) == 256 by { PowEight(); }
    XorFits(a, b, 8);
  }

  lemma PowEight()
    ensures Pow2(8) == 256
  {
    assert Pow2(4) == 16;
  }

  function At(p: seq<byte>, i: nat): byte {
    if i < |p| then p[i] else 0
  }

  /** The exclusive-or of `a` and `b`, as long as the longer of them. */
  function XorPad(a: seq<byte>, b: seq<byte>): (r: seq<byte>)
    ensures |r| == Max(|a|, |b|)
    ensures forall i :: 0 <= i < |r| ==> r[i] == XorByte(At(a, i), At(b, i))
  {
    seq(Max(|a|, |b|), i requires 0 <= i => XorByte(At(a, i), At(b, i)))
  }

  lemma XorPadAt(a: seq<byte>, b: seq<byte>, i: nat)
    ensures At(XorPad(a, b), i) == Xor(At(a, i), At(b, i))
  {
  }

  /** A packet behind its length. */
  function Frame(packet: seq<byte>): (f: seq<byte>)
    requires |packet| <= MAX_PACKET
    ensures |f| == LENGTH_PREFIX + |packet| && WordAt(f, 0) == |packet| && f[LENGTH_PREFIX..] == packet
  {
    [|packet| / 256, |packet| % 256] + packet
  }

  /** The in-place loop: grow the parity to the packet, then fold the length and the octets in. */
  method XorMember(parity: seq<byte>, packet: seq<byte>) returns (r: seq<byte>)
    requires |packet| <= MAX_PACKET
    ensures r == XorPad(parity, Frame(packet))
  {
    var needed := LENGTH_PREFIX + |packet|;
    r := parity;
    if |r| < needed {
      r := r + seq(needed - |r|, _ => 0);
    }
    ghost var grown := r;
    r := r[0 := XorByte(r[0], |packet| / 256)][1 := XorByte(r[1], |packet| % 256)];
    var i := 0;
    while i < |packet|
      invariant 0 <= i <= |packet| && |r| == |grown|
      invariant forall j :: 0 <= j < |r| ==>
        r[j] == if j < LENGTH_PREFIX + i then XorByte(grown[j], At(Frame(packet), j)) else grown[j]
    {
      r := r[LENGTH_PREFIX + i := XorByte(r[LENGTH_PREFIX + i], packet[i])];
      i := i + 1;
    }
    forall j | 0 <= j < |r| ensures r[j] == XorByte(At(parity, j), At(Frame(packet), j)) {
      XorZero(grown[j]);
    }
  }

  predicate Sized(packets: seq<seq<byte>>) {
    forall p <- packets :: |p| <= MAX_PACKET
  }

  /** The parity of a group of packets, in the order they were folded in. */
  function ParityOf(packets: seq<seq<byte>>): seq<byte>
    requires Sized(packets)
  {
    if packets == [] then [] else XorPad(ParityOf(packets[..|packets| - 1]), Frame(packets[|packets| - 1]))
  }

  /** Column `i` of the frames, folded. */
  function Column(packets: seq<seq<byte>>, i: nat): nat
    requires Sized(packets)
  {
    if packets == [] then 0 else Xor(Column(packets[..|packets| - 1], i), At(Frame(packets[|packets| - 1]), i))
  }

  lemma {:induction false} ParityColumn(packets: seq<seq<byte>>, i: nat)
    requires Sized(packets)
    ensures At(ParityOf(packets), i) == Column(packets, i)
  {
    if packets != [] {
      ParityColumn(packets[..|packets| - 1], i);
      XorPadAt(ParityOf(packets[..|packets| - 1]), Frame(packets[|packets| - 1]), i);
    }
  }

  /** The parity is as long as the longest frame. */
  lemma {:induction false} ParityLength(packets: seq<seq<byte>>)
    requires Sized(packets)
    ensures forall p <- packets :: LENGTH_PREFIX + |p| <= |ParityOf(packets)|
    ensures packets != [] ==> exists p :: p in packets && LENGTH_PREFIX + |p| == |ParityOf(packets)|
    ensures packets == [] ==> ParityOf(packets) == []
  {
    if packets != [] {
      var init, last := packets[..|packets| - 1], packets[|packets| - 1];
      ParityLength(init);
      assert packets == init + [last];
      if |ParityOf(init)| <= LENGTH_PREFIX + |last| {
        assert last in packets;
      } else {
        var p :| p in init && LENGTH_PREFIX + |p| == |ParityOf(init)|;
        assert p in packets;
      }
    }
  }

  lemma ColumnLast(init: seq<seq<byte>>, last: seq<byte>, i: nat)
    requires Sized(init) && |last| <= MAX_PACKET
    ensures Sized(init + [last]) && Column(init + [last], i) == Xor(Column(init, i), At(Frame(last), i))
  {
    hide Frame, At;
    assert (init + [last])[..|init|] == init;
  }

  /** A column is what one frame contributes and what the others do, whichever is taken out. */
  lemma {:induction false} ColumnWithout(packets: seq<seq<byte>>, k: nat, i: nat)
    requires Sized(packets) && k < |packets| && Sized(Without(packets, k))
    ensures Column(packets, i) == Xor(Column(Without(packets, k), i), At(Frame(packets[k]), i))
  {
    hide Column, Frame, At;
    var n := |packets| - 1;
    var init, last := packets[..n], packets[n];
    assert packets == init + [last];
    ColumnLast(init, last, i);
    if k == n {
      assert Without(packets, k) == init;
    } else {
      assert Without(packets, k) == Without(init, k) + [last];
      assert forall p <- Without(init, k) :: p in init;
      ColumnWithout(init, k, i);
      ColumnLast(Without(init, k), last, i);
      SwapLast(Column(Without(init, k), i), At(Frame(packets[k]), i), At(Frame(last), i));
    }
  }

  lemma SwapLast(w: nat, a: nat, b: nat)
    ensures Xor(Xor(w, a), b) == Xor(Xor(w, b), a)
  {
    XorAssociates(w, a, b);
    XorCommutes(a, b);
    XorAssociates(w, b, a);
  }

  lemma Cancel(w: nat, a: nat)
    ensures Xor(Xor(w, a), w) == a
  {
    XorCommutes(w, a);
    XorAssociates(a, w, w);
    XorSelf(w);
    XorZero(a);
  }

  /** Folding packets into a parity one after another. */
  function FoldIn(parity: seq<byte>, packets: seq<seq<byte>>): seq<byte>
    requires Sized(packets)
  {
    if packets == [] then parity else XorPad(FoldIn(parity, packets[..|packets| - 1]), Frame(packets[|packets| - 1]))
  }

  lemma {:induction false} FoldInColumn(parity: seq<byte>, packets: seq<seq<byte>>, i: nat)
    requires Sized(packets)
    ensures At(FoldIn(parity, packets), i) == Xor(At(parity, i), Column(packets, i))
  {
    if packets == [] {
      XorZero(At(parity, i));
    } else {
      var init, last := packets[..|packets| - 1], packets[|packets| - 1];
      FoldInColumn(parity, init, i);
      XorPadAt(FoldIn(parity, init), Frame(last), i);
      XorAssociates(At(parity, i), Column(init, i), At(Frame(last), i));
    }
  }

  lemma {:induction false} FoldInLength(parity: seq<byte>, packets: seq<seq<byte>>)
    requires Sized(packets) && forall p <- packets :: LENGTH_PREFIX + |p| <= |parity|
    ensures |FoldIn(parity, packets)| == |parity|
  {
    if packets != [] {
      FoldInLength(parity, packets[..|packets| - 1]);
    }
  }

  lemma FoldInLast(parity: seq<byte>, init: seq<seq<byte>>, last: seq<byte>)
    requires Sized(init) && |last| <= MAX_PACKET
    ensures Sized(init + [last]) && FoldIn(parity, init + [last]) == XorPad(FoldIn(parity, init), Frame(last))
  {
    hide Frame, XorPad;
    assert (init + [last])[..|init|] == init;
  }

  lemma {:induction false} FoldInFirst(parity: seq<byte>, first: seq<byte>, rest: seq<seq<byte>>)
    requires |first| <= MAX_PACKET && Sized(rest)
    ensures Sized([first] + rest)
    ensures FoldIn(XorPad(parity, Frame(first)), rest) == FoldIn(parity, [first] + rest)
  {
    hide XorPad, Frame;
    if rest == [] {
      FoldInLast(parity, [], first);
      assert [] + [first] == [first] + rest;
    } else {
      var init, last := rest[..|rest| - 1], rest[|rest| - 1];
      assert rest == init + [last] && [first] + rest == ([first] + init) + [last];
      FoldInFirst(parity, first, init);
      hide FoldIn;
      FoldInLast(XorPad(parity, Frame(first)), init, last);
      FoldInLast(parity, [first] + init, last);
    }
  }

  /** Column by column, the other members cancel out of the parity. */
  lemma OthersCancel(packets: seq<seq<byte>>, k: nat, i: nat)
    requires Sized(packets) && k < |packets| && Sized(Without(packets, k))
    ensures At(FoldIn(ParityOf(packets), Without(packets, k)), i) == At(Frame(packets[k]), i)
  {
    hide FoldIn, ParityOf, Column, Frame, At, Without;
    FoldInColumn(ParityOf(packets), Without(packets, k), i);
    ParityColumn(packets, i);
    ColumnWithout(packets, k, i);
    Cancel(Column(Without(packets, k), i), At(Frame(packets[k]), i));
  }

  /** The other members folded into the parity leave the frame of the one left out, then zeros. */
  lemma FoldOthers(packets: seq<seq<byte>>, k: nat)
    requires Sized(packets) && k < |packets| && Sized(Without(packets, k))
    ensures var left := FoldIn(ParityOf(packets), Without(packets, k));
            && |left| == |ParityOf(packets)| >= LENGTH_PREFIX + |packets[k]|
            && left[..LENGTH_PREFIX + |packets[k]|] == Frame(packets[k])
  {
    hide FoldIn, ParityOf, Column;
    var parity, others, frame := ParityOf(packets), Without(packets, k), Frame(packets[k]);
    var left := FoldIn(parity, others);
    ParityLength(packets);
    assert packets[k] in packets;
    FoldInLength(parity, others);
    forall i | 0 <= i < |frame| ensures left[i] == frame[i] {
      OthersCancel(packets, k, i);
    }
  }
}
