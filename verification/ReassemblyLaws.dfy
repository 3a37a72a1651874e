/** What one call of the reassembler does, in the octets of the packet and the pieces held, and the
    count of what it gives up. */
module ReassemblyLaws {
  import opened Bytes
  import opened Ipv4Split
  import opened Reassembly
  import opened ReassemblyTiles
  import opened RoundTripRuns
  import opened ReassemblySafety

  // ----- which packets are taken at all -----

  /** The header length and the total length the packet states. */
  function Stated(p: seq<byte>): (int, int)
    requires |p| >= 4
  {
    (p[0] % 16 * 4, 256 * (p[2] as int) + p[3] as int)
  }

  /** A fragment is malformed when a stated length cannot be, and misplaced when it is a middle piece
      that is not a whole number of eight octets or would end past 65,535. */
  lemma MalformedIff(p: seq<byte>)
    requires |p| >= 4
    ensures var (h, t) := Stated(p); WellFormed(p) <==> 20 <= h <= t <= |p|
  {
  }

  lemma MisplacedIff(p: seq<byte>)
    requires |p| >= 4 && WellFormed(p)
    ensures var (h, t) := Stated(p);
            Misplaced(Read(p)) <==>
              (p[6] / 32 % 2 == 1 && (t - h) % 8 != 0) || 8 * (p[6] % 32 * 256 + p[7]) + t > 65_535
  {
    var flags := WordAt(p, 6);
    MoreBit(p[6], p[7]);
  }

  lemma MoreBit(a: byte, b: byte)
    ensures More(256 * (a as int) + b as int) <==> a / 32 % 2 == 1
    ensures OffsetUnits(256 * (a as int) + b as int) == a % 32 * 256 + b
  {
    assert (256 * (a as int) + b as int) / 0x2000 == a / 32;
  }

  // ----- one piece meeting its datagram -----

  /** In order of their offsets the pieces follow each other from octet 0 until a gap. */
  ghost predicate GapFirst(sorted: seq<Piece>) {
    exists n :: 0 <= n < |sorted| && ChainUpTo(sorted, n) && sorted[n].start > EndOf(sorted, n)
  }

  /** The octet after the first `n` pieces. */
  function EndOf(sorted: seq<Piece>, n: nat): nat
    requires n <= |sorted|
  {
    if n == 0 then 0 else sorted[n - 1].start + |sorted[n - 1].bytes|
  }

  ghost predicate ChainUpTo(sorted: seq<Piece>, n: nat)
    requires n <= |sorted|
  {
    forall i :: 0 <= i < n ==> sorted[i].start == EndOf(sorted, i)
  }

  lemma ChainGrows(q: seq<Piece>, n: nat)
    requires n < |q| && ChainUpTo(q, n) && q[n].start == EndOf(q, n)
    ensures ChainUpTo(q, n + 1)
  {
  }

  /** The first piece that does not start where the one before it ends says how covering stops. */
  lemma {:induction false} CoverStops(q: seq<Piece>, n: nat) returns (m: nat)
    requires n <= |q| && ChainUpTo(q, n)
    ensures n <= m <= |q| && ChainUpTo(q, m) && (m < |q| ==> q[m].start != EndOf(q, m))
    ensures Cover(q[n..], EndOf(q, n)) == if m == |q| then Covered(EndOf(q, m))
                                          else if q[m].start > EndOf(q, m) then Gap else Overlap
    decreases |q| - n
  {
    hide ChainUpTo;
    if n == |q| || q[n].start != EndOf(q, n) {
      m := n;
    } else {
      assert q[n..][1..] == q[n + 1..];
      ChainGrows(q, n);
      m := CoverStops(q, n + 1);
    }
  }

  lemma CoverIs(q: seq<Piece>)
    ensures Cover(q, 0) == Gap <==> GapFirst(q)
    ensures Cover(q, 0).Covered? <==> ChainUpTo(q, |q|)
    ensures Cover(q, 0).Covered? ==> Cover(q, 0).upto == EndOf(q, |q|)
  {
    hide Cover;
    var m := CoverStops(q, 0);
    assert q[0..] == q;
    assert forall n :: 0 <= n < |q| && ChainUpTo(q, n) && q[n].start > EndOf(q, n) ==> n == m;
  }

  /** The pieces held together with the new one. */
  function With(partial: Partial, r: Reading): seq<Piece> {
    partial.pieces + [Piece(r.offset, r.payload)]
  }

  /** The first header and the end, with what the new piece says of them. */
  function HeaderWith(partial: Partial, r: Reading): Option<seq<byte>> {
    if r.offset == 0 then Some(r.header) else partial.header
  }

  function EndWith(partial: Partial, r: Reading): Option<nat> {
    if r.more then partial.end else Some(r.offset + |r.payload|)
  }

  ghost predicate OffsetTaken(partial: Partial, offset: nat) {
    exists q :: q in partial.pieces && q.start == offset
  }

  /** A new offset, no second end that differs, and no sixty-fifth piece. */
  ghost predicate Admissible(partial: Partial, r: Reading) {
    && !OffsetTaken(partial, r.offset) && |partial.pieces| < 64
    && (partial.end.Some? ==> EndWith(partial, r) == partial.end)
  }

  /** An exact copy is ignored. A piece of an admissible kind completes the datagram exactly when the
      first and the last piece are known and all of them lie side by side up to the end within 65,535
      octets; it is kept while either is unknown or the first irregularity is a gap; otherwise the
      datagram is given up. */
  lemma PieceIs(partial: Partial, r: Reading)
    requires HeaderOk(partial) && |r.header| >= 20 && DistinctStarts(partial.pieces)
    ensures Absorb(partial, r) == Ignored <==> Piece(r.offset, r.payload) in partial.pieces
    ensures var sorted, header, end := Sort(With(partial, r)), HeaderWith(partial, r), EndWith(partial, r);
            && (Absorb(partial, r).Complete? <==>
                  && Admissible(partial, r) && header.Some? && end.Some? && |header.value| + end.value <= 65_535
                  && Contiguous(sorted, end.value))
            && (Absorb(partial, r).Kept? <==>
                  && Admissible(partial, r)
                  && (header.Some? && end.Some? ==> |header.value| + end.value <= 65_535 && GapFirst(sorted)))
    ensures Absorb(partial, r).Kept? ==>
              var kept := Absorb(partial, r).partial;
              && kept.started == partial.started && multiset(kept.pieces) == multiset(With(partial, r))
              && kept.header == HeaderWith(partial, r) && kept.end == EndWith(partial, r)
  {
    hide Sort, Find, Contiguous, GapFirst, Assemble, OffsetTaken;
    TakenIs(partial, r);
    var extended := Extended(partial, r);
    if extended.header.Some? && extended.end.Some? {
      AssembleIs(extended);
    }
  }

  lemma AssembleIs(partial: Partial)
    requires partial.header.Some? && partial.end.Some? && |partial.header.value| >= HEADER && partial.pieces != []
    ensures var fits, sorted := |partial.header.value| + partial.end.value <= 65_535, Sort(partial.pieces);
            && (Assemble(partial).Complete? <==> fits && Contiguous(sorted, partial.end.value))
            && (Assemble(partial).Kept? <==> fits && GapFirst(sorted))
            && (Assemble(partial).Kept? ==> Assemble(partial).partial == partial.(pieces := sorted))
            && Assemble(partial) != Ignored && multiset(sorted) == multiset(partial.pieces)
  {
    hide WholeHeader, Sort, Concat, Cover, GapFirst, Contiguous, ChainUpTo;
    var sorted := Sort(partial.pieces);
    SortKeeps(partial.pieces);
    CoverIs(sorted);
    if ChainUpTo(sorted, |sorted|) {
      ChainIsContiguous(sorted);
      ContiguousOnce(sorted, EndOf(sorted, |sorted|), partial.end.value);
    }
    if Contiguous(sorted, partial.end.value) {
      ContiguousIsChain(sorted, partial.end.value);
    }
  }

  lemma ContiguousOnce(q: seq<Piece>, end: nat, other: nat)
    requires Contiguous(q, end)
    ensures Contiguous(q, other) <==> other == end
  {
  }

  lemma TakenIs(partial: Partial, r: Reading)
    requires DistinctStarts(partial.pieces)
    ensures var i := Find(partial.pieces, r.offset);
            && (i < |partial.pieces| <==> OffsetTaken(partial, r.offset))
            && (i < |partial.pieces| && partial.pieces[i].bytes == r.payload
                <==> Piece(r.offset, r.payload) in partial.pieces)
  {
    var i := Find(partial.pieces, r.offset);
    if i < |partial.pieces| {
      assert partial.pieces[i] in partial.pieces;
    }
    if Piece(r.offset, r.payload) in partial.pieces {
      var j :| 0 <= j < |partial.pieces| && partial.pieces[j] == Piece(r.offset, r.payload);
    }
    forall q | q in partial.pieces && q.start == r.offset ensures i < |partial.pieces| {
      var j :| 0 <= j < |partial.pieces| && partial.pieces[j] == q;
    }
  }

  lemma ChainIsContiguous(q: seq<Piece>)
    requires |q| > 0 && ChainUpTo(q, |q|)
    ensures Contiguous(q, EndOf(q, |q|))
    ensures forall m :: 0 <= m < |q| ==> q[m].start == EndOf(q, m)
  {
    assert q[0].start == EndOf(q, 0);
    forall i | 0 < i < |q| ensures q[i].start == q[i - 1].start + |q[i - 1].bytes| {
      assert q[i].start == EndOf(q, i);
    }
  }

  lemma ContiguousIsChain(q: seq<Piece>, end: nat)
    requires Contiguous(q, end)
    ensures ChainUpTo(q, |q|) && EndOf(q, |q|) == end
  {
  }

  // ----- what is given up is counted -----

  /** The call begins a datagram: the packet is taken and nothing live is held under its key. */
  predicate Begins(s: State, e: Event)
    requires |e.packet| >= 4
  {
    && WellFormed(e.packet) && !Misplaced(Read(e.packet))
    && var key := Read(e.packet).key;
       !(key in s.partials && e.now - s.partials[key].started < 2000)
  }

  function One(b: bool): nat {
    if b then 1 else 0
  }

  /** Every datagram begun is held, returned or counted as discarded, and so is every malformed packet. */
  lemma StepBalances(s: State, e: Event)
    requires |e.packet| >= 4 && HeadersOk(s)
    requires WellFormed(e.packet) && Evicts(Expire(s, e.now), Read(e.packet).key) ==>
               e.victim in Expire(s, e.now).partials
    ensures var (s', whole) := Step(s, e.packet, e.now, e.victim);
            |s'.partials| + s'.discarded + One(whole.Some?)
            == |s.partials| + s.discarded + One(!WellFormed(e.packet)) + One(Begins(s, e))
  {
    hide WellFormed, Misplaced, Read, Absorb, Discard, Settle;
    var live := Expire(s, e.now);
    FewerLive(s.partials, e.now);
    if WellFormed(e.packet) {
      var r := Read(e.packet);
      DiscardBalances(live, r.key);
      if !Misplaced(r) {
        var admitted := Admitted(s, r.key, e.now, e.victim);
        AdmittedOk(s, r.key, e.now, e.victim);
        DiscardBalances(live, e.victim);
        var partial := PartialAt(admitted, r.key, e.now);
        NewIsNotIgnored(partial, r);
        SettleBalances(admitted, r.key, Absorb(partial, r));
      }
    }
  }

  lemma NewIsNotIgnored(partial: Partial, r: Reading)
    requires HeaderOk(partial) && |r.header| >= HEADER
    ensures partial.pieces == [] ==> Absorb(partial, r) != Ignored
  {
    if Extended(partial, r).header.Some? && Extended(partial, r).end.Some? {
      AssembleIs(Extended(partial, r));
    }
    hide Assemble;
  }

  lemma DiscardBalances(s: State, key: Key)
    ensures |Discard(s, key).partials| + Discard(s, key).discarded == |s.partials| + s.discarded
    ensures forall k :: k in Discard(s, key).partials <==> k in s.partials && k != key
  {
    if key in s.partials {
      assert (s.partials - {key}).Keys == s.partials.Keys - {key};
    }
  }

  lemma SettleBalances(s: State, key: Key, outcome: Outcome)
    requires outcome != Ignored || key in s.partials
    ensures var t := Settle(s, key, outcome);
            |t.partials| + t.discarded + One(outcome.Complete?)
            == |s.partials| + s.discarded + One(key !in s.partials)
  {
    assert (s.partials - {key}).Keys == s.partials.Keys - {key};
    if outcome.Kept? {
      assert s.partials[key := outcome.partial].Keys == s.partials.Keys + {key};
    }
  }

  /** The malformed packets, the datagrams begun and the datagrams returned in a run. */
  ghost function Malformed(es: seq<Event>): nat
    requires Callable(es)
  {
    if es == [] then 0 else Malformed(es[..|es| - 1]) + One(!WellFormed(es[|es| - 1].packet))
  }

  ghost function Begun(es: seq<Event>): nat
    requires Callable(es)
  {
    if es == [] then 0
    else Begun(es[..|es| - 1]) + One(Begins(After(State(map[], 0), es[..|es| - 1]), es[|es| - 1]))
  }

  ghost function Returned(es: seq<Event>): nat
    requires Callable(es)
  {
    if es == [] then 0 else Returned(es[..|es| - 1]) + One(ResultAt(State(map[], 0), es, |es| - 1).Some?)
  }

  /** Over every run the discarded count is exactly what was malformed or begun, less what was
      returned and what is still held. */
  lemma {:induction false} DiscardedIs(es: seq<Event>)
    requires Callable(es) && Possible(State(map[], 0), es)
    ensures var s := After(State(map[], 0), es);
            s.discarded == Malformed(es) + Begun(es) - Returned(es) - |s.partials|
  {
    hide Step, WellFormed, Evicts, Expire, Read, Begins;
    if es != [] {
      var j := |es| - 1;
      var init := es[..j];
      assert forall i :: 0 <= i < j ==> es[..i] == init[..i];
      DiscardedIs(init);
      StepBalances(After(State(map[], 0), init), es[j]);
    }
  }
}
