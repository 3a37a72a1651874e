/** What the reassembler may return, whatever it is sent. */
module ReassemblySafety {
  import opened Bytes
  import opened Checksum
  import opened Ipv4Split
  import opened Reassembly
  import opened ReassemblyTiles
  import opened RoundTripRuns

  /** What the well-formed packets of a run said about themselves. */
  ghost function Readings(es: seq<Event>): set<Reading>
    requires Callable(es)
  {
    set e | e in es && WellFormed(e.packet) :: Read(e.packet)
  }

  ghost predicate Sent(rs: set<Reading>, key: Key, q: Piece) {
    exists r :: r in rs && r.key == key && q == Piece(r.offset, r.payload)
  }

  ghost predicate SentHeader(rs: set<Reading>, key: Key, h: seq<byte>) {
    exists r :: r in rs && r.key == key && r.offset == 0 && r.header == h
  }

  ghost predicate SentEnd(rs: set<Reading>, key: Key, end: nat) {
    exists r :: r in rs && r.key == key && !r.more && r.offset + |r.payload| == end
  }

  /** Everything held for `key` was sent for `key`. */
  ghost predicate Grounded(partial: Partial, key: Key, rs: set<Reading>) {
    && |partial.pieces| <= 64 && DistinctStarts(partial.pieces)
    && (forall q <- partial.pieces :: Sent(rs, key, q))
    && (partial.header.Some? ==> SentHeader(rs, key, partial.header.value))
    && (partial.end.Some? ==> SentEnd(rs, key, partial.end.value))
  }

  ghost predicate Invariant(s: State, rs: set<Reading>) {
    && |s.partials| <= 64
    && forall k :: k in s.partials ==> Grounded(s.partials[k], k, rs)
  }

  /** Side by side from octet 0 to octet `end`. */
  predicate Contiguous(tiles: seq<Piece>, end: nat) {
    && |tiles| > 0 && tiles[0].start == 0
    && (forall i :: 0 < i < |tiles| ==> tiles[i].start == tiles[i - 1].start + |tiles[i - 1].bytes|)
    && end == tiles[|tiles| - 1].start + |tiles[|tiles| - 1].bytes|
  }

  lemma {:induction false} CoveredChains(q: seq<Piece>, covered: nat)
    requires Cover(q, covered).Covered? && |q| > 0
    ensures q[0].start == covered
    ensures forall i :: 0 < i < |q| ==> q[i].start == q[i - 1].start + |q[i - 1].bytes|
    ensures Cover(q, covered).upto == q[|q| - 1].start + |q[|q| - 1].bytes|
  {
    if |q| > 1 {
      CoveredChains(q[1..], covered + |q[0].bytes|);
      forall i | 0 < i < |q| ensures q[i].start == q[i - 1].start + |q[i - 1].bytes| {
        if i > 1 {
          assert q[1..][i - 1].start == q[1..][i - 2].start + |q[1..][i - 2].bytes|;
        }
      }
    }
  }

  /** The header of what is returned: its length field, no fragment fields, a verifying checksum. */
  lemma WholeHeaderVerifies(header: seq<byte>, length: nat)
    requires |header| >= HEADER && length < 0x1_0000
    ensures var h := WholeHeader(header, length);
            && WordAt(h, 2) == length && InternetChecksum(h) == 0
            && WordAt(h, 6) == (if DontFragment(WordAt(header, 6)) then 0x4000 else 0)
            && SameSender(h, header)
  {
    var flags := if DontFragment(WordAt(header, 6)) then 0x4000 else 0;
    var zeroed := PutWord(PutWord(PutWord(header, 2, length), 6, flags), 10, 0);
    WrittenChecksumVerifies(zeroed, 10);
  }

  /** A datagram made of one header and tiles sent under one key, and nothing else. */
  predicate MadeOf(d: seq<byte>, header: seq<byte>, tiles: seq<Piece>, end: nat) {
    && HEADER <= |header| && |header| + end == |d| < 0x1_0000 && Contiguous(tiles, end)
    && d[|header|..] == Concat(tiles)
    && SameSender(d, header) && InternetChecksum(d[..|header|]) == 0
    && WordAt(d, 2) == |d| && WordAt(d, 6) == (if DontFragment(WordAt(header, 6)) then 0x4000 else 0)
  }

  lemma AssembledIsMade(partial: Partial)
    requires partial.header.Some? && partial.end.Some? && |partial.header.value| >= HEADER && partial.pieces != []
    requires Assemble(partial).Complete?
    ensures MadeOf(Assemble(partial).datagram, partial.header.value, Sort(partial.pieces), partial.end.value)
  {
    var header, sorted := partial.header.value, Sort(partial.pieces);
    SortKeeps(partial.pieces);
    CoverIsLength(sorted, 0);
    CoveredChains(sorted, 0);
    WholeHeaderVerifies(header, |header| + partial.end.value);
    HeaderInFront(WholeHeader(header, |header| + partial.end.value), Concat(sorted), header);
  }

  lemma HeaderInFront(h: seq<byte>, body: seq<byte>, header: seq<byte>)
    requires |h| == |header| >= HEADER && SameSender(h, header)
    ensures SameSender(h + body, header) && (h + body)[..|h|] == h && (h + body)[|h|..] == body
    ensures WordAt(h + body, 2) == WordAt(h, 2) && WordAt(h + body, 6) == WordAt(h, 6)
  {
    var d := h + body;
    assert d[..2] == h[..2] && d[4..6] == h[4..6] && d[8..10] == h[8..10] && d[12..HEADER] == h[12..HEADER];
  }

  /** One piece, sent under `key`, meeting a partial all of which was sent under `key`. */
  lemma AbsorbGrounded(partial: Partial, key: Key, rs: set<Reading>, r: Reading)
    requires HeaderOk(partial) && |r.header| >= HEADER && Grounded(partial, key, rs) && r in rs && r.key == key
    ensures Absorb(partial, r).Kept? ==> Grounded(Absorb(partial, r).partial, key, rs)
    ensures Absorb(partial, r).Complete? ==>
              var extended := Extended(partial, r);
              && Grounded(extended, key, rs) && extended.header.Some? && extended.end.Some?
              && |extended.header.value| >= HEADER
              && MadeOf(Absorb(partial, r).datagram, extended.header.value, Sort(extended.pieces), extended.end.value)
  {
    hide Find, Cover, Concat, WholeHeader, DistinctStarts, MadeOf, Sort, Assemble;
    if !(Absorb(partial, r) == Ignored || Absorb(partial, r) == Distrusted) {
      ExtendGrounded(partial, key, rs, r);
      var extended := Extended(partial, r);
      if extended.header.Some? && extended.end.Some? {
        AssembleGrounded(extended, key, rs);
      }
    }
  }

  lemma AssembleGrounded(partial: Partial, key: Key, rs: set<Reading>)
    requires partial.header.Some? && partial.end.Some? && |partial.header.value| >= HEADER && partial.pieces != []
    requires Grounded(partial, key, rs)
    ensures Assemble(partial).Kept? ==> Grounded(Assemble(partial).partial, key, rs)
    ensures Assemble(partial).Complete? ==>
              MadeOf(Assemble(partial).datagram, partial.header.value, Sort(partial.pieces), partial.end.value)
  {
    hide Sent, SentHeader, SentEnd, MadeOf, Cover, WholeHeader, Concat;
    if Assemble(partial).Complete? {
      AssembledIsMade(partial);
    }
    SortKeeps(partial.pieces);
    SortAscending(partial.pieces);
    AscendingDistinct(Sort(partial.pieces));
  }

  lemma ExtendGrounded(partial: Partial, key: Key, rs: set<Reading>, r: Reading)
    requires Grounded(partial, key, rs) && r in rs && r.key == key
    requires Find(partial.pieces, r.offset) == |partial.pieces| < MAX_FRAGMENTS
    ensures Grounded(Extended(partial, r), key, rs)
  {
    assert Sent(rs, key, Piece(r.offset, r.payload));
    assert r.offset == 0 ==> SentHeader(rs, key, r.header);
    assert !r.more ==> SentEnd(rs, key, r.offset + |r.payload|);
  }

  lemma MoreReadings(s: State, rs: set<Reading>, more: set<Reading>)
    requires Invariant(s, rs) && rs <= more
    ensures Invariant(s, more)
  {
    forall k | k in s.partials ensures Grounded(s.partials[k], k, more) {
      assert Grounded(s.partials[k], k, rs);
      GroundedMore(s.partials[k], k, rs, more);
    }
  }

  lemma GroundedMore(partial: Partial, key: Key, rs: set<Reading>, more: set<Reading>)
    requires Grounded(partial, key, rs) && rs <= more
    ensures Grounded(partial, key, more)
  {
    forall q | q in partial.pieces ensures Sent(more, key, q) {
      assert Sent(rs, key, q);
    }
  }

  lemma AdmittedInvariant(s: State, key: Key, now: int, victim: Key, rs: set<Reading>)
    requires Invariant(s, rs) && (Evicts(Expire(s, now), key) ==> victim in Expire(s, now).partials)
    ensures var admitted := Admitted(s, key, now, victim);
            && Invariant(admitted, rs) && (key in admitted.partials || |admitted.partials| < MAX_DATAGRAMS)
            && Grounded(PartialAt(admitted, key, now), key, rs)
  {
    hide Grounded;
    FewerLive(s.partials, now);
    EmptyGrounded(Partial(now, None, [], None), key, rs);
    var live := Expire(s, now);
    assert live.partials.Keys <= s.partials.Keys;
    if Evicts(live, key) {
      assert (live.partials - {victim}).Keys == live.partials.Keys - {victim};
    }
  }

  lemma EmptyGrounded(partial: Partial, key: Key, rs: set<Reading>)
    requires partial.pieces == [] && partial.header.None? && partial.end.None?
    ensures Grounded(partial, key, rs)
  {
  }

  lemma SettleInvariant(s: State, key: Key, outcome: Outcome, rs: set<Reading>)
    requires Invariant(s, rs) && (key in s.partials || |s.partials| < MAX_DATAGRAMS)
    requires outcome.Kept? ==> Grounded(outcome.partial, key, rs)
    ensures Invariant(Settle(s, key, outcome), rs)
  {
    hide Grounded;
    assert (s.partials - {key}).Keys == s.partials.Keys - {key};
    SubsetSize(s.partials.Keys - {key}, s.partials.Keys);
    if outcome.Kept? {
      assert s.partials[key := outcome.partial].Keys == s.partials.Keys + {key};
    }
  }

  /** Every call keeps the bounds and the provenance, and what it returns was sent piece by piece. */
  lemma StepSafe(s: State, e: Event, rs: set<Reading>)
    returns (header: seq<byte>, tiles: seq<Piece>, end: nat)
    requires |e.packet| >= 4 && HeadersOk(s) && Invariant(s, rs)
    requires WellFormed(e.packet) ==> Read(e.packet) in rs
    requires WellFormed(e.packet) && Evicts(Expire(s, e.now), Read(e.packet).key) ==>
               e.victim in Expire(s, e.now).partials
    ensures Invariant(Step(s, e.packet, e.now, e.victim).0, rs)
    ensures Step(s, e.packet, e.now, e.victim).1.Some? ==>
              && WellFormed(e.packet) && Returnable(Read(e.packet).key, rs, header, tiles, end)
              && MadeOf(Step(s, e.packet, e.now, e.victim).1.value, header, tiles, end)
  {
    hide Grounded, Absorb, MadeOf, WordAt, KeyOf, Returnable;
    header, tiles, end := [], [], 0;
    LiveInvariant(s, e.now, rs);
    if WellFormed(e.packet) {
      var r := Read(e.packet);
      DiscardInvariant(Expire(s, e.now), r.key, rs);
      if !Misplaced(r) {
        AdmittedInvariant(s, r.key, e.now, e.victim, rs);
        AdmittedOk(s, r.key, e.now, e.victim);
        var admitted := Admitted(s, r.key, e.now, e.victim);
        var partial := PartialAt(admitted, r.key, e.now);
        AbsorbGrounded(partial, r.key, rs, r);
        SettleInvariant(admitted, r.key, Absorb(partial, r), rs);
        if Absorb(partial, r).Complete? {
          var extended := Extended(partial, r);
          header, tiles, end := extended.header.value, Sort(extended.pieces), extended.end.value;
          GroundedReturnable(extended, r.key, rs);
        }
      }
    }
  }

  /** One header and at most 64 tiles, all sent under `key`, the last of them as the last. */
  ghost predicate Returnable(key: Key, rs: set<Reading>, header: seq<byte>, tiles: seq<Piece>, end: nat) {
    && SentHeader(rs, key, header) && SentEnd(rs, key, end) && |tiles| <= 64
    && forall q <- tiles :: Sent(rs, key, q)
  }

  lemma GroundedReturnable(partial: Partial, key: Key, rs: set<Reading>)
    requires Grounded(partial, key, rs) && partial.header.Some? && partial.end.Some?
    ensures Returnable(key, rs, partial.header.value, Sort(partial.pieces), partial.end.value)
  {
    hide Sent, SentHeader, SentEnd;
    SortKeeps(partial.pieces);
  }

  lemma LiveInvariant(s: State, now: int, rs: set<Reading>)
    requires Invariant(s, rs)
    ensures Invariant(Expire(s, now), rs)
    ensures Invariant(Expire(s, now).(discarded := Expire(s, now).discarded + 1), rs)
  {
    hide Grounded;
    FewerLive(s.partials, now);
  }

  lemma DiscardInvariant(s: State, key: Key, rs: set<Reading>)
    requires Invariant(s, rs)
    ensures Invariant(Discard(s, key), rs)
  {
    hide Grounded;
    assert (s.partials - {key}).Keys == s.partials.Keys - {key};
    SubsetSize(s.partials.Keys - {key}, s.partials.Keys);
  }

  /** Evictions hit a partial that is there, as the class chooses them. */
  ghost predicate Possible(s: State, es: seq<Event>)
    requires HeadersOk(s) && Callable(es)
  {
    forall j :: 0 <= j < |es| && WellFormed(es[j].packet)
                && Evicts(Expire(After(s, es[..j]), es[j].now), Read(es[j].packet).key)
                ==> es[j].victim in Expire(After(s, es[..j]), es[j].now).partials
  }

  /** The bounds hold after every run from an empty reassembler, and what is held was sent under its
      key. */
  lemma {:induction false} RunSafe(es: seq<Event>)
    requires Callable(es) && Possible(State(map[], 0), es)
    ensures Invariant(After(State(map[], 0), es), Readings(es))
  {
    hide Step, Invariant, WellFormed, Expire, Evicts, Read;
    if es == [] {
      assert Readings(es) == {};
      EmptyInvariant();
    } else {
      var j := |es| - 1;
      var init := es[..j];
      assert forall i :: 0 <= i < j ==> es[..i] == init[..i];
      RunSafe(init);
      assert forall e <- init :: e in es;
      MoreReadings(After(State(map[], 0), init), Readings(init), Readings(es));
      var h, t, e := StepSafe(After(State(map[], 0), init), es[j], Readings(es));
    }
  }

  lemma EmptyInvariant()
    ensures Invariant(State(map[], 0), {})
  {
  }

  /** Whatever the fragments, a returned datagram is one header and a gap-free, overlap-free tiling by
      pieces sent under its key. */
  lemma ReturnedIsTiled(es: seq<Event>, j: nat) returns (key: Key, header: seq<byte>, tiles: seq<Piece>, end: nat)
    requires Callable(es) && Possible(State(map[], 0), es) && j < |es|
    requires ResultAt(State(map[], 0), es, j).Some?
    ensures Returnable(key, Readings(es[..j + 1]), header, tiles, end)
    ensures MadeOf(ResultAt(State(map[], 0), es, j).value, header, tiles, end)
  {
    hide Step, Invariant, Expire, Evicts, MadeOf, Returnable, WellFormed, Read;
    var init, upto := es[..j], es[..j + 1];
    assert forall i :: 0 <= i < j ==> es[..i] == init[..i];
    RunSafe(init);
    assert forall e <- init :: e in upto;
    MoreReadings(After(State(map[], 0), init), Readings(init), Readings(upto));
    assert es[j] == upto[j];
    header, tiles, end := StepSafe(After(State(map[], 0), init), es[j], Readings(upto));
    key := Read(es[j].packet).key;
  }

  /** A different piece at a held offset is a conflict: the datagram is given up, and counted. */
  lemma ConflictDiscards(s: State, e: Event, i: nat)
    requires |e.packet| >= 4 && HeadersOk(s) && WellFormed(e.packet) && !Misplaced(Read(e.packet))
    requires var key := Read(e.packet).key;
             && key in s.partials && Live(s.partials[key], e.now)
             && i < |s.partials[key].pieces| && DistinctStarts(s.partials[key].pieces)
             && s.partials[key].pieces[i].start == Read(e.packet).offset
             && s.partials[key].pieces[i].bytes != Read(e.packet).payload
    ensures var (s', r) := Step(s, e.packet, e.now, e.victim);
            && r == None && Read(e.packet).key !in s'.partials
            && s'.discarded == Expire(s, e.now).discarded + 1
  {
    var r := Read(e.packet);
    hide Read, WellFormed, Misplaced, Assemble, Extended;
    var pieces := s.partials[r.key].pieces;
    var at := Find(pieces, r.offset);
    assert at <= i && pieces[at].start == pieces[i].start;
    assert at == i;
    assert Expire(s, e.now).partials[r.key] == s.partials[r.key];
  }
}
