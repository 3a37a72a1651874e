/** The `Reassembler` of `engine/src/ipv4_fragments.rs`: its state, its step as a function, and the
    imperative class that is proved to take exactly that step. */
module Reassembly {
  import opened Bytes
  import opened Checksum
  import opened Ipv4Split
  import Sorting

  /** Milliseconds. */
  const FRAGMENT_TIMEOUT := 2000
  const MAX_DATAGRAMS := 64
  const MAX_FRAGMENTS := 64
  const MAX_LENGTH := 65_535

  datatype Piece = Piece(start: nat, bytes: seq<byte>)

  datatype Partial = Partial(started: int, header: Option<seq<byte>>, pieces: seq<Piece>, end: Option<nat>)

  datatype State = State(partials: map<Key, Partial>, discarded: nat)

  /** What a well-formed packet says about itself. */
  datatype Reading = Reading(key: Key, header: seq<byte>, offset: nat, more: bool, payload: seq<byte>)

  function HeaderLength(packet: seq<byte>): nat
    requires |packet| >= 1
  {
    packet[0] % 16 * 4
  }

  predicate WellFormed(packet: seq<byte>)
    requires |packet| >= 4
  {
    HEADER <= HeaderLength(packet) <= WordAt(packet, 2) <= |packet|
  }

  function Read(packet: seq<byte>): (r: Reading)
    requires |packet| >= 4 && WellFormed(packet)
    ensures HEADER <= |r.header| <= 60
  {
    var flags := WordAt(packet, 6);
    Reading(KeyOf(packet), packet[..HeaderLength(packet)], OffsetUnits(flags) * 8, More(flags),
            packet[HeaderLength(packet)..WordAt(packet, 2)])
  }

  /** Header and payload are the whole packet up to its stated length, and the header alone says which
      datagram the piece belongs to and where. */
  lemma ReadParts(packet: seq<byte>)
    requires |packet| >= 4 && WellFormed(packet)
    ensures var r := Read(packet);
            && r.header + r.payload == packet[..WordAt(packet, 2)] && KeyOf(r.header) == r.key
            && r.offset == 8 * OffsetUnits(WordAt(r.header, 6)) && r.more == More(WordAt(r.header, 6))
  {
    var r := Read(packet);
    assert r.header[12..16] == packet[12..16] && r.header[16..20] == packet[16..20];
  }

  /** A middle piece that is not a whole number of units, or one that ends past the largest datagram. */
  predicate Misplaced(r: Reading) {
    (r.more && |r.payload| % 8 != 0) || |r.header| + r.offset + |r.payload| > MAX_LENGTH
  }

  // ----- the partials as a whole -----

  /** Elapsed time saturates at zero. */
  predicate Live(partial: Partial, now: int) {
    now - partial.started < FRAGMENT_TIMEOUT
  }

  function LivePartials(partials: map<Key, Partial>, now: int): map<Key, Partial> {
    map k | k in partials && Live(partials[k], now) :: partials[k]
  }

  function Expire(s: State, now: int): State {
    var live := LivePartials(s.partials, now);
    FewerLive(s.partials, now);
    State(live, s.discarded + |s.partials| - |live|)
  }

  lemma FewerLive(partials: map<Key, Partial>, now: int)
    ensures |LivePartials(partials, now)| <= |partials|
  {
    SubsetSize(LivePartials(partials, now).Keys, partials.Keys);
  }

  function Discard(s: State, key: Key): State {
    if key in s.partials then State(s.partials - {key}, s.discarded + 1) else s
  }

  predicate Oldest(partials: map<Key, Partial>, key: Key) {
    key in partials && forall k :: k in partials ==> partials[key].started <= partials[k].started
  }

  predicate Evicts(s: State, key: Key) {
    key !in s.partials && |s.partials| >= MAX_DATAGRAMS
  }

  // ----- one datagram -----

  datatype Outcome = Ignored | Distrusted | Kept(partial: Partial) | Complete(datagram: seq<byte>)

  function Find(pieces: seq<Piece>, start: nat): (i: nat)
    ensures i <= |pieces|
    ensures i < |pieces| ==> pieces[i].start == start
    ensures forall j :: 0 <= j < i ==> pieces[j].start != start
  {
    if pieces == [] || pieces[0].start == start then 0 else 1 + Find(pieces[1..], start)
  }

  function ByStart(): (Piece, Piece) -> bool {
    (p: Piece, q: Piece) => p.start <= q.start
  }

  /** The pieces in the order of their offsets. */
  function Sort(pieces: seq<Piece>): seq<Piece> {
    Sorting.Sort(pieces, ByStart())
  }

  datatype Coverage = Gap | Overlap | Covered(upto: nat)

  /** How far the pieces reach without a gap or an overlap, from octet `covered` on. */
  function Cover(pieces: seq<Piece>, covered: nat): Coverage {
    if pieces == [] then Covered(covered)
    else if pieces[0].start > covered then Gap
    else if pieces[0].start < covered then Overlap
    else Cover(pieces[1..], covered + |pieces[0].bytes|)
  }

  function Concat(pieces: seq<Piece>): seq<byte> {
    if pieces == [] then [] else pieces[0].bytes + Concat(pieces[1..])
  }

  /** The header the datagram keeps: its own length, only the Don't Fragment flag, a fresh checksum. */
  function WholeHeader(header: seq<byte>, length: nat): (h: seq<byte>)
    requires |header| >= HEADER && length < 0x1_0000
    ensures |h| == |header|
  {
    var flags := if DontFragment(WordAt(header, 6)) then 0x4000 else 0;
    var zeroed := PutWord(PutWord(PutWord(header, 2, length), 6, flags), 10, 0);
    PutWord(zeroed, 10, InternetChecksum(zeroed))
  }

  /** The datagram, once the pieces in order cover exactly [0, end). */
  function Assemble(partial: Partial): Outcome
    requires partial.header.Some? && partial.end.Some? && |partial.header.value| >= HEADER
  {
    var header := partial.header.value;
    if |header| + partial.end.value > MAX_LENGTH then Distrusted
    else
      var sorted := Sort(partial.pieces);
      match Cover(sorted, 0)
      case Gap => Kept(partial.(pieces := sorted))
      case Overlap => Distrusted
      case Covered(upto) =>
        if upto != partial.end.value then Distrusted
        else CoverIsLength(sorted, 0); Complete(WholeHeader(header, |header| + upto) + Concat(sorted))
  }

  lemma {:induction false} CoverIsLength(pieces: seq<Piece>, covered: nat)
    requires Cover(pieces, covered).Covered?
    ensures Cover(pieces, covered).upto == covered + |Concat(pieces)|
  {
    if pieces != [] {
      CoverIsLength(pieces[1..], covered + |pieces[0].bytes|);
    }
  }

  predicate HeaderOk(partial: Partial) {
    partial.header.Some? ==> |partial.header.value| >= HEADER
  }

  /** The partial with the piece, its header and its end taken in. */
  function Extended(partial: Partial, r: Reading): Partial {
    Partial(partial.started,
            if r.offset == 0 then Some(r.header) else partial.header,
            partial.pieces + [Piece(r.offset, r.payload)],
            if r.more then partial.end else Some(r.offset + |r.payload|))
  }

  function Absorb(partial: Partial, r: Reading): Outcome
    requires HeaderOk(partial) && |r.header| >= HEADER
  {
    var i := Find(partial.pieces, r.offset);
    if i < |partial.pieces| then
      if partial.pieces[i].bytes == r.payload then Ignored else Distrusted
    else if !r.more && partial.end.Some? && partial.end.value != r.offset + |r.payload| then Distrusted
    else
      var extended := Extended(partial, r);
      if |extended.pieces| > MAX_FRAGMENTS then Distrusted
      else if extended.header.None? || extended.end.None? then Kept(extended)
      else Assemble(extended)
  }

  // ----- the whole step -----

  ghost predicate HeadersOk(s: State) {
    forall k :: k in s.partials ==> HeaderOk(s.partials[k])
  }

  function PartialAt(s: State, key: Key, now: int): Partial {
    if key in s.partials then s.partials[key] else Partial(now, None, [], None)
  }

  function Settle(s: State, key: Key, outcome: Outcome): State {
    match outcome
    case Ignored => s
    case Distrusted => State(s.partials - {key}, s.discarded + 1)
    case Kept(partial) => State(s.partials[key := partial], s.discarded)
    case Complete(_) => State(s.partials - {key}, s.discarded)
  }

  /** The state in which the piece meets its datagram: the expired and, at the bound, the oldest
      partial are gone. `victim` resolves a tie for oldest. */
  function Admitted(s: State, key: Key, now: int, victim: Key): State {
    var live := Expire(s, now);
    if Evicts(live, key) then Discard(live, victim) else live
  }

  function Step(s: State, packet: seq<byte>, now: int, victim: Key): (State, Option<seq<byte>>)
    requires |packet| >= 4 && HeadersOk(s)
  {
    var live := Expire(s, now);
    if !WellFormed(packet) then (live.(discarded := live.discarded + 1), None)
    else
      var r := Read(packet);
      if Misplaced(r) then (Discard(live, r.key), None)
      else
        var admitted := Admitted(s, r.key, now, victim);
        var outcome := Absorb(PartialAt(admitted, r.key, now), r);
        (Settle(admitted, r.key, outcome), if outcome.Complete? then Some(outcome.datagram) else None)
  }

  lemma PushValid(s: State, packet: seq<byte>, now: int, victim: Key)
    requires |packet| >= 4 && HeadersOk(s)
    ensures HeadersOk(Step(s, packet, now, victim).0)
  {
    hide Sort, Cover, Concat, WholeHeader, Find, Misplaced;
  }

  // ----- the class -----

  class Reassembler {
    var partials: map<Key, Partial>
    var discarded: nat

    ghost function Contents(): State
      reads this
    {
      State(partials, discarded)
    }

    constructor ()
      ensures Contents() == State(map[], 0)
    {
      partials := map[];
      discarded := 0;
    }

    method DiscardKey(key: Key)
      modifies this
      ensures Contents() == Discard(old(Contents()), key)
    {
      if key in partials {
        partials := partials - {key};
        discarded := discarded + 1;
      }
    }

    method ExpireOld(now: int)
      modifies this
      ensures Contents() == Expire(old(Contents()), now)
    {
      var before := |partials|;
      partials := LivePartials(partials, now);
      FewerLive(old(partials), now);
      discarded := discarded + (before - |partials|);
    }

    method MakeRoom(key: Key) returns (victim: Key)
      modifies this
      ensures key !in old(partials) && |old(partials)| >= 64 ==>
                victim in old(partials)
                && forall k :: k in old(partials) ==> old(partials)[victim].started <= old(partials)[k].started
      ensures Contents() == if Evicts(old(Contents()), key) then Discard(old(Contents()), victim) else old(Contents())
    {
      victim := key;
      if key !in partials && |partials| >= MAX_DATAGRAMS {
        OldestExists(partials);
        victim :| Oldest(partials, victim);
        DiscardKey(victim);
      }
    }

    method Push(packet: seq<byte>, now: int) returns (whole: Option<seq<byte>>, victim: Key)
      requires |packet| >= 4 && HeadersOk(Contents())
      modifies this
      ensures (Contents(), whole) == Step(old(Contents()), packet, now, victim)
      ensures HeadersOk(Contents())
      ensures var live := LivePartials(old(partials), now);
              WellFormed(packet) && !Misplaced(Read(packet)) && KeyOf(packet) !in live && |live| >= 64 ==>
                victim in live && forall k :: k in live ==> live[victim].started <= live[k].started
    {
      hide Absorb, WordAt, Misplaced, KeyOf, LivePartials, HeaderOk, WellFormed;
      ExpireOld(now);
      victim := Key([], [], 0, 0);
      if !WellFormed(packet) {
        discarded := discarded + 1;
        PushValid(old(Contents()), packet, now, victim);
        return None, victim;
      }
      var r := Read(packet);
      victim := r.key;
      if Misplaced(r) {
        DiscardKey(r.key);
        PushValid(old(Contents()), packet, now, victim);
        return None, victim;
      }
      victim := MakeRoom(r.key);
      AdmittedOk(old(Contents()), r.key, now, victim);
      var partial := PartialAt(State(partials, discarded), r.key, now);
      var outcome := TakeIn(partial, r);
      whole := Conclude(r.key, outcome);
      PushValid(old(Contents()), packet, now, victim);
    }

    method Conclude(key: Key, outcome: Outcome) returns (whole: Option<seq<byte>>)
      modifies this
      ensures Contents() == Settle(old(Contents()), key, outcome)
      ensures whole == if outcome.Complete? then Some(outcome.datagram) else None
    {
      whole := None;
      match outcome {
        case Ignored =>
        case Distrusted =>
          partials := partials - {key};
          discarded := discarded + 1;
        case Kept(kept) =>
          partials := partials[key := kept];
        case Complete(datagram) =>
          partials := partials - {key};
          whole := Some(datagram);
      }
    }
  }

  lemma AdmittedOk(s: State, key: Key, now: int, victim: Key)
    requires HeadersOk(s)
    ensures HeadersOk(Admitted(s, key, now, victim))
    ensures HeaderOk(PartialAt(Admitted(s, key, now, victim), key, now))
  {
  }

  lemma OldestExists(partials: map<Key, Partial>)
    requires |partials| > 0
    ensures exists k :: Oldest(partials, k)
  {
    var k := Earliest(partials, (p: Partial) => p.started);
    assert Oldest(partials, k);
  }

  /** The branches of `push` on one datagram, with its coverage loop. */
  method TakeIn(partial: Partial, r: Reading) returns (outcome: Outcome)
    requires HeaderOk(partial) && |r.header| >= HEADER
    ensures outcome == Absorb(partial, r)
  {
    var i := Find(partial.pieces, r.offset);
    if i < |partial.pieces| {
      if partial.pieces[i].bytes != r.payload {
        return Distrusted;
      }
      return Ignored;
    }
    var end := r.offset + |r.payload|;
    if !r.more && partial.end.Some? && partial.end.value != end {
      return Distrusted;
    }
    var extended := Extended(partial, r);
    if |extended.pieces| > MAX_FRAGMENTS {
      return Distrusted;
    }
    if extended.header.None? || extended.end.None? {
      return Kept(extended);
    }
    outcome := Rebuild(extended);
  }

  method Rebuild(partial: Partial) returns (outcome: Outcome)
    requires partial.header.Some? && partial.end.Some? && |partial.header.value| >= HEADER
    ensures outcome == Assemble(partial)
  {
    hide WholeHeader, Sort;
    var header, end := partial.header.value, partial.end.value;
    if |header| + end > MAX_LENGTH {
      return Distrusted;
    }
    var sorted := Sort(partial.pieces);
    CoverIsLengthIf(sorted);
    var covered: nat, payload := 0, [];
    for i := 0 to |sorted|
      invariant Cover(sorted, 0) == Cover(sorted[i..], covered)
      invariant payload + Concat(sorted[i..]) == Concat(sorted)
    {
      var piece := sorted[i];
      assert sorted[i..][1..] == sorted[i + 1..];
      if piece.start > covered {
        return Kept(partial.(pieces := sorted));
      } else if piece.start < covered {
        return Distrusted;
      }
      covered := covered + |piece.bytes|;
      payload := payload + piece.bytes;
    }
    if covered != end {
      return Distrusted;
    }
    return Complete(WholeHeader(header, |header| + |payload|) + payload);
  }

  lemma CoverIsLengthIf(pieces: seq<Piece>)
    ensures Cover(pieces, 0).Covered? ==> Cover(pieces, 0).upto == |Concat(pieces)|
  {
    if Cover(pieces, 0).Covered? {
      CoverIsLength(pieces, 0);
    }
  }
}
