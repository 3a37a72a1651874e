/** The decoder of `engine/src/fec.rs`: rebuilding a lost packet from a repair and the packets that
    did arrive. */
module FecDecoder {
  import opened Bytes
  import opened Parity
  import opened FecFormat

  const RECENT_CAPACITY := 512
  const PENDING_CAPACITY := 32
  /** Milliseconds. */
  const PENDING_MAX_AGE := 500

  datatype Slot = Slot(sequence: nat, packet: seq<byte>)

  datatype State = State(recent: seq<Slot>, pending: seq<Repair>, storing: bool, received: nat, unrecoverable: nat)

  const INITIAL := State([], [], false, 0, 0)

  type Delivered = nat -> bool

  predicate Shaped(s: State) {
    && (|s.recent| == 0 || |s.recent| == RECENT_CAPACITY)
    && (forall slot <- s.recent :: |slot.packet| <= MAX_PACKET)
    && (forall r <- s.pending :: ShapedRepair(r))
  }

  predicate ShapedRepair(r: Repair) {
    0 < |r.members| <= MAX_GROUP && |r.parity| > LENGTH_PREFIX
  }

  lemma ParsedIsShaped(payload: seq<byte>, now: int)
    ensures Parse(payload, now).Some? ==> ShapedRepair(Parse(payload, now).value)
  {
    hide FromBytes;
    if Parse(payload, now).Some? {
      MembersLength(FromBytes(payload[1..9]), FromBytes(payload[1..9]), payload[10..10 + payload[9] - 1]);
    }
  }

  lemma {:induction false} MembersLength(base: nat, last: nat, offsets: seq<byte>)
    ensures Members(base, last, offsets).Some? ==> |Members(base, last, offsets).value| == |offsets|
    decreases |offsets|
  {
    if offsets != [] {
      MembersLength(base, base + offsets[0], offsets[1..]);
    }
  }

  function BlankSlots(): (r: seq<Slot>)
    ensures |r| == RECENT_CAPACITY
  {
    seq(RECENT_CAPACITY, _ => Slot(0, []))
  }

  function Remember(s: State, sequence: nat, packet: seq<byte>): State
    requires Shaped(s) && |packet| <= MAX_PACKET
  {
    if !s.storing then s
    else
      var slots := if s.recent == [] then BlankSlots() else s.recent;
      s.(recent := slots[sequence % RECENT_CAPACITY := Slot(sequence, packet)])
  }

  function Stored(s: State, sequence: nat): (p: Option<seq<byte>>)
    requires Shaped(s)
    ensures p.Some? ==> 0 < |p.value| <= MAX_PACKET
  {
    if s.recent == [] then None
    else
      var slot := s.recent[sequence % RECENT_CAPACITY];
      if slot.sequence == sequence && slot.packet != [] then Some(slot.packet) else None
  }

  /** The members that have not reached the receiver, in order. */
  function Missing(members: seq<nat>, delivered: Delivered): (m: seq<nat>)
    ensures forall x :: x in m <==> x in members && !delivered(x)
  {
    if members == [] then []
    else (if delivered(members[0]) then [] else [members[0]]) + Missing(members[1..], delivered)
  }

  /** The parity with every stored member but `lost` folded in; none when one is not stored or does not fit. */
  function FoldStored(s: State, members: seq<nat>, lost: nat, parity: seq<byte>): Option<seq<byte>>
    requires Shaped(s)
  {
    if members == [] then Some(parity)
    else if members[0] == lost then FoldStored(s, members[1..], lost, parity)
    else
      match Stored(s, members[0])
      case None => None
      case Some(packet) =>
        if LENGTH_PREFIX + |packet| > |parity| then None
        else FoldStored(s, members[1..], lost, XorPad(parity, Frame(packet)))
  }

  /** What the length prefix at the front of `parity` delimits. */
  function Unframe(parity: seq<byte>): Option<seq<byte>>
    requires |parity| >= LENGTH_PREFIX
  {
    var length := WordAt(parity, 0);
    if length == 0 || LENGTH_PREFIX + length > |parity| then None
    else Some(parity[LENGTH_PREFIX..LENGTH_PREFIX + length])
  }

  function Rebuild(s: State, r: Repair, lost: nat): Option<seq<byte>>
    requires Shaped(s) && ShapedRepair(r)
  {
    match FoldStored(s, r.members, lost, r.parity)
    case None => None
    case Some(parity) => if |parity| < LENGTH_PREFIX then None else Unframe(parity)
  }

  type Result = Option<(nat, seq<byte>)>

  function Resolve(s: State, r: Repair, delivered: Delivered): (State, Result)
    requires Shaped(s) && ShapedRepair(r)
  {
    var missing := Missing(r.members, delivered);
    if missing == [] then (s, None)
    else if |missing| > 1 then
      if |s.pending| >= PENDING_CAPACITY
      then (s.(pending := s.pending[1..] + [r], unrecoverable := s.unrecoverable + 1), None)
      else (s.(pending := s.pending + [r]), None)
    else
      match Rebuild(s, r, missing[0])
      case None => (s.(unrecoverable := s.unrecoverable + 1), None)
      case Some(packet) => (s, Some((missing[0], packet)))
  }

  function AcceptRepair(s: State, payload: seq<byte>, now: int, delivered: Delivered): (State, Result)
    requires Shaped(s)
  {
    match Parse(payload, now)
    case None => (s, None)
    case Some(r) =>
      ParsedIsShaped(payload, now);
      Resolve(s.(received := s.received + 1, storing := s.storing || |r.members| > 1), r, delivered)
  }

  predicate Fresh(r: Repair, now: int, delivered: Delivered) {
    now - r.receivedAt < PENDING_MAX_AGE || |Missing(r.members, delivered)| == 0
  }

  function KeepFresh(pending: seq<Repair>, now: int, delivered: Delivered): (k: seq<Repair>)
    ensures |k| <= |pending| && forall r <- k :: r in pending
  {
    if pending == [] then []
    else (if Fresh(pending[0], now, delivered) then [pending[0]] else []) + KeepFresh(pending[1..], now, delivered)
  }

  function KeepMissing(pending: seq<Repair>, delivered: Delivered): (k: seq<Repair>)
    ensures forall r <- k :: r in pending
  {
    if pending == [] then []
    else
      var first := if |Missing(pending[0].members, delivered)| > 0 then [pending[0]] else [];
      first + KeepMissing(pending[1..], delivered)
  }

  /** The first repair that waits for exactly one member. */
  function Ready(pending: seq<Repair>, delivered: Delivered): (i: nat)
    ensures i <= |pending|
    ensures i < |pending| ==> |Missing(pending[i].members, delivered)| == 1
  {
    if pending == [] || |Missing(pending[0].members, delivered)| == 1 then 0 else 1 + Ready(pending[1..], delivered)
  }

  /** Removal that moves the last element into the gap. */
  function SwapRemove(pending: seq<Repair>, i: nat): (k: seq<Repair>)
    requires i < |pending|
    ensures forall r <- k :: r in pending
  {
    if i == |pending| - 1 then pending[..i] else pending[i := pending[|pending| - 1]][..|pending| - 1]
  }

  function RetryPending(s: State, now: int, delivered: Delivered): (State, Result)
    requires Shaped(s)
  {
    var young := KeepFresh(s.pending, now, delivered);
    var kept := KeepMissing(young, delivered);
    var next := s.(pending := kept, unrecoverable := s.unrecoverable + |s.pending| - |young|);
    var i := Ready(kept, delivered);
    if i == |kept| then (next, None)
    else Resolve(next.(pending := SwapRemove(kept, i)), kept[i], delivered)
  }

  // ----- the class -----

  class Decoder {
    var recent: seq<Slot>
    var pending: seq<Repair>
    var storing: bool
    var received: nat
    var unrecoverable: nat

    ghost function Contents(): State
      reads this
    {
      State(recent, pending, storing, received, unrecoverable)
    }

    constructor ()
      ensures Contents() == INITIAL
    {
      recent, pending, storing, received, unrecoverable := [], [], false, 0, 0;
    }

    method RememberPacket(sequence: nat, packet: seq<byte>)
      requires Shaped(Contents()) && |packet| <= MAX_PACKET
      modifies this
      ensures Contents() == Remember(old(Contents()), sequence, packet)
    {
      if !storing {
        return;
      }
      if recent == [] {
        recent := BlankSlots();
      }
      recent := recent[sequence % RECENT_CAPACITY := Slot(sequence, packet)];
    }

    method RebuildPacket(r: Repair, lost: nat) returns (packet: Option<seq<byte>>)
      requires Shaped(Contents()) && ShapedRepair(r)
      ensures packet == Rebuild(Contents(), r, lost)
    {
      ghost var s := Contents();
      var parity := r.parity;
      for i := 0 to |r.members|
        invariant |parity| >= LENGTH_PREFIX
        invariant FoldStored(s, r.members, lost, r.parity) == FoldStored(s, r.members[i..], lost, parity)
      {
        var member := r.members[i];
        assert r.members[i..][1..] == r.members[i + 1..];
        if member != lost {
          var stored := Stored(State(recent, pending, storing, received, unrecoverable), member);
          if stored.None? || LENGTH_PREFIX + |stored.value| > |parity| {
            return None;
          }
          parity := XorMember(parity, stored.value);
        }
      }
      packet := Unframe(parity);
    }

    method ResolveRepair(r: Repair, delivered: Delivered) returns (result: Result)
      requires Shaped(Contents()) && ShapedRepair(r)
      modifies this
      ensures (Contents(), result) == Resolve(old(Contents()), r, delivered)
    {
      hide Rebuild, Missing, Shaped;
      result := None;
      var missing := Missing(r.members, delivered);
      if missing == [] {
        return;
      }
      if |missing| > 1 {
        if |pending| >= PENDING_CAPACITY {
          pending := pending[1..];
          unrecoverable := unrecoverable + 1;
        }
        pending := pending + [r];
        return;
      }
      var packet := RebuildPacket(r, missing[0]);
      if packet.None? {
        unrecoverable := unrecoverable + 1;
      } else {
        result := Some((missing[0], packet.value));
      }
    }

    method Accept(payload: seq<byte>, now: int, delivered: Delivered) returns (result: Result)
      requires Shaped(Contents())
      modifies this
      ensures (Contents(), result) == AcceptRepair(old(Contents()), payload, now, delivered)
    {
      hide Parse, Resolve;
      ParsedIsShaped(payload, now);
      var r := ParseRepair(payload, now);
      if r.None? {
        return None;
      }
      received := received + 1;
      storing := storing || |r.value.members| > 1;
      result := ResolveRepair(r.value, delivered);
    }

    method Retry(now: int, delivered: Delivered) returns (result: Result)
      requires Shaped(Contents())
      modifies this
      ensures (Contents(), result) == RetryPending(old(Contents()), now, delivered)
    {
      hide Resolve, KeepFresh, KeepMissing, Ready, ShapedRepair;
      var before := |pending|;
      pending := KeepFresh(pending, now, delivered);
      unrecoverable := unrecoverable + (before - |pending|);
      pending := KeepMissing(pending, delivered);
      var ready := Ready(pending, delivered);
      if ready == |pending| {
        return None;
      }
      var r := pending[ready];
      pending := SwapRemove(pending, ready);
      result := ResolveRepair(r, delivered);
    }
  }
}
