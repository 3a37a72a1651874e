/** The streaming encoder of `engine/src/fec.rs`, and what a run of it conserves. */
module FecEncoder {
  import opened Bytes
  import opened Parity
  import opened FecFormat

  /** Milliseconds. */
  const GROUP_MAX_AGE := 5

  /** The encoder seen from outside: the open group itself rather than its parity and offsets. */
  datatype State = State(groupSize: nat, maxPacket: nat, open: seq<Member>, openedAt: Option<int>)

  predicate Valid(s: State) {
    && 1 <= s.groupSize <= MAX_GROUP && s.maxPacket <= MAX_PACKET
    && (s.open != [] ==> Group(s.open)) && |s.open| <= s.groupSize
    && (s.openedAt.Some? <==> s.open != [])
  }

  predicate Expired(s: State, now: int) {
    s.openedAt.Some? && now >= s.openedAt.value + GROUP_MAX_AGE
  }

  predicate CanJoin(s: State, sequence: nat, now: int)
    requires s.open != []
  {
    && |s.open| < s.groupSize && sequence > s.open[|s.open| - 1].sequence
    && sequence - s.open[0].sequence <= MAX_SPAN && !Expired(s, now)
  }

  function Clamped(groupSize: nat): (g: nat)
    ensures 1 <= g <= MAX_GROUP
  {
    Max(1, Min(groupSize, MAX_GROUP))
  }

  datatype Call =
    | Push(sequence: nat, packet: seq<byte>, now: int)
    | SetGroupSize(groupSize: nat)
    | SetMaxPacket(maxPacket: nat)
    | FlushDue(now: int)

  predicate Callable(c: Call) {
    c.Push? ==> c.sequence < SEQUENCES
  }

  /** A pushed packet is protected unless it is empty or larger than the limit of the moment. */
  predicate Protects(s: State, c: Call) {
    c.Push? && 0 < |c.packet| <= s.maxPacket
  }

  /** Whether a call closes the open group. */
  predicate Closes(s: State, c: Call) {
    s.open != [] &&
    match c
    case Push(sequence, packet, now) => Protects(s, c) && !CanJoin(s, sequence, now)
    case SetGroupSize(groupSize) => Clamped(groupSize) != s.groupSize
    case SetMaxPacket(_) => false
    case FlushDue(now) => Expired(s, now)
  }

  function Step(s: State, c: Call): State {
    var closed := if Closes(s, c) then s.(open := [], openedAt := None) else s;
    match c
    case Push(sequence, packet, now) =>
      if !Protects(s, c) then s
      else closed.(open := closed.open + [Member(sequence, packet)],
                   openedAt := if closed.open == [] then Some(now) else closed.openedAt)
    case SetGroupSize(groupSize) => closed.(groupSize := Clamped(groupSize))
    case SetMaxPacket(maxPacket) => closed.(maxPacket := Min(maxPacket, MAX_PACKET))
    case FlushDue(_) => closed
  }

  function Emits(s: State, c: Call): Option<seq<byte>>
    requires Valid(s)
  {
    if Closes(s, c) then Some(RepairOf(s.open)) else None
  }

  lemma JoinedGroup(g: seq<Member>, m: Member)
    requires Group(g) && |g| < MAX_GROUP && g[|g| - 1].sequence < m.sequence < SEQUENCES
    requires m.sequence - g[0].sequence <= MAX_SPAN && 0 < |m.packet| <= MAX_PACKET
    ensures Group(g + [m])
  {
    var h := g + [m];
    forall i, j | 0 <= i < j < |h| ensures h[i].sequence < h[j].sequence {
      assert i == |g| - 1 || g[i].sequence < g[|g| - 1].sequence;
    }
  }

  lemma StepValid(s: State, c: Call)
    requires Valid(s) && Callable(c)
    ensures Valid(Step(s, c))
  {
    hide Group;
    if Protects(s, c) {
      if s.open != [] && !Closes(s, c) {
        JoinedGroup(s.open, Member(c.sequence, c.packet));
      } else {
        SingleGroup(Member(c.sequence, c.packet));
        assert [] + [Member(c.sequence, c.packet)] == [Member(c.sequence, c.packet)];
      }
    }
  }

  lemma SingleGroup(m: Member)
    requires m.sequence < SEQUENCES && 0 < |m.packet| <= MAX_PACKET
    ensures Group([m])
  {
  }

  // ----- the class -----

  class Encoder {
    var groupSize: nat
    var maxPacket: nat
    var base: nat
    var offsets: array<byte>
    var count: nat
    var parity: seq<byte>
    var openedAt: Option<int>
    /** The members of the open group, which the encoder does not keep. */
    ghost var open: seq<Member>

    ghost function Contents(): State
      reads this
    {
      State(groupSize, maxPacket, open, openedAt)
    }

    /** The fields encode the open group. */
    ghost predicate Represents()
      reads this, offsets
    {
      && Valid(Contents())
      && offsets.Length == MAX_GROUP && count == |open|
      && (count > 0 ==> base == open[0].sequence)
      && (forall i :: 0 <= i < count ==> offsets[i] == open[i].sequence - base)
      && Sized(Packets(open)) && parity == ParityOf(Packets(open))
    }

    constructor (size: nat, limit: nat)
      ensures Represents() && fresh(offsets)
      ensures Contents() == State(Clamped(size), Min(limit, MAX_PACKET), [], None)
    {
      groupSize := Max(1, Min(size, MAX_GROUP));
      maxPacket := Min(limit, MAX_PACKET);
      base := 0;
      offsets := new byte[MAX_GROUP](_ => 0);
      count := 0;
      parity := [];
      openedAt := None;
      open := [];
    }

    method CanJoinOpen(sequence: nat, now: int) returns (r: bool)
      requires Represents() && count > 0
      ensures r == CanJoin(Contents(), sequence, now)
    {
      var last := base + offsets[count - 1];
      r := count < groupSize && sequence > last && sequence - base <= MAX_SPAN
           && !(openedAt.Some? && now >= openedAt.value + GROUP_MAX_AGE);
    }

    method Close() returns (repair: Option<seq<byte>>)
      requires Represents()
      modifies this
      ensures Represents() && offsets == old(offsets)
      ensures repair == if old(open) == [] then None else Some(RepairOf(old(open)))
      ensures Contents() == old(Contents()).(open := [], openedAt := None)
    {
      hide ParityOf, ToBytes;
      if count == 0 {
        return None;
      }
      EncodedFields();
      repair := Some([VERSION] + ToBytes(base, 8) + [count] + offsets[1..count] + parity);
      count := 0;
      parity := EmptyParity();
      openedAt := None;
      open := [];
    }

    lemma EncodedFields()
      requires Represents() && count > 0
      ensures offsets[1..count] == Offsets(open)[1..] && count < 256
    {
    }

    method Push(sequence: nat, packet: seq<byte>, now: int) returns (closed: Option<seq<byte>>)
      requires Represents() && sequence < SEQUENCES
      modifies this, offsets
      ensures Represents() && offsets == old(offsets)
      ensures closed == Emits(old(Contents()), Call.Push(sequence, packet, now))
      ensures Contents() == Step(old(Contents()), Call.Push(sequence, packet, now))
    {
      hide ParityOf, RepairOf, Group;
      closed := None;
      if |packet| == 0 || |packet| > maxPacket {
        return;
      }
      StepValid(Contents(), Call.Push(sequence, packet, now));
      if count > 0 {
        var joins := CanJoinOpen(sequence, now);
        if !joins {
          closed := Close();
        }
      }
      Append(sequence, packet, now);
    }

    /** Adds a member to a group that has room for it. */
    method Append(sequence: nat, packet: seq<byte>, now: int)
      requires Represents() && count < MAX_GROUP
      requires 0 < |packet| <= MAX_PACKET
      requires count > 0 ==> base <= sequence <= base + MAX_SPAN
      requires Valid(Contents().(open := open + [Member(sequence, packet)], openedAt := Some(now)))
      modifies this, offsets
      ensures Represents() && offsets == old(offsets)
      ensures Contents() == old(Contents()).(open := old(open) + [Member(sequence, packet)],
                                             openedAt := if old(open) == [] then Some(now) else old(openedAt))
    {
      hide Group;
      ParityExtends(open, Member(sequence, packet));
      if count == 0 {
        base := sequence;
        openedAt := Some(now);
      }
      offsets[count] := sequence - base;
      count := count + 1;
      parity := XorMember(parity, packet);
      open := open + [Member(sequence, packet)];
    }

    method SetGroupSize(size: nat) returns (closed: Option<seq<byte>>)
      requires Represents()
      modifies this
      ensures Represents() && offsets == old(offsets)
      ensures closed == Emits(old(Contents()), Call.SetGroupSize(size))
      ensures Contents() == Step(old(Contents()), Call.SetGroupSize(size))
    {
      hide ParityOf, RepairOf, Group;
      var wanted := Max(1, Min(size, MAX_GROUP));
      if wanted == groupSize {
        return None;
      }
      closed := Close();
      groupSize := wanted;
    }

    method SetMaxPacket(limit: nat)
      requires Represents()
      modifies this
      ensures Represents() && offsets == old(offsets)
      ensures Contents() == Step(old(Contents()), Call.SetMaxPacket(limit))
    {
      maxPacket := Min(limit, MAX_PACKET);
    }

    method FlushDue(now: int) returns (closed: Option<seq<byte>>)
      requires Represents()
      modifies this
      ensures Represents() && offsets == old(offsets)
      ensures closed == Emits(old(Contents()), Call.FlushDue(now))
      ensures Contents() == Step(old(Contents()), Call.FlushDue(now))
    {
      hide ParityOf, RepairOf, Group;
      if openedAt.Some? && now >= openedAt.value + GROUP_MAX_AGE {
        closed := Close();
      } else {
        closed := None;
      }
    }
  }

  function EmptyParity(): (p: seq<byte>)
    ensures p == ParityOf(Packets([]))
  {
    []
  }

  lemma ParityExtends(g: seq<Member>, m: Member)
    requires Sized(Packets(g)) && |m.packet| <= MAX_PACKET
    ensures Sized(Packets(g + [m]))
    ensures ParityOf(Packets(g + [m])) == XorPad(ParityOf(Packets(g)), Frame(m.packet))
  {
    var ps := Packets(g + [m]);
    assert ps[..|g|] == Packets(g) && ps[|g|] == m.packet;
    assert ps == Packets(g) + [m.packet];
  }

  // ----- whole runs -----

  ghost function After(s: State, calls: seq<Call>): State {
    if calls == [] then s else Step(After(s, calls[..|calls| - 1]), calls[|calls| - 1])
  }

  lemma {:induction false} AfterValid(s: State, calls: seq<Call>)
    requires Valid(s) && forall c <- calls :: Callable(c)
    ensures Valid(After(s, calls))
  {
    if calls != [] {
      AfterValid(s, calls[..|calls| - 1]);
      StepValid(After(s, calls[..|calls| - 1]), calls[|calls| - 1]);
    }
  }

  /** The sequences a run protects, in the order they were pushed. */
  ghost function Protected(s: State, calls: seq<Call>): seq<nat> {
    if calls == [] then []
    else
      var init, last := calls[..|calls| - 1], calls[|calls| - 1];
      Protected(s, init) + if Protects(After(s, init), last) then [last.sequence] else []
  }

  /** The members the decoder reads out of the repairs a run emits, repair after repair. */
  ghost function Repaired(s: State, calls: seq<Call>): seq<nat>
    requires Valid(s) && forall c <- calls :: Callable(c)
  {
    if calls == [] then []
    else
      var init, last := calls[..|calls| - 1], calls[|calls| - 1];
      AfterValid(s, init);
      var out := Emits(After(s, init), last);
      Repaired(s, init) + if out.Some? && Parse(out.value, 0).Some? then Parse(out.value, 0).value.members else []
  }

  /** Conservation: the members of the repairs emitted so far, followed by the open group, are the
      protected pushes, each exactly once and in order. */
  lemma {:induction false} Conservation(s: State, calls: seq<Call>)
    requires Valid(s) && s.open == [] && forall c <- calls :: Callable(c)
    ensures Repaired(s, calls) + Sequences(After(s, calls).open) == Protected(s, calls)
  {
    hide Valid, Step, Parse, RepairOf, Callable;
    if calls == [] {
      assert Sequences(s.open) == [];
    } else {
      var init, last := calls[..|calls| - 1], calls[|calls| - 1];
      Conservation(s, init);
      AfterValid(s, init);
      var before := After(s, init);
      StepConserves(before, last, Repaired(s, init));
    }
  }

  lemma StepConserves(s: State, c: Call, emitted: seq<nat>)
    requires Valid(s) && Callable(c)
    ensures var out := Emits(s, c);
            var read := if out.Some? && Parse(out.value, 0).Some? then Parse(out.value, 0).value.members else [];
            (emitted + read) + Sequences(Step(s, c).open)
            == (emitted + Sequences(s.open)) + (if Protects(s, c) then [c.sequence] else [])
  {
    hide Parse, RepairOf, Group, CanJoin, Expired;
    var pushed: seq<Member> := if Protects(s, c) then [Member(c.sequence, c.packet)] else [];
    if Closes(s, c) {
      GroupSized(s.open);
      ParseRepairOf(s.open, 0);
      assert Step(s, c).open == pushed;
    } else {
      assert Step(s, c).open == s.open + pushed;
    }
  }

  /** Every repair fits: its longest member is within the limit, and its header within the reserve. */
  lemma {:induction false} RepairsFit(s: State, calls: seq<Call>, limit: nat)
    requires Valid(s) && s.open == [] && s.maxPacket <= limit
    requires forall c <- calls :: Callable(c) && (c.SetMaxPacket? ==> c.maxPacket <= limit)
    ensures Valid(After(s, calls)) && After(s, calls).maxPacket <= limit
    ensures forall m <- After(s, calls).open :: |m.packet| <= limit
    ensures forall c :: Emits(After(s, calls), c).Some? ==>
                          |Emits(After(s, calls), c).value| <= limit + REPAIR_HEADER_MAX
  {
    hide Group, RepairOf, Callable, CanJoin;
    AfterValid(s, calls);
    if calls != [] {
      RepairsFit(s, calls[..|calls| - 1], limit);
    }
    if After(s, calls).open != [] {
      RepairLength(After(s, calls).open, limit);
    }
  }
}
