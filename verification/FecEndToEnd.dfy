/** The encoder and the decoder together: what a receiver gets back was pushed by the sender. */
module FecEndToEnd {
  import opened Bytes
  import opened Parity
  import opened FecFormat
  import FecEncoder
  import opened FecDecoder
  import opened FecRuns

  type Calls = seq<FecEncoder.Call>

  predicate Pushes(c: FecEncoder.Call, m: Member) {
    c.Push? && c.sequence == m.sequence && c.packet == m.packet
  }

  ghost predicate Pushed(calls: Calls, m: Member) {
    exists i :: 0 <= i < |calls| && Pushes(calls[i], m)
  }

  /** A sender's run: every sequence stands for one packet. */
  ghost predicate Sends(calls: Calls) {
    && (forall c <- calls :: FecEncoder.Callable(c))
    && forall m, n :: Pushed(calls, m) && Pushed(calls, n) && m.sequence == n.sequence ==> m == n
  }

  ghost predicate Starts(s: FecEncoder.State) {
    FecEncoder.Valid(s) && s.open == []
  }

  lemma PushedLater(calls: Calls, n: nat, m: Member)
    requires n <= |calls| && Pushed(calls[..n], m)
    ensures Pushed(calls, m)
  {
    var i :| 0 <= i < n && Pushes(calls[..n][i], m);
    assert Pushes(calls[i], m);
  }

  lemma {:induction false} OpenWasPushed(s: FecEncoder.State, calls: Calls)
    requires s.open == []
    ensures forall m <- FecEncoder.After(s, calls).open :: Pushed(calls, m)
  {
    hide FecEncoder.Closes, FecEncoder.Protects;
    if calls != [] {
      var n := |calls| - 1;
      OpenWasPushed(s, calls[..n]);
      var before := FecEncoder.After(s, calls[..n]);
      forall m | m in FecEncoder.After(s, calls).open ensures Pushed(calls, m) {
        if m in before.open {
          PushedLater(calls, n, m);
        } else {
          assert Pushes(calls[n], m);
        }
      }
    }
  }

  /** Every repair a run emits is the repair of a group of packets the run has pushed. */
  lemma EmitsPushedGroup(s: FecEncoder.State, calls: Calls, n: nat) returns (g: seq<Member>)
    requires Starts(s) && n < |calls| && forall c <- calls :: FecEncoder.Callable(c)
    requires FecEncoder.Valid(FecEncoder.After(s, calls[..n]))
    requires FecEncoder.Emits(FecEncoder.After(s, calls[..n]), calls[n]).Some?
    ensures Group(g) && FecEncoder.Emits(FecEncoder.After(s, calls[..n]), calls[n]).value == RepairOf(g)
    ensures forall m <- g :: Pushed(calls, m)
  {
    hide FecEncoder.After, RepairOf, Group;
    g := FecEncoder.After(s, calls[..n]).open;
    OpenWasPushed(s, calls[..n]);
    forall m | m in g ensures Pushed(calls, m) {
      PushedLater(calls, n, m);
    }
  }

  // ----- what the network delivers -----

  datatype Arrival =
    | Data(sequence: nat, packet: seq<byte>)
    | Payload(payload: seq<byte>, now: int, delivered: Delivered)
    | Retry(now: int, delivered: Delivered)

  /** Call `n` emits `payload`. */
  ghost predicate EmittedAt(s: FecEncoder.State, calls: Calls, n: nat, payload: seq<byte>) {
    && n < |calls| && FecEncoder.Valid(FecEncoder.After(s, calls[..n]))
    && FecEncoder.Emits(FecEncoder.After(s, calls[..n]), calls[n]) == Some(payload)
  }

  /** What arrives was sent: packets as they were pushed, payloads as they were emitted, each any
      number of times and in any order. */
  ghost predicate WasSent(s: FecEncoder.State, calls: Calls, a: Arrival) {
    match a
    case Data(sequence, packet) => |packet| <= MAX_PACKET && Pushed(calls, Member(sequence, packet))
    case Payload(payload, _, _) => exists n :: EmittedAt(s, calls, n, payload)
    case Retry(_, _) => true
  }

  function Receive(d: State, a: Arrival): (State, Result)
    requires Shaped(d) && (a.Data? ==> |a.packet| <= MAX_PACKET)
  {
    match a
    case Data(sequence, packet) => (Remember(d, sequence, packet), None)
    case Payload(payload, now, delivered) => AcceptRepair(d, payload, now, delivered)
    case Retry(now, delivered) => RetryPending(d, now, delivered)
  }

  // ----- the packet of each sequence -----

  function PacketOf(calls: Calls, sequence: nat): seq<byte> {
    if calls == [] then []
    else
      var last := calls[|calls| - 1];
      if last.Push? && last.sequence == sequence then last.packet else PacketOf(calls[..|calls| - 1], sequence)
  }

  function TruthOf(calls: Calls): Truth {
    sequence => PacketOf(calls, sequence)
  }

  lemma {:induction false} PacketOfPushed(calls: Calls, sequence: nat)
    ensures PacketOf(calls, sequence) != [] ==> Pushed(calls, Member(sequence, PacketOf(calls, sequence)))
    ensures (exists m :: Pushed(calls, m) && m.sequence == sequence) ==> Pushed(calls, Member(sequence,
            PacketOf(calls, sequence)))
  {
    if calls != [] {
      var n := |calls| - 1;
      var found := Member(sequence, PacketOf(calls, sequence));
      if calls[n].Push? && calls[n].sequence == sequence {
        assert Pushes(calls[n], found);
      } else {
        PacketOfPushed(calls[..n], sequence);
        if Pushed(calls[..n], found) {
          PushedLater(calls, n, found);
        }
        if m :| Pushed(calls, m) && m.sequence == sequence {
          var i :| 0 <= i < |calls| && Pushes(calls[i], m);
          assert Pushes(calls[..n][i], m);
        }
      }
    }
  }

  lemma TruthIsPushed(calls: Calls, m: Member)
    requires Sends(calls) && Pushed(calls, m)
    ensures TruthOf(calls)(m.sequence) == m.packet
  {
    hide PacketOf, Pushed;
    PacketOfPushed(calls, m.sequence);
  }

  // ----- one arrival -----

  /** An arrival that was sent is an honest event of the decoder. */
  lemma ArrivalIsHonest(s: FecEncoder.State, calls: Calls, d: State, a: Arrival) returns (e: Event)
    requires Starts(s) && Sends(calls) && WasSent(s, calls, a) && Shaped(d)
    ensures Honest(e, TruthOf(calls)) && Next(d, e, TruthOf(calls)) == Receive(d, a)
  {
    hide TruthOf, Sends, Pushed, AcceptRepair, RetryPending, Group, RepairOf, Starts, EmittedAt;
    match a
    case Data(sequence, packet) =>
      TruthIsPushed(calls, Member(sequence, packet));
      e := Remembered(sequence, packet);
    case Payload(payload, now, delivered) =>
      var n :| EmittedAt(s, calls, n, payload);
      var g := GroupOf(s, calls, n, payload);
      forall m | m in g ensures m.packet == TruthOf(calls)(m.sequence) {
        TruthIsPushed(calls, m);
      }
      e := Repaired(g, now, delivered);
    case Retry(now, delivered) =>
      e := Retried(now, delivered);
  }

  lemma GroupOf(s: FecEncoder.State, calls: Calls, n: nat, payload: seq<byte>) returns (g: seq<Member>)
    requires Starts(s) && Sends(calls) && EmittedAt(s, calls, n, payload)
    ensures Group(g) && payload == RepairOf(g) && forall m <- g :: Pushed(calls, m)
  {
    hide FecEncoder.After, Pushed, Group, RepairOf;
    g := EmitsPushedGroup(s, calls, n);
  }

  lemma ReturnedNonempty(d: State, a: Arrival)
    requires Shaped(d) && (a.Data? ==> |a.packet| <= MAX_PACKET)
    ensures Receive(d, a).1.Some? ==> Receive(d, a).1.value.1 != []
  {
    hide FoldStored, Missing, Parse, KeepFresh, KeepMissing, Ready, ShapedRepair;
  }

  // ----- runs -----

  ghost predicate AllSent(s: FecEncoder.State, calls: Calls, arrivals: seq<Arrival>) {
    forall a <- arrivals :: WasSent(s, calls, a)
  }

  ghost function Received(s: FecEncoder.State, calls: Calls, arrivals: seq<Arrival>): (d: State)
    requires Starts(s) && Sends(calls) && AllSent(s, calls, arrivals)
    ensures Truthful(d, TruthOf(calls)) && Shaped(d)
  {
    if arrivals == [] then INITIAL
    else
      var n := |arrivals| - 1;
      var before := Received(s, calls, arrivals[..n]);
      ReceiveSound(s, calls, before, arrivals[n]);
      Receive(before, arrivals[n]).0
  }

  lemma ReceiveSound(s: FecEncoder.State, calls: Calls, d: State, a: Arrival)
    requires Starts(s) && Sends(calls) && WasSent(s, calls, a) && Truthful(d, TruthOf(calls)) && Shaped(d)
    ensures a.Data? ==> |a.packet| <= MAX_PACKET
    ensures var (d', result) := Receive(d, a);
            && Truthful(d', TruthOf(calls)) && Shaped(d')
            && (result.Some? ==> Pushed(calls, Member(result.value.0, result.value.1)))
  {
    hide Receive, Truthful, Shaped, Pushed, Sends, Next, Honest;
    var e := ArrivalIsHonest(s, calls, d, a);
    StepSound(d, e, TruthOf(calls));
    TruthfulShaped(Receive(d, a).0, TruthOf(calls));
    ReturnedNonempty(d, a);
    if Receive(d, a).1.Some? {
      PacketOfPushed(calls, Receive(d, a).1.value.0);
    }
  }

  /** End to end: in every run of a sender and every order, loss and repetition of what it sent, a
      packet the decoder returns was pushed under the sequence it is returned with. */
  lemma EndToEnd(s: FecEncoder.State, calls: Calls, arrivals: seq<Arrival>, j: nat)
    requires Starts(s) && Sends(calls) && AllSent(s, calls, arrivals) && j < |arrivals|
    ensures AllSent(s, calls, arrivals[..j]) && (arrivals[j].Data? ==> |arrivals[j].packet| <= MAX_PACKET)
    ensures var result := Receive(Received(s, calls, arrivals[..j]), arrivals[j]).1;
            result.Some? ==> Pushed(calls, Member(result.value.0, result.value.1))
  {
    hide Receive, Truthful, Shaped, Pushed, Sends, WasSent;
    ReceiveSound(s, calls, Received(s, calls, arrivals[..j]), arrivals[j]);
  }
}
