/** Completeness end to end: what a sender's repairs bring back at the receiver. */
module FecDelivery {
  import opened Bytes
  import opened Parity
  import opened FecFormat
  import opened FecDecoder
  import opened FecRuns
  import opened FecRetries
  import opened FecEndToEnd

  // ----- the group behind a payload -----

  ghost predicate GroupBehind(calls: Calls, payload: seq<byte>, g: seq<Member>) {
    Group(g) && payload == RepairOf(g) && forall m <- g :: Pushed(calls, m)
  }

  /** A payload stands for one group only. */
  lemma GroupUnique(calls: Calls, payload: seq<byte>, g: seq<Member>, h: seq<Member>)
    requires Sends(calls) && GroupBehind(calls, payload, g) && GroupBehind(calls, payload, h)
    ensures g == h
  {
    hide Parse, RepairOf, Group, Pushed;
    GroupSized(g);
    GroupSized(h);
    ParseRepairOf(g, 0);
    ParseRepairOf(h, 0);
    assert Sequences(g) == Sequences(h);
    assert |g| == |Sequences(g)| == |Sequences(h)| == |h|;
    forall i | 0 <= i < |g| ensures g[i] == h[i] {
      assert Sequences(g)[i] == Sequences(h)[i];
      assert Pushed(calls, g[i]) && Pushed(calls, h[i]);
    }
  }

  lemma PayloadHasGroup(s: FecEncoder.State, calls: Calls, a: Arrival)
    requires Starts(s) && Sends(calls) && WasSent(s, calls, a) && a.Payload?
    ensures exists g :: GroupBehind(calls, a.payload, g)
  {
    hide Sends, Starts, EmittedAt, Group, RepairOf, Pushed;
    var n :| EmittedAt(s, calls, n, a.payload);
    var g := GroupOf(s, calls, n, a.payload);
    assert GroupBehind(calls, a.payload, g);
  }

  // ----- arrivals as events of the decoder -----

  ghost function EventOf(s: FecEncoder.State, calls: Calls, a: Arrival): (e: Event)
    requires Starts(s) && Sends(calls) && WasSent(s, calls, a)
    ensures Honest(e, TruthOf(calls))
  {
    match a
    case Data(sequence, packet) =>
      TruthIsPushed(calls, Member(sequence, packet));
      Remembered(sequence, packet)
    case Payload(payload, now, delivered) =>
      PayloadHasGroup(s, calls, a);
      var g :| GroupBehind(calls, payload, g);
      GroupIsTrue(calls, payload, g);
      Repaired(g, now, delivered)
    case Retry(now, delivered) => Retried(now, delivered)
  }

  lemma GroupIsTrue(calls: Calls, payload: seq<byte>, g: seq<Member>)
    requires Sends(calls) && GroupBehind(calls, payload, g)
    ensures Group(g) && forall m <- g :: m.packet == TruthOf(calls)(m.sequence)
  {
    hide Sends, TruthOf, Pushed;
    forall m | m in g ensures m.packet == TruthOf(calls)(m.sequence) {
      TruthIsPushed(calls, m);
    }
  }

  lemma EventReceives(s: FecEncoder.State, calls: Calls, d: State, a: Arrival)
    requires Starts(s) && Sends(calls) && WasSent(s, calls, a) && Shaped(d)
    ensures a.Data? ==> |a.packet| <= MAX_PACKET
    ensures Next(d, EventOf(s, calls, a), TruthOf(calls)) == Receive(d, a)
  {
    hide Sends, Starts, Group, RepairOf, Pushed, AcceptRepair, RetryPending, TruthOf, Shaped;
    if a.Payload? {
      PayloadHasGroup(s, calls, a);
    }
  }

  ghost function EventsOf(s: FecEncoder.State, calls: Calls, arrivals: seq<Arrival>): (run: seq<Event>)
    requires Starts(s) && Sends(calls) && AllSent(s, calls, arrivals)
    ensures |run| == |arrivals|
    ensures forall i :: 0 <= i < |arrivals| ==> run[i] == EventOf(s, calls, arrivals[i])
  {
    if arrivals == [] then []
    else
      var n := |arrivals| - 1;
      EventsOf(s, calls, arrivals[..n]) + [EventOf(s, calls, arrivals[n])]
  }

  lemma EventsHonest(s: FecEncoder.State, calls: Calls, arrivals: seq<Arrival>)
    requires Starts(s) && Sends(calls) && AllSent(s, calls, arrivals)
    ensures HonestRun(EventsOf(s, calls, arrivals), TruthOf(calls))
  {
    hide Sends, Starts, TruthOf, EventOf, Honest, EventsOf;
    var run := EventsOf(s, calls, arrivals);
    forall e | e in run ensures Honest(e, TruthOf(calls)) {
      var i :| 0 <= i < |run| && run[i] == e;
      assert arrivals[i] in arrivals;
    }
  }

  lemma EventsPrefix(s: FecEncoder.State, calls: Calls, arrivals: seq<Arrival>, n: nat)
    requires Starts(s) && Sends(calls) && AllSent(s, calls, arrivals) && n <= |arrivals|
    ensures AllSent(s, calls, arrivals[..n])
    ensures EventsOf(s, calls, arrivals)[..n] == EventsOf(s, calls, arrivals[..n])
  {
    hide Sends, Starts, EventOf, EventsOf, WasSent;
    var l, r := EventsOf(s, calls, arrivals)[..n], EventsOf(s, calls, arrivals[..n]);
    assert forall i :: 0 <= i < n ==> l[i] == r[i];
  }

  /** Receiving the arrivals is running their events. */
  lemma {:induction false} ReceivedIsRun(s: FecEncoder.State, calls: Calls, arrivals: seq<Arrival>)
    requires Starts(s) && Sends(calls) && AllSent(s, calls, arrivals)
    ensures HonestRun(EventsOf(s, calls, arrivals), TruthOf(calls))
    ensures After(EventsOf(s, calls, arrivals), TruthOf(calls)) == Received(s, calls, arrivals)
  {
    hide Sends, Starts, EventOf, EventsOf, WasSent, HonestRun, Next, Receive, Truthful, Shaped;
    EventsHonest(s, calls, arrivals);
    if arrivals != [] {
      var n := |arrivals| - 1;
      EventsPrefix(s, calls, arrivals, n);
      ReceivedIsRun(s, calls, arrivals[..n]);
      EventReceives(s, calls, Received(s, calls, arrivals[..n]), arrivals[n]);
    }
  }

  // ----- completeness -----

  /** A repair of several packets, as some call of the sender emitted it. */
  ghost predicate SeveralPackets(s: FecEncoder.State, calls: Calls, a: Arrival) {
    a.Payload? && exists c: nat :: EmittedAt(s, calls, c, a.payload) && |FecEncoder.After(s, calls[..c]).open| >= 2
  }

  /** Arrival `j` stores the packet of `sequence`, a repair of several packets having come before, and
      no later arrival overwrites it. */
  ghost predicate KeptArrival(s: FecEncoder.State, calls: Calls, arrivals: seq<Arrival>, sequence: nat, j: nat)
    requires Starts(s) && Sends(calls) && AllSent(s, calls, arrivals)
  {
    && j < |arrivals| && arrivals[j].Data? && arrivals[j].sequence == sequence
    && (exists i :: 0 <= i < j && SeveralPackets(s, calls, arrivals[i]))
    && forall i :: j < i < |arrivals| && arrivals[i].Data?
                   && arrivals[i].sequence % 512 == sequence % 512
                   ==> arrivals[i].sequence == sequence
  }

  lemma KeptIsRetained(s: FecEncoder.State, calls: Calls, arrivals: seq<Arrival>, sequence: nat, j: nat)
    requires Starts(s) && Sends(calls) && AllSent(s, calls, arrivals) && KeptArrival(s, calls, arrivals, sequence, j)
    ensures HonestRun(EventsOf(s, calls, arrivals), TruthOf(calls))
    ensures Retained(EventsOf(s, calls, arrivals), sequence, j)
  {
    hide Sends, Starts, EventsOf, WasSent, HonestRun, After, Received, TruthOf;
    hide AsksToStore, SeveralPackets;
    EventsHonest(s, calls, arrivals);
    var first :| 0 <= first < j && SeveralPackets(s, calls, arrivals[first]);
    SeveralAsk(s, calls, arrivals, first);
    forall i | 0 <= i < |arrivals|
      ensures var e := EventsOf(s, calls, arrivals)[i];
              (e.Remembered? <==> arrivals[i].Data?) && (e.Remembered? ==> e.sequence == arrivals[i].sequence)
    {
      EventKind(s, calls, arrivals, i);
    }
  }

  lemma SeveralAsk(s: FecEncoder.State, calls: Calls, arrivals: seq<Arrival>, i: nat)
    requires Starts(s) && Sends(calls) && AllSent(s, calls, arrivals) && i < |arrivals|
    requires SeveralPackets(s, calls, arrivals[i])
    ensures AsksToStore(EventsOf(s, calls, arrivals)[i])
  {
    hide Sends, Starts, EventsOf, WasSent, FecEncoder.After, GroupBehind;
    var c: nat :| EmittedAt(s, calls, c, arrivals[i].payload) && |FecEncoder.After(s, calls[..c]).open| >= 2;
    var g := EmittedGroup(s, calls, c, arrivals[i].payload);
    EventKind(s, calls, arrivals, i);
    GroupUnique(calls, arrivals[i].payload, g, EventsOf(s, calls, arrivals)[i].group);
  }

  lemma EventKind(s: FecEncoder.State, calls: Calls, arrivals: seq<Arrival>, i: nat)
    requires Starts(s) && Sends(calls) && AllSent(s, calls, arrivals) && i < |arrivals|
    ensures var e, a := EventsOf(s, calls, arrivals)[i], arrivals[i];
            && (e.Remembered? <==> a.Data?) && (e.Repaired? <==> a.Payload?)
            && (e.Remembered? ==> e.sequence == a.sequence)
            && (e.Repaired? ==> GroupBehind(calls, a.payload, e.group) && e.now == a.now && e.delivered == a.delivered)
  {
    hide Sends, Starts, EventsOf, GroupBehind, TruthOf;
    assert arrivals[i] in arrivals;
    if arrivals[i].Payload? {
      PayloadHasGroup(s, calls, arrivals[i]);
    }
  }

  lemma EmittedGroup(s: FecEncoder.State, calls: Calls, c: nat, payload: seq<byte>) returns (g: seq<Member>)
    requires Starts(s) && Sends(calls) && EmittedAt(s, calls, c, payload)
    ensures g == FecEncoder.After(s, calls[..c]).open && GroupBehind(calls, payload, g)
  {
    hide FecEncoder.After, Pushed, Group, RepairOf;
    g := FecEncoder.After(s, calls[..c]).open;
    OpenWasPushed(s, calls[..c]);
    forall m | m in g ensures Pushed(calls, m) {
      PushedLater(calls, c, m);
    }
  }

  /** The repair that call `c` of the sender emits brings back its `k`th member at once, when that one
      alone is missing and the others arrived and are kept. */
  lemma DeliveredCompleteness(s: FecEncoder.State, calls: Calls, c: nat, payload: seq<byte>, arrivals: seq<Arrival>,
                              k: nat, sources: seq<nat>, now: int, delivered: Delivered)
    requires Starts(s) && Sends(calls) && EmittedAt(s, calls, c, payload) && AllSent(s, calls, arrivals)
    requires var g := FecEncoder.After(s, calls[..c]).open;
             && k < |g| == |sources|
             && (forall i :: 0 <= i < |g| ==> (delivered(g[i].sequence) <==> i != k))
             && forall i :: 0 <= i < |g| && i != k ==> KeptArrival(s, calls, arrivals, g[i].sequence, sources[i])
    ensures var m := FecEncoder.After(s, calls[..c]).open[k];
            Receive(Received(s, calls, arrivals), Payload(payload, now, delivered)).1 == Some((m.sequence, m.packet))
  {
    hide Sends, Starts, EventsOf, WasSent, HonestRun, Received, TruthOf, KeptArrival, EmittedAt, FecEncoder.After,
      AcceptRepair, Group, RepairOf, Retained, Truthful, Shaped, Pushed;
    var g := EmittedGroup(s, calls, c, payload);
    var run, t := EventsOf(s, calls, arrivals), TruthOf(calls);
    GroupIsTrue(calls, payload, g);
    ReceivedIsRun(s, calls, arrivals);
    forall i | 0 <= i < |g| && i != k ensures Retained(run, g[i].sequence, sources[i]) {
      KeptIsRetained(s, calls, arrivals, g[i].sequence, sources[i]);
    }
    Completeness(run, g, k, sources, now, delivered, t);
  }

  /** And when it arrives before its data, a later retry does. */
  lemma LateDelivery(s: FecEncoder.State, calls: Calls, c: nat, arrivals: seq<Arrival>, n: nat, m: nat, k: nat)
    requires Starts(s) && Sends(calls) && AllSent(s, calls, arrivals) && n < m <= |arrivals| && arrivals[n].Payload?
    requires EmittedAt(s, calls, c, arrivals[n].payload) && k < |FecEncoder.After(s, calls[..c]).open|
    requires HonestRun(EventsOf(s, calls, arrivals), TruthOf(calls))
    requires var g, run := FecEncoder.After(s, calls[..c]).open, EventsOf(s, calls, arrivals);
             && |Missing(Sequences(g), arrivals[n].delivered)| > 1
             && Group(g) && Sized(Packets(g)) && Waiting(run, n + 1, Kept(g, arrivals[n].now), k, TruthOf(calls))
             && RipeRetries(run, m, |run|, Kept(g, arrivals[n].now), k) >= 32 + Repairs(run, m, |run|)
    ensures exists j :: n < j < |arrivals| && arrivals[j].Retry? && AllSent(s, calls, arrivals[..j]) &&
              var lost := FecEncoder.After(s, calls[..c]).open[k];
              Receive(Received(s, calls, arrivals[..j]), arrivals[j]).1 == Some((lost.sequence, lost.packet))
  {
    hide Sends, Starts, EventsOf, WasSent, HonestRun, Received, TruthOf, EmittedAt, FecEncoder.After, GroupBehind,
      Group, RepairOf, Waiting, RipeRetries, Missing, ParityOf, Receive, After, Next, Sized;
    var g := EmittedGroup(s, calls, c, arrivals[n].payload);
    var run, t := EventsOf(s, calls, arrivals), TruthOf(calls);
    EventKind(s, calls, arrivals, n);
    GroupUnique(calls, arrivals[n].payload, g, run[n].group);
    if m < |run| {
      RunStep(run, m, t);
    } else {
      assert run[..m] == run;
    }
    PendingBounded(run[..m], t);
    LateCompleteness(run, n, m, g, k, t);
    var j :| n < j < |run| && run[j].Retried? && ResultAt(run, j, t) == Some((g[k].sequence, g[k].packet));
    EventKind(s, calls, arrivals, j);
    ReceivesAt(s, calls, arrivals, j);
  }

  lemma ReceivesAt(s: FecEncoder.State, calls: Calls, arrivals: seq<Arrival>, j: nat)
    requires Starts(s) && Sends(calls) && AllSent(s, calls, arrivals) && j < |arrivals|
    requires HonestRun(EventsOf(s, calls, arrivals), TruthOf(calls))
    ensures AllSent(s, calls, arrivals[..j]) && (arrivals[j].Data? ==> |arrivals[j].packet| <= MAX_PACKET)
    ensures ResultAt(EventsOf(s, calls, arrivals), j, TruthOf(calls))
         == Receive(Received(s, calls, arrivals[..j]), arrivals[j]).1
  {
    hide Sends, Starts, EventOf, EventsOf, WasSent, Received, TruthOf, Receive, After, Next;
    EventsPrefix(s, calls, arrivals, j);
    ReceivedIsRun(s, calls, arrivals[..j]);
    assert arrivals[j] in arrivals;
    EventReceives(s, calls, Received(s, calls, arrivals[..j]), arrivals[j]);
    RunStep(EventsOf(s, calls, arrivals), j, TruthOf(calls));
  }
}
