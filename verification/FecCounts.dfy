/** What becomes of every repair the decoder accepts: it is waiting, has brought a packet back, was not
    needed, or is counted as unrecoverable. */
module FecCounts {
  import opened Bytes
  import opened Parity
  import opened FecFormat
  import opened FecDecoder
  import opened FecRuns
  import opened FecRetries

  /** Every member has arrived. */
  predicate Complete(members: seq<nat>, delivered: Delivered) {
    forall m <- members :: delivered(m)
  }

  /** Half a second old, and a member still missing. */
  predicate Stale(r: Repair, now: int, delivered: Delivered) {
    now - r.receivedAt >= 500 && !Complete(r.members, delivered)
  }

  function One(b: bool): nat {
    if b then 1 else 0
  }

  function CountComplete(pending: seq<Repair>, delivered: Delivered): nat {
    if pending == [] then 0 else One(Complete(pending[0].members, delivered)) + CountComplete(pending[1..], delivered)
  }

  function CountStale(pending: seq<Repair>, now: int, delivered: Delivered): nat {
    if pending == [] then 0 else One(Stale(pending[0], now, delivered)) + CountStale(pending[1..], now, delivered)
  }

  lemma CompleteIff(members: seq<nat>, delivered: Delivered)
    ensures |Missing(members, delivered)| == 0 <==> Complete(members, delivered)
  {
    var missing := Missing(members, delivered);
    if missing != [] {
      assert missing[0] in missing;
    }
  }

  /** What a retry keeps before it tries to rebuild: the repairs neither stale nor complete. */
  lemma {:induction false} KeptAre(pending: seq<Repair>, now: int, delivered: Delivered)
    ensures var young := KeepFresh(pending, now, delivered);
            && |young| == |pending| - CountStale(pending, now, delivered)
            && |KeepMissing(young, delivered)| == |young| - CountComplete(pending, delivered)
    ensures forall r <- KeepMissing(KeepFresh(pending, now, delivered), delivered) ::
              r in pending && !Stale(r, now, delivered) && !Complete(r.members, delivered)
  {
    hide Missing, Complete;
    if pending != [] {
      CompleteIff(pending[0].members, delivered);
      KeptAre(pending[1..], now, delivered);
      var young := KeepFresh(pending, now, delivered);
      if Fresh(pending[0], now, delivered) {
        assert young == [pending[0]] + KeepFresh(pending[1..], now, delivered);
        assert young[1..] == KeepFresh(pending[1..], now, delivered);
      } else {
        assert young == KeepFresh(pending[1..], now, delivered);
      }
    }
  }

  /** A retry drops what is stale, counting it, and what is complete; of the rest it takes at most one
      repair off the list, which either brings its packet back or is counted. Nothing it leaves is stale
      or complete. */
  lemma RetryCounts(s: State, now: int, delivered: Delivered, t: Truth)
    requires Truthful(s, t) && Shaped(s)
    ensures var (s', result) := RetryPending(s, now, delivered);
            && s'.received == s.received
            && |s'.pending| + s'.unrecoverable + One(result.Some?) + CountComplete(s.pending, delivered)
               == |s.pending| + s.unrecoverable
            && s.unrecoverable + CountStale(s.pending, now, delivered) <= s'.unrecoverable
            && s'.unrecoverable <= s.unrecoverable + CountStale(s.pending, now, delivered) + One(result.None?)
            && forall r <- s'.pending :: r in s.pending && !Stale(r, now, delivered) && !Complete(r.members, delivered)
  {
    hide Missing, KeepFresh, KeepMissing, Ready, SwapRemove, Made, Rebuild, ShapedRepair, Stale, Complete, CountStale,
      CountComplete;
    var young := KeepFresh(s.pending, now, delivered);
    var kept := KeepMissing(young, delivered);
    KeptAre(s.pending, now, delivered);
    var i := Ready(kept, delivered);
    if i < |kept| {
      SwapRemoveLength(kept, i);
    }
  }

  /** An accepted repair is counted as received and is then kept, returned, not needed or counted as
      unrecoverable; at 32 pending ones it takes the place of the oldest, which is counted instead. */
  lemma AcceptCounts(s: State, g: seq<Member>, now: int, delivered: Delivered, t: Truth)
    requires Truthful(s, t) && Shaped(s) && Honest(Repaired(g, now, delivered), t)
    ensures var (s', result) := AcceptRepair(s, RepairOf(g), now, delivered);
            && s'.received == s.received + 1
            && |s'.pending| + s'.unrecoverable + One(result.Some?) + One(Complete(Sequences(g), delivered))
               == |s.pending| + s.unrecoverable + 1
            && (forall i, j :: 0 <= i < j < |g| && !delivered(g[i].sequence) && !delivered(g[j].sequence) ==>
                  && s'.unrecoverable == s.unrecoverable + One(|s.pending| >= 32)
                  && |s'.pending| >= 1 && s'.pending[|s'.pending| - 1].members == Sequences(g)
                  && s'.pending[..|s'.pending| - 1] == if |s.pending| >= 32 then s.pending[1..] else s.pending)
  {
    hide Parse, RepairOf, ParityOf, Group, Missing, Made, Rebuild, ShapedRepair, Complete;
    GroupSized(g);
    ParseRepairOf(g, now);
    CompleteIff(Sequences(g), delivered);
    forall i, j | 0 <= i < j < |g| && !delivered(g[i].sequence) && !delivered(g[j].sequence)
      ensures |Missing(Sequences(g), delivered)| > 1
    {
      SeveralMissing(Sequences(g), delivered, i, j);
    }
  }

  lemma {:induction false} SeveralMissing(members: seq<nat>, delivered: Delivered, i: nat, j: nat)
    requires i < j < |members| && !delivered(members[i]) && !delivered(members[j])
    ensures |Missing(members, delivered)| > 1
  {
    if i > 0 {
      SeveralMissing(members[1..], delivered, i - 1, j - 1);
    } else {
      assert members[1..][j - 1] in Missing(members[1..], delivered);
    }
  }

  // ----- whole runs -----

  /** The repairs a run delivers, the packets it brings back, and the repairs found complete. */
  function Received(run: seq<Event>): nat {
    if run == [] then 0 else Received(run[..|run| - 1]) + One(run[|run| - 1].Repaired?)
  }

  ghost function Returned(run: seq<Event>, t: Truth): nat
    requires HonestRun(run, t)
  {
    if run == [] then 0 else Returned(run[..|run| - 1], t) + One(ResultAt(run, |run| - 1, t).Some?)
  }

  ghost function NotNeeded(run: seq<Event>, t: Truth): nat
    requires HonestRun(run, t)
  {
    if run == [] then 0
    else
      var init, e := run[..|run| - 1], run[|run| - 1];
      NotNeeded(init, t) +
      match e
      case Remembered(_, _) => 0
      case Repaired(g, _, delivered) => One(Complete(Sequences(g), delivered))
      case Retried(_, delivered) => CountComplete(After(init, t).pending, delivered)
  }

  /** Conservation: every repair received in a run is still pending, brought a packet back, was found
      complete, or is counted as unrecoverable, each exactly once. */
  lemma {:induction false} RepairsAccounted(run: seq<Event>, t: Truth)
    requires HonestRun(run, t)
    ensures var s := After(run, t);
            && s.received == Received(run)
            && s.received == |s.pending| + s.unrecoverable + Returned(run, t) + NotNeeded(run, t)
  {
    hide AcceptRepair, RetryPending, Truthful, Honest, Complete, CountComplete, RepairOf, Group;
    if run != [] {
      var n := |run| - 1;
      var init, e := run[..n], run[n];
      RepairsAccounted(init, t);
      assert e in run;
      var before := After(init, t);
      TruthfulShaped(before, t);
      StepCounts(before, e, t);
    }
  }

  lemma StepCounts(s: State, e: Event, t: Truth)
    requires Truthful(s, t) && Shaped(s) && Honest(e, t)
    ensures var (s', result) := Next(s, e, t);
            && s'.received == s.received + One(e.Repaired?)
            && |s'.pending| + s'.unrecoverable + One(result.Some?)
               + (match e
                  case Remembered(_, _) => 0
                  case Repaired(g, _, delivered) => One(Complete(Sequences(g), delivered))
                  case Retried(_, delivered) => CountComplete(s.pending, delivered))
               == |s.pending| + s.unrecoverable + One(e.Repaired?)
  {
    hide AcceptRepair, RetryPending, Complete, CountComplete, RepairOf, Group;
    match e
    case Remembered(_, _) =>
    case Repaired(g, now, delivered) => AcceptCounts(s, g, now, delivered, t);
    case Retried(now, delivered) => RetryCounts(s, now, delivered, t);
  }
}
