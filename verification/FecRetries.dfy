/** Repairs that overtake their data: what a repair kept pending brings back once all but one of its
    members have arrived. */
module FecRetries {
  import opened Bytes
  import opened Parity
  import opened FecFormat
  import opened FecDecoder
  import opened FecRuns

  // ----- the pending list -----

  lemma {:induction false} FreshKept(pending: seq<Repair>, now: int, delivered: Delivered, r: Repair)
    requires r in pending && Fresh(r, now, delivered)
    ensures r in KeepFresh(pending, now, delivered)
  {
    hide Fresh;
    if pending[0] != r {
      FreshKept(pending[1..], now, delivered, r);
    }
  }

  lemma {:induction false} MissingKept(pending: seq<Repair>, delivered: Delivered, r: Repair)
    requires r in pending && |Missing(r.members, delivered)| > 0
    ensures r in KeepMissing(pending, delivered)
  {
    hide Missing;
    if pending[0] != r {
      MissingKept(pending[1..], delivered, r);
    }
  }

  lemma {:induction false} FewerMissing(pending: seq<Repair>, delivered: Delivered)
    ensures |KeepMissing(pending, delivered)| <= |pending|
  {
    hide Missing;
    if pending != [] {
      FewerMissing(pending[1..], delivered);
    }
  }

  lemma {:induction false} ReadyFinds(pending: seq<Repair>, delivered: Delivered, r: Repair)
    requires r in pending && |Missing(r.members, delivered)| == 1
    ensures Ready(pending, delivered) < |pending|
  {
    hide Missing;
    if pending[0] != r {
      ReadyFinds(pending[1..], delivered, r);
    }
  }

  lemma SwapRemoveKeeps(pending: seq<Repair>, i: nat, r: Repair)
    requires i < |pending| && r in pending && pending[i] != r
    ensures r in SwapRemove(pending, i)
  {
    var j :| 0 <= j < |pending| && pending[j] == r;
    var k := SwapRemove(pending, i);
    if j == |pending| - 1 {
      assert k[i] == r;
    } else {
      assert k[j] == r;
    }
  }

  lemma SwapRemoveLength(pending: seq<Repair>, i: nat)
    requires i < |pending|
    ensures |SwapRemove(pending, i)| == |pending| - 1
  {
  }

  // ----- one call -----

  /** Exactly the `k`th member of `r` has not arrived, and `r` is young enough to be kept. */
  predicate Waits(r: Repair, k: nat, now: int, delivered: Delivered) {
    && k < |r.members| && now - r.receivedAt < 500
    && forall i :: 0 <= i < |r.members| ==> (delivered(r.members[i]) <==> i != k)
  }

  /** All members of `r` but the `k`th are stored. */
  predicate OthersStored(s: State, r: Repair, k: nat)
    requires Shaped(s)
  {
    k < |r.members| && forall m <- r.members :: m != r.members[k] ==> Stored(s, m).Some?
  }

  /** Resolving a repair that misses one member neither adds to the pending list nor takes from it. */
  lemma ResolveOne(s: State, r: Repair, delivered: Delivered, t: Truth)
    requires Truthful(s, t) && Made(r, t) && |Missing(r.members, delivered)| == 1
    ensures Shaped(s) && ShapedRepair(r)
    ensures Resolve(s, r, delivered).0.pending == s.pending
  {
    hide Missing, Rebuild;
  }

  /** It brings the member back when the others are stored. */
  lemma ResolveBrings(s: State, r: Repair, k: nat, now: int, delivered: Delivered, t: Truth)
    requires Truthful(s, t) && Made(r, t) && Shaped(s) && Waits(r, k, now, delivered) && OthersStored(s, r, k)
    ensures Resolve(s, r, delivered).1 == Some((r.members[k], t(r.members[k])))
  {
    hide Rebuild, Truthful, Made, Stored, Shaped;
    MadeShaped(r, t);
    OneMissing(r.members, delivered, k);
    RebuildIs(s, r, k, t);
  }

  /** A retry while `r` waits either brings its member back or takes another repair off the list. */
  lemma RetryStep(s: State, now: int, delivered: Delivered, r: Repair, k: nat, t: Truth)
    requires Truthful(s, t) && Shaped(s) && r in s.pending && Waits(r, k, now, delivered) && OthersStored(s, r, k)
    ensures var (s', result) := RetryPending(s, now, delivered);
            || result == Some((r.members[k], t(r.members[k])))
            || (r in s'.pending && |s'.pending| < |s.pending|)
  {
    hide Missing, KeepFresh, KeepMissing, Ready, SwapRemove, Made, Stored, Resolve, Waits, ShapedRepair;
    OneIsMissing(r, k, now, delivered);
    var young := KeepFresh(s.pending, now, delivered);
    var kept := KeepMissing(young, delivered);
    FreshKept(s.pending, now, delivered, r);
    MissingKept(young, delivered, r);
    FewerMissing(young, delivered);
    ReadyFinds(kept, delivered, r);
    var i := Ready(kept, delivered);
    var next := s.(pending := SwapRemove(kept, i), unrecoverable := s.unrecoverable + |s.pending| - |young|);
    SwapRemoveLength(kept, i);
    assert kept[i] in kept;
    TruthfulPending(s, next, t);
    if kept[i] == r {
      SameStored(s, next, r, k);
      ResolveBrings(next, r, k, now, delivered, t);
    } else {
      SwapRemoveKeeps(kept, i, r);
      ResolveOne(next, kept[i], delivered, t);
    }
  }

  /** Several members of `r` have not arrived, and `r` is young enough to be kept. */
  predicate Several(r: Repair, now: int, delivered: Delivered) {
    now - r.receivedAt < 500 && |Missing(r.members, delivered)| > 1
  }

  /** A retry while `r` misses several members leaves it on a list that has not grown. */
  lemma RetryKeeps(s: State, now: int, delivered: Delivered, r: Repair, t: Truth)
    requires Truthful(s, t) && Shaped(s) && r in s.pending && Several(r, now, delivered)
    ensures var s' := RetryPending(s, now, delivered).0; r in s'.pending && |s'.pending| <= |s.pending|
  {
    hide Missing, KeepFresh, KeepMissing, Ready, SwapRemove, Made, Resolve, ShapedRepair;
    var young := KeepFresh(s.pending, now, delivered);
    var kept := KeepMissing(young, delivered);
    FreshKept(s.pending, now, delivered, r);
    MissingKept(young, delivered, r);
    FewerMissing(young, delivered);
    var i := Ready(kept, delivered);
    if i < |kept| {
      var next := s.(pending := SwapRemove(kept, i), unrecoverable := s.unrecoverable + |s.pending| - |young|);
      SwapRemoveLength(kept, i);
      assert kept[i] in kept;
      TruthfulPending(s, next, t);
      SwapRemoveKeeps(kept, i, r);
      ResolveOne(next, kept[i], delivered, t);
    }
  }

  lemma OneIsMissing(r: Repair, k: nat, now: int, delivered: Delivered)
    requires Waits(r, k, now, delivered)
    ensures |Missing(r.members, delivered)| == 1 && Fresh(r, now, delivered)
  {
    OneMissing(r.members, delivered, k);
  }

  lemma TruthfulPending(s: State, s': State, t: Truth)
    requires Truthful(s, t) && s'.recent == s.recent && forall r <- s'.pending :: r in s.pending
    ensures Truthful(s', t) && Shaped(s')
  {
  }

  lemma SameStored(s: State, s': State, r: Repair, k: nat)
    requires Shaped(s) && Shaped(s') && s'.recent == s.recent && OthersStored(s, r, k)
    ensures OthersStored(s', r, k)
  {
  }

  // ----- runs -----

  /** The other members are in the cache to stay: remembered while storing and not overwritten. */
  ghost predicate OthersRetained(run: seq<Event>, r: Repair, k: nat) {
    k < |r.members| && forall m <- r.members :: m != r.members[k] ==> exists i :: Retained(run, m, i)
  }

  lemma RetainedAreStored(run: seq<Event>, r: Repair, k: nat, t: Truth)
    requires HonestRun(run, t) && Made(r, t) && OthersRetained(run, r, k)
    ensures Shaped(After(run, t)) && OthersStored(After(run, t), r, k)
  {
    hide After, Retained, Stored, Truthful, HonestRun;
    TruthfulShaped(After(run, t), t);
    forall m | m in r.members && m != r.members[k] ensures Stored(After(run, t), m).Some? {
      var i :| Retained(run, m, i);
      RetainedIsStored(run, m, i, t);
    }
  }

  /** A newly accepted repair cannot displace `r`. */
  predicate Safe(s: State, r: Repair) {
    |s.pending| < 32 || s.pending[0] != r
  }

  lemma OtherStep(s: State, e: Event, r: Repair, t: Truth)
    requires Truthful(s, t) && Shaped(s) && Honest(e, t) && !e.Retried? && r in s.pending
    requires e.Repaired? ==> Safe(s, r)
    ensures var s' := Next(s, e, t).0;
            r in s'.pending && |s'.pending| <= |s.pending| + if e.Repaired? then 1 else 0
  {
    hide Missing, Rebuild, Parse, RepairOf, Made, Group, ShapedRepair;
    var j :| 0 <= j < |s.pending| && s.pending[j] == r;
    if |s.pending| >= PENDING_CAPACITY && e.Repaired? {
      assert s.pending[1..][j - 1] == r;
    }
  }

  /** Event `j` retries while exactly the `k`th member of `r` is missing. */
  predicate RipeAt(run: seq<Event>, j: nat, r: Repair, k: nat)
    requires j < |run|
  {
    run[j].Retried? && Waits(r, k, run[j].now, run[j].delivered)
  }

  /** How many of the events from `n` on, before `j`, are such retries. */
  function RipeRetries(run: seq<Event>, n: nat, j: nat, r: Repair, k: nat): nat
    requires n <= j <= |run|
    decreases j
  {
    if j == n then 0 else RipeRetries(run, n, j - 1, r, k) + if RipeAt(run, j - 1, r, k) then 1 else 0
  }

  /** How many of those events are repairs. */
  function Repairs(run: seq<Event>, n: nat, j: nat): nat
    requires n <= j <= |run|
    decreases j
  {
    if j == n then 0 else Repairs(run, n, j - 1) + if run[j - 1].Repaired? then 1 else 0
  }

  lemma RunStep(run: seq<Event>, j: nat, t: Truth)
    requires HonestRun(run, t) && j < |run|
    ensures HonestRun(run[..j], t) && HonestRun(run[..j + 1], t) && Honest(run[j], t)
    ensures Truthful(After(run[..j], t), t) && Shaped(After(run[..j], t))
    ensures After(run[..j + 1], t) == Next(After(run[..j], t), run[j], t).0
    ensures ResultAt(run, j, t) == Next(After(run[..j], t), run[j], t).1
  {
    hide Next, Honest, Truthful;
    assert run[j] in run && forall e <- run[..j + 1] :: e in run;
    assert run[..j + 1][..j] == run[..j];
    TruthfulShaped(After(run[..j], t), t);
  }

  /** Call `j` brings the `k`th member of `r` back. */
  ghost predicate Brings(run: seq<Event>, j: nat, r: Repair, k: nat, t: Truth)
    requires HonestRun(run, t) && j < |run|
  {
    k < |r.members| && run[j].Retried? && ResultAt(run, j, t) == Some((r.members[k], t(r.members[k])))
  }

  ghost predicate NotYet(run: seq<Event>, n: nat, j: nat, r: Repair, k: nat, t: Truth)
    requires HonestRun(run, t) && n <= j <= |run|
  {
    forall i :: n <= i < j ==> !Brings(run, i, r, k, t)
  }

  /** From event `n` on, and until the `k`th member of `r` is brought back: a retry finds several
      members of `r` missing, or only that one with the others retained; and nothing displaces `r`. */
  ghost predicate Waiting(run: seq<Event>, n: nat, r: Repair, k: nat, t: Truth)
    requires HonestRun(run, t)
  {
    forall j :: n <= j < |run| && NotYet(run, n, j, r, k, t) ==>
      && (run[j].Retried? ==>
            || Several(r, run[j].now, run[j].delivered)
            || (Waits(r, k, run[j].now, run[j].delivered) && OthersRetained(run[..j], r, k)))
      && (run[j].Repaired? ==> Safe(After(run[..j], t), r))
  }

  /** What one event that does not bring the member back does to the list. */
  lemma ListStep(run: seq<Event>, n: nat, r: Repair, k: nat, j: nat, t: Truth)
    requires HonestRun(run, t) && n <= j < |run| && Made(r, t) && Waiting(run, n, r, k, t)
    requires NotYet(run, n, j, r, k, t) && !Brings(run, j, r, k, t)
    requires HonestRun(run[..j], t) && r in After(run[..j], t).pending
    ensures HonestRun(run[..j + 1], t) && r in After(run[..j + 1], t).pending
    ensures |After(run[..j + 1], t).pending| + (if RipeAt(run, j, r, k) then 1 else 0)
         <= |After(run[..j], t).pending| + if run[j].Repaired? then 1 else 0
  {
    hide After, Next, Honest, HonestRun, Made, Truthful, Shaped, OthersStored, Waits, Several, Safe, OthersRetained,
      ResultAt, NotYet;
    RunStep(run, j, t);
    var s, e := After(run[..j], t), run[j];
    if !e.Retried? {
      OtherStep(s, e, r, t);
    } else {
      RetriedIs(s, e, t);
      if Several(r, e.now, e.delivered) {
        RetryKeeps(s, e.now, e.delivered, r, t);
        SeveralNotOne(r, k, e.now, e.delivered);
      } else {
        RetainedAreStored(run[..j], r, k, t);
        RetryStep(s, e.now, e.delivered, r, k, t);
        WaitsMember(r, k, e.now, e.delivered);
      }
    }
  }

  lemma SeveralNotOne(r: Repair, k: nat, now: int, delivered: Delivered)
    requires Several(r, now, delivered)
    ensures !Waits(r, k, now, delivered)
  {
    if Waits(r, k, now, delivered) {
      OneMissing(r.members, delivered, k);
    }
  }

  /** Until its member is brought back `r` stays on the list, which every ripe retry shortens. */
  lemma {:induction false} ListShrinks(run: seq<Event>, n: nat, r: Repair, k: nat, j: nat, t: Truth)
    requires HonestRun(run, t) && n <= j <= |run| && Made(r, t) && Waiting(run, n, r, k, t)
    requires HonestRun(run[..n], t) && r in After(run[..n], t).pending
    requires NotYet(run, n, j, r, k, t)
    ensures HonestRun(run[..j], t) && r in After(run[..j], t).pending
    ensures |After(run[..j], t).pending| + RipeRetries(run, n, j, r, k)
         <= |After(run[..n], t).pending| + Repairs(run, n, j)
    decreases j
  {
    hide After, HonestRun, Made, Waiting, RipeAt, Brings;
    if n < j {
      assert NotYet(run, n, j - 1, r, k, t);
      ListShrinks(run, n, r, k, j - 1, t);
      ListStep(run, n, r, k, j - 1, t);
    }
  }

  lemma RetriedIs(s: State, e: Event, t: Truth)
    requires Shaped(s) && Honest(e, t) && e.Retried?
    ensures Next(s, e, t) == RetryPending(s, e.now, e.delivered)
  {
  }

  lemma WaitsMember(r: Repair, k: nat, now: int, delivered: Delivered)
    requires Waits(r, k, now, delivered)
    ensures k < |r.members|
  {
  }

  /** A pending repair comes through: as many ripe retries as there are pending repairs, and one more
      for every repair accepted meanwhile, are enough to bring the member back, whatever retries come
      before and between them. */
  lemma PendingBrings(run: seq<Event>, n: nat, r: Repair, k: nat, t: Truth)
    requires HonestRun(run, t) && n <= |run| && Made(r, t) && Waiting(run, n, r, k, t)
    requires HonestRun(run[..n], t) && r in After(run[..n], t).pending
    requires RipeRetries(run, n, |run|, r, k) >= |After(run[..n], t).pending| + Repairs(run, n, |run|)
    ensures exists j :: n <= j < |run| && Brings(run, j, r, k, t)
  {
    hide After, HonestRun, Made, Waiting, Brings;
    if forall j :: n <= j < |run| ==> !Brings(run, j, r, k, t) {
      assert NotYet(run, n, |run|, r, k, t);
      ListShrinks(run, n, r, k, |run|, t);
      assert false;
    }
  }

  /** What the decoder keeps of a group's repair accepted at `now`. */
  function Kept(g: seq<Member>, now: int): Repair
    requires Group(g) && Sized(Packets(g))
  {
    Repair(Sequences(g), ParityOf(Packets(g)), now)
  }

  lemma AcceptedIsPending(s: State, e: Event, t: Truth)
    requires Truthful(s, t) && Shaped(s) && Honest(e, t) && e.Repaired?
    requires |Missing(Sequences(e.group), e.delivered)| > 1
    ensures Sized(Packets(e.group)) && Made(Kept(e.group, e.now), t)
    ensures Kept(e.group, e.now) in Next(s, e, t).0.pending
  {
    hide Parse, RepairOf, ParityOf, Group, Missing, Made, Rebuild;
    GroupSized(e.group);
    ParseRepairOf(e.group, e.now);
    GroupMade(e.group, e.now, t);
  }

  /** The same from a later event `m`: what counts is the list as it stands then. */
  lemma BringsFrom(run: seq<Event>, n: nat, m: nat, r: Repair, k: nat, t: Truth)
    requires HonestRun(run, t) && n <= m <= |run| && Made(r, t) && Waiting(run, n, r, k, t)
    requires HonestRun(run[..n], t) && r in After(run[..n], t).pending && HonestRun(run[..m], t)
    requires RipeRetries(run, m, |run|, r, k) >= |After(run[..m], t).pending| + Repairs(run, m, |run|)
    ensures exists j :: n <= j < |run| && Brings(run, j, r, k, t)
  {
    hide After, HonestRun, Made, Brings;
    if forall j :: n <= j < |run| ==> !Brings(run, j, r, k, t) {
      assert forall j :: n <= j <= |run| ==> NotYet(run, n, j, r, k, t);
      assert Waiting(run, m, r, k, t);
      hide Waiting;
      ListShrinks(run, n, r, k, m, t);
      PendingBrings(run, m, r, k, t);
      assert false;
    }
  }

  /** Completeness for a repair that overtakes its data: accepted with several members missing and
      retried as often as the receiver likes meanwhile, it brings the last one back once the others
      have arrived and are retained. Counting the ripe retries may start at any event `m`, such as the
      arrival that leaves one member missing. */
  lemma LateCompleteness(run: seq<Event>, n: nat, m: nat, g: seq<Member>, k: nat, t: Truth)
    requires HonestRun(run, t) && n < m <= |run| && run[n].Repaired? && run[n].group == g && k < |g|
    requires |Missing(Sequences(g), run[n].delivered)| > 1
    requires Group(g) && Sized(Packets(g)) && Waiting(run, n + 1, Kept(g, run[n].now), k, t)
    requires HonestRun(run[..m], t)
    requires RipeRetries(run, m, |run|, Kept(g, run[n].now), k)
          >= |After(run[..m], t).pending| + Repairs(run, m, |run|)
    ensures exists j :: n < j < |run| && run[j].Retried? && ResultAt(run, j, t) == Some((g[k].sequence, g[k].packet))
  {
    hide After, HonestRun, Made, Waiting, Next, Truthful, Shaped, Group, Missing, ParityOf, ResultAt, RipeRetries;
    RunStep(run, n, t);
    AcceptedIsPending(After(run[..n], t), run[n], t);
    var r := Kept(g, run[n].now);
    BringsFrom(run, n + 1, m, r, k, t);
    var j :| n + 1 <= j < |run| && Brings(run, j, r, k, t);
    assert g[k] in g;
  }

  /** The list is never longer than its capacity, so as many ripe retries always do. */
  lemma {:induction false} PendingBounded(run: seq<Event>, t: Truth)
    requires HonestRun(run, t)
    ensures |After(run, t).pending| <= 32
  {
    hide Next, Honest, Truthful;
    if run != [] {
      var n := |run| - 1;
      PendingBounded(run[..n], t);
      TruthfulShaped(After(run[..n], t), t);
      assert run[n] in run;
      StepBounded(After(run[..n], t), run[n], t);
    }
  }

  lemma StepBounded(s: State, e: Event, t: Truth)
    requires Truthful(s, t) && Shaped(s) && Honest(e, t) && |s.pending| <= 32
    ensures |Next(s, e, t).0.pending| <= 32
  {
    hide Missing, Rebuild, Parse, RepairOf, Made, Group, ShapedRepair, KeepFresh, KeepMissing, Ready, SwapRemove;
    if e.Retried? {
      var young := KeepFresh(s.pending, e.now, e.delivered);
      var kept := KeepMissing(young, e.delivered);
      FewerMissing(young, e.delivered);
      var i := Ready(kept, e.delivered);
      if i < |kept| {
        SwapRemoveLength(kept, i);
      }
    }
  }
}
