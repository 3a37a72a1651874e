/** The coalesced cache flush of `engine/src/netconfig.rs`: any number of callers, two flags and a
    worker thread, as sequentially consistent atomic steps. */
module Flush {

  /** What a thread does next. The caller that starts a worker becomes that worker. */
  datatype Step =
    | TakeRunning   // a caller has stored AGAIN and will swap RUNNING
    | Spawn         // it found RUNNING clear and will start the worker
    | GiveUp        // starting failed; it will clear RUNNING
    | TakeAgain     // the worker will swap AGAIN
    | Begin         // it found AGAIN set and will enter the flush
    | Flushing      // the flush is under way
    | Release       // it found AGAIN clear and will clear RUNNING
    | Look          // it will load AGAIN once more
    | Retake        // it found AGAIN set and will swap RUNNING

  /** `pending` holds the requests after which no flush has begun, numbered as they were made.
      `failed` records that starting a worker has failed since the last flush began. */
  datatype State = State(
    running: bool, again: bool, threads: map<nat, Step>, issued: nat, pending: set<nat>, failed: bool)

  const INITIAL := State(false, false, map[], 0, {}, false)

  datatype Event = Call(id: nat) | Act(id: nat) | Fail(id: nat)

  predicate Enabled(s: State, e: Event) {
    match e
    case Call(id) => id !in s.threads
    case Act(id) => id in s.threads
    case Fail(id) => id in s.threads && s.threads[id] == Spawn
  }

  function Put(s: State, id: nat, step: Step): State {
    s.(threads := s.threads[id := step])
  }

  function Gone(s: State, id: nat): State {
    s.(threads := s.threads - {id})
  }

  function Next(s: State, e: Event): State
    requires Enabled(s, e)
  {
    match e
    case Call(id) => Put(s, id, TakeRunning).(again := true, issued := s.issued + 1, pending := s.pending + {s.issued})
    case Fail(id) => Put(s, id, GiveUp)
    case Act(id) =>
      match s.threads[id]
      case TakeRunning => if s.running then Gone(s, id) else Put(s, id, Spawn).(running := true)
      case Spawn => Put(s, id, TakeAgain)
      case GiveUp => Gone(s, id).(running := false, failed := true)
      case TakeAgain => Put(s, id, if s.again then Begin else Release).(again := false)
      case Begin => Put(s, id, Flushing).(pending := {}, failed := false)
      case Flushing => Put(s, id, TakeAgain)
      case Release => Put(s, id, Look).(running := false)
      case Look => if s.again then Put(s, id, Retake) else Gone(s, id)
      case Retake => if s.running then Gone(s, id) else Put(s, id, TakeAgain).(running := true)
  }

  // ----- the invariant -----

  /** Steps that only the thread which set RUNNING takes. */
  predicate Owns(step: Step) {
    step !in {TakeRunning, Look, Retake}
  }

  predicate Owner(s: State, id: nat) {
    id in s.threads && Owns(s.threads[id])
  }

  predicate At(s: State, id: nat, step: Step) {
    id in s.threads && s.threads[id] == step
  }

  /** A thread that will yet look at the flags. */
  predicate WillLook(s: State, id: nat) {
    id in s.threads && !Owns(s.threads[id])
  }

  /** `e` enters a flush. */
  predicate Begins(s: State, e: Event) {
    e.Act? && At(s, e.id, Begin)
  }

  ghost predicate Inv(s: State) {
    && (forall i, j :: Owner(s, i) && Owner(s, j) ==> i == j)
    && (s.running <==> exists i :: Owner(s, i))
    && (s.pending != {} ==> s.again || exists i :: At(s, i, Begin))
    && (s.again && !s.running && !s.failed ==> exists i :: WillLook(s, i))
    && (s.again && s.pending == {} ==> exists i :: At(s, i, Flushing) || At(s, i, TakeAgain))
  }

  lemma Others(s: State, e: Event, id: nat)
    requires Enabled(s, e) && id != e.id
    ensures id in Next(s, e).threads <==> id in s.threads
    ensures id in s.threads ==> Next(s, e).threads[id] == s.threads[id]
  {
  }

  lemma OwnersKept(s: State, e: Event)
    requires Enabled(s, e) && Inv(s)
    ensures var t := Next(s, e);
            (forall i, j :: Owner(t, i) && Owner(t, j) ==> i == j) && (t.running <==> exists i :: Owner(t, i))
  {
    var t := Next(s, e);
    forall i | i != e.id ensures Owner(t, i) <==> Owner(s, i) {
      Others(s, e, i);
    }
    assert Owner(s, e.id) ==> s.running;
    if s.running {
      var o :| Owner(s, o);
      if o != e.id {
        assert Owner(t, o);
      }
    }
    assert t.running ==> Owner(t, e.id) || s.running;
    if Owner(t, e.id) && !Owner(s, e.id) {
      assert !s.running;
    }
  }

  lemma RequestsKept(s: State, e: Event)
    requires Enabled(s, e) && Inv(s)
    ensures var t := Next(s, e); t.pending != {} ==> t.again || exists i :: At(t, i, Begin)
  {
    var t := Next(s, e);
    if t.pending != {} && !t.again {
      if s.again {
        assert At(t, e.id, Begin);
      } else {
        var i :| At(s, i, Begin);
        assert i != e.id;
        Others(s, e, i);
        assert At(t, i, Begin);
      }
    }
  }

  /** A set AGAIN with RUNNING clear is seen by someone, unless starting a worker failed. */
  lemma LookersKept(s: State, e: Event)
    requires Enabled(s, e) && Inv(s)
    ensures var t := Next(s, e); t.again && !t.running && !t.failed ==> exists i :: WillLook(t, i)
  {
    var t := Next(s, e);
    assert Owner(s, e.id) ==> s.running;
    if t.again && !t.running && !t.failed {
      assert WillLook(t, e.id);
    }
  }

  /** A set AGAIN without a request is left over from one made while a flush was beginning, and the
      worker that began it will clear it. */
  lemma LeftoverKept(s: State, e: Event)
    requires Enabled(s, e) && Inv(s)
    ensures var t := Next(s, e); t.again && t.pending == {} ==> exists i :: At(t, i, Flushing) || At(t, i, TakeAgain)
  {
    var t := Next(s, e);
    if t.again && t.pending == {} {
      if Begins(s, e) {
        assert At(t, e.id, Flushing);
      } else {
        var i :| At(s, i, Flushing) || At(s, i, TakeAgain);
        if i == e.id {
          assert At(t, i, TakeAgain);
        } else {
          Others(s, e, i);
          assert At(t, i, Flushing) || At(t, i, TakeAgain);
        }
      }
    }
  }

  lemma NextKeeps(s: State, e: Event)
    requires Enabled(s, e) && Inv(s)
    ensures Inv(Next(s, e))
  {
    hide Next;
    OwnersKept(s, e);
    RequestsKept(s, e);
    LookersKept(s, e);
    LeftoverKept(s, e);
  }

  // ----- runs -----

  /** The states of a run from `s`, when every step of it is possible. */
  ghost predicate Possible(s: State, run: seq<Event>)
    decreases |run|
  {
    run == [] || (Enabled(s, run[0]) && Possible(Next(s, run[0]), run[1..]))
  }

  ghost function After(s: State, run: seq<Event>): State
    requires Possible(s, run)
    decreases |run|
  {
    if run == [] then s else After(Next(s, run[0]), run[1..])
  }

  lemma {:induction false} RunKeeps(s: State, run: seq<Event>)
    requires Possible(s, run) && Inv(s)
    ensures Inv(After(s, run))
    decreases |run|
  {
    hide Next, Inv;
    if run != [] {
      NextKeeps(s, run[0]);
      RunKeeps(Next(s, run[0]), run[1..]);
    }
  }

  /** At most one thread at a time owns the flush, in every interleaving. */
  lemma OneWorker(run: seq<Event>, i: nat, j: nat)
    requires Possible(INITIAL, run)
    ensures var s := After(INITIAL, run); Owner(s, i) && Owner(s, j) ==> i == j
  {
    hide Next;
    InitialInv();
    RunKeeps(INITIAL, run);
  }

  lemma InitialInv()
    ensures Inv(INITIAL)
  {
  }

  /** With every call returned and every worker gone, a request is outstanding if and only if AGAIN is
      still set and starting a worker has failed since the last flush began. */
  lemma OutstandingIff(run: seq<Event>)
    requires Possible(INITIAL, run)
    ensures var s := After(INITIAL, run);
            s.threads == map[] ==> !s.running && (s.pending != {} <==> s.failed && s.again)
  {
    hide Next;
    InitialInv();
    RunKeeps(INITIAL, run);
    if After(INITIAL, run).threads == map[] {
      AtRest(After(INITIAL, run));
    }
  }

  lemma AtRest(s: State)
    requires Inv(s) && s.threads == map[]
    ensures !s.running && (s.pending != {} <==> s.failed && s.again)
  {
    assert forall i: nat :: i !in s.threads;
    assert forall i: nat :: !Owner(s, i) && !WillLook(s, i);
    assert forall i: nat, step: Step :: !At(s, i, step);
  }

  lemma {:induction false} NoFailure(s: State, run: seq<Event>)
    requires Possible(s, run) && (forall e <- run :: !e.Fail?) && !s.failed
    requires forall i :: !At(s, i, GiveUp)
    ensures !After(s, run).failed
    decreases |run|
  {
    if run != [] {
      var t := Next(s, run[0]);
      assert run[0] in run && forall e <- run[1..] :: e in run;
      NoneGivesUp(s, run[0]);
      NoFailureStep(s, run[0]);
      NoFailure(t, run[1..]);
    }
  }

  lemma NoFailureStep(s: State, e: Event)
    requires Enabled(s, e) && !s.failed && !At(s, e.id, GiveUp)
    ensures !Next(s, e).failed
  {
  }

  // ----- every request is followed by a flush -----

  /** Some event of the run enters a flush. */
  ghost predicate FlushBegins(s: State, run: seq<Event>)
    requires Possible(s, run)
    decreases |run|
  {
    run != [] && (Begins(s, run[0]) || FlushBegins(Next(s, run[0]), run[1..]))
  }

  lemma {:induction false} PendingUntilFlush(s: State, run: seq<Event>, request: nat)
    requires Possible(s, run) && request in s.pending && !FlushBegins(s, run)
    ensures request in After(s, run).pending
    decreases |run|
  {
    hide Next;
    if run != [] {
      PendingStays(s, run[0], request);
      PendingUntilFlush(Next(s, run[0]), run[1..], request);
    }
  }

  lemma PendingStays(s: State, e: Event, request: nat)
    requires Enabled(s, e) && request in s.pending && !Begins(s, e)
    ensures request in Next(s, e).pending
  {
  }

  /** Wherever in a run a request is made, a flush begins after it, once the threads have come to
      rest and no start has failed. */
  lemma FlushFollows(before: seq<Event>, id: nat, rest: seq<Event>)
    requires Possible(INITIAL, before) && Enabled(After(INITIAL, before), Call(id))
    requires var s := Next(After(INITIAL, before), Call(id));
             Possible(s, rest) && After(s, rest).threads == map[]
    requires forall e <- before + rest :: !e.Fail?
    ensures FlushBegins(Next(After(INITIAL, before), Call(id)), rest)
  {
    hide FlushBegins;
    var p := After(INITIAL, before);
    var s := Next(p, Call(id));
    assert forall e <- before :: e in before + rest;
    assert forall e <- rest :: e in before + rest;
    InitialInv();
    RunKeeps(INITIAL, before);
    NextKeeps(p, Call(id));
    RunKeeps(s, rest);
    hide Next;
    NoGiveUps(before, id);
    NoFailure(s, rest);
    AtRest(After(s, rest));
    if !FlushBegins(s, rest) {
      MadePending(p, id);
      PendingUntilFlush(s, rest, p.issued);
    }
  }

  lemma MadePending(s: State, id: nat)
    requires Enabled(s, Call(id))
    ensures s.issued in Next(s, Call(id)).pending
  {
  }

  lemma NoGiveUps(before: seq<Event>, id: nat)
    requires Possible(INITIAL, before) && Enabled(After(INITIAL, before), Call(id))
    requires forall e <- before :: !e.Fail?
    ensures var s := Next(After(INITIAL, before), Call(id)); !s.failed && forall i :: !At(s, i, GiveUp)
  {
    NoFailure(INITIAL, before);
    NoGiveUp(INITIAL, before);
    var p := After(INITIAL, before);
    var s := Next(p, Call(id));
    forall i ensures !At(s, i, GiveUp) {
      assert !At(p, i, GiveUp);
    }
  }

  lemma {:induction false} NoGiveUp(s: State, run: seq<Event>)
    requires Possible(s, run) && (forall e <- run :: !e.Fail?) && forall i :: !At(s, i, GiveUp)
    ensures forall i :: !At(After(s, run), i, GiveUp)
    decreases |run|
  {
    if run != [] {
      var t := Next(s, run[0]);
      assert run[0] in run && forall e <- run[1..] :: e in run;
      NoneGivesUp(s, run[0]);
      NoGiveUp(t, run[1..]);
    }
  }

  ghost predicate Reachable(s: State) {
    exists run :: Possible(INITIAL, run) && After(INITIAL, run) == s
  }

  lemma {:induction false} Append(s: State, run: seq<Event>, e: Event)
    requires Possible(s, run) && Enabled(After(s, run), e)
    ensures Possible(s, run + [e]) && After(s, run + [e]) == Next(After(s, run), e)
    decreases |run|
  {
    hide Next;
    if run == [] {
      assert run + [e] == [e] && [e][1..] == [];
    } else {
      Append(Next(s, run[0]), run[1..], e);
      assert (run + [e])[1..] == run[1..] + [e];
    }
  }

  lemma Reach(s: State, e: Event, t: State)
    requires Reachable(s) && Enabled(s, e) && Next(s, e) == t
    ensures Reachable(t)
  {
    hide Next;
    var run :| Possible(INITIAL, run) && After(INITIAL, run) == s;
    Append(INITIAL, run, e);
  }

  lemma ReachCall(s: State, id: nat, t: State)
    requires Reachable(s) && id !in s.threads
    requires t == State(s.running, true, s.threads[id := TakeRunning], s.issued + 1, s.pending + {s.issued}, s.failed)
    ensures Reachable(t)
  {
    hide Reachable;
    Reach(s, Call(id), t);
  }

  lemma ReachInitial()
    ensures Reachable(INITIAL)
  {
    assert Possible(INITIAL, []) && After(INITIAL, []) == INITIAL;
  }

  /** When the one worker cannot be started its request is left behind: nothing runs, and nothing
      will flush until someone calls again. */
  lemma FailureStrands()
    ensures Reachable(State(false, true, map[], 1, {0}, true))
  {
    hide Reachable;
    ReachInitial();
    var s := State(false, true, map[0 := TakeRunning], 1, {0}, false);
    ReachCall(INITIAL, 0, s);
    var t := State(true, true, map[0 := Spawn], 1, {0}, false);
    Reach(s, Act(0), t);
    var u := t.(threads := map[0 := GiveUp]);
    Reach(t, Fail(0), u);
    assert u.threads - {0} == map[];
    Reach(u, Act(0), State(false, true, map[], 1, {0}, true));
  }

  /** A failure alone strands nothing: a caller can be served by another's worker, take RUNNING after
      that and then fail. */
  lemma FailureHarmless()
    ensures Reachable(State(false, false, map[], 2, {}, true))
  {
    hide Reachable;
    TwoCallers();
    var s := State(true, true, map[0 := Spawn, 1 := TakeRunning], 2, {0, 1}, false);
    OneFlush(s);
    assert s.threads[0 := Look] == map[0 := Look, 1 := TakeRunning];
    SecondFails(State(false, false, map[0 := Look, 1 := TakeRunning], 2, {}, false));
  }

  lemma TwoCallers()
    ensures Reachable(State(true, true, map[0 := Spawn, 1 := TakeRunning], 2, {0, 1}, false))
  {
    hide Reachable;
    ReachInitial();
    var s := State(false, true, map[0 := TakeRunning], 1, {0}, false);
    ReachCall(INITIAL, 0, s);
    var t := State(false, true, map[0 := TakeRunning, 1 := TakeRunning], 2, {0, 1}, false);
    ReachCall(s, 1, t);
    Reach(t, Act(0), State(true, true, map[0 := Spawn, 1 := TakeRunning], 2, {0, 1}, false));
  }

  /** The worker of thread 0 from its start to its release, with nothing asked meanwhile. */
  lemma OneFlush(s: State)
    requires Reachable(s) && s.running && s.again && 0 in s.threads && s.threads[0] == Spawn
    ensures Reachable(
              s.(running := false, again := false, threads := s.threads[0 := Look], pending := {}, failed := false))
  {
    hide Reachable;
    var t := FlushEntered(s);
    var m := t.threads;
    var t1 := t.(threads := m[0 := TakeAgain]);
    Reach(t, Act(0), t1);
    var t2 := t.(threads := m[0 := Release]);
    assert t1.threads[0 := Release] == t2.threads;
    Reach(t1, Act(0), t2);
    assert t2.threads[0 := Look] == s.threads[0 := Look];
    Reach(t2, Act(0), t.(threads := s.threads[0 := Look], running := false));
  }

  lemma FlushEntered(s: State) returns (t: State)
    requires Reachable(s) && s.running && s.again && 0 in s.threads && s.threads[0] == Spawn
    ensures Reachable(t) && t == s.(again := false, threads := s.threads[0 := Flushing], pending := {}, failed := false)
  {
    hide Reachable;
    var m := s.threads;
    var s1 := s.(threads := m[0 := TakeAgain]);
    Reach(s, Act(0), s1);
    var s2 := s.(threads := m[0 := Begin], again := false);
    assert s1.threads[0 := Begin] == s2.threads;
    Reach(s1, Act(0), s2);
    t := s2.(threads := m[0 := Flushing], pending := {}, failed := false);
    assert s2.threads[0 := Flushing] == t.threads;
    Reach(s2, Act(0), t);
  }

  lemma SecondFails(s: State)
    requires Reachable(s) && !s.running && !s.again && s.threads == map[0 := Look, 1 := TakeRunning]
    ensures Reachable(s.(threads := map[], failed := true))
  {
    hide Reachable;
    assert s.threads - {0} == map[1 := TakeRunning] && map[1 := GiveUp] - {1} == map[];
    var s1 := s.(threads := map[1 := TakeRunning]);
    Reach(s, Act(0), s1);
    var s2 := s.(threads := map[1 := Spawn], running := true);
    Reach(s1, Act(1), s2);
    Reach(s2, Fail(1), s2.(threads := map[1 := GiveUp]));
    Reach(s2.(threads := map[1 := GiveUp]), Act(1), s.(threads := map[], failed := true));
  }

  // ----- how soon, while calls keep arriving -----

  /** How many steps of the owner, or swaps of a clear RUNNING, can come before the next flush. */
  ghost function Distance(s: State): nat {
    if !s.running then 4
    else if exists i :: At(s, i, Begin) then 1
    else if exists i :: At(s, i, TakeAgain) then 2
    else if exists i :: At(s, i, Spawn) || At(s, i, Flushing) then 3
    else 5
  }

  /** A step of the owner, or one that takes a clear RUNNING. */
  predicate Advances(s: State, e: Event) {
    e.Act? && (Owner(s, e.id) || (!s.running && (At(s, e.id, TakeRunning) || At(s, e.id, Retake))))
  }

  /** Nothing moves a flush that is asked for further away, and every advance brings it nearer. */
  lemma DistanceFalls(s: State, e: Event)
    requires Inv(s) && s.pending != {} && Enabled(s, e) && !e.Fail? && !Begins(s, e)
    requires forall i :: !At(s, i, GiveUp)
    ensures Distance(Next(s, e)) <= Distance(s)
    ensures Advances(s, e) ==> Distance(Next(s, e)) < Distance(s)
  {
    if Owner(s, e.id) {
      OwnerAdvances(s, e);
    } else if s.running {
      OwnerStays(s, e);
    } else {
      SwapAdvances(s, e);
    }
  }

  lemma OwnerAdvances(s: State, e: Event)
    requires Inv(s) && s.pending != {} && Enabled(s, e) && !e.Fail? && !Begins(s, e)
    requires Owner(s, e.id) && !At(s, e.id, GiveUp)
    ensures Distance(Next(s, e)) < Distance(s)
  {
    var t := Next(s, e);
    NextKeeps(s, e);
    assert forall i, step :: At(s, i, step) && Owns(step) ==> i == e.id by {
      forall i, step | At(s, i, step) && Owns(step) ensures i == e.id {
        assert Owner(s, i);
      }
    }
    assert At(s, e.id, s.threads[e.id]) && (e.id in t.threads ==> At(t, e.id, t.threads[e.id]));
  }

  lemma OwnerStays(s: State, e: Event)
    requires Inv(s) && Enabled(s, e) && !e.Fail? && s.running && !Owner(s, e.id)
    ensures Distance(Next(s, e)) == Distance(s)
  {
    var t := Next(s, e);
    assert t.running;
    forall i, step | Owns(step) ensures At(t, i, step) <==> At(s, i, step) {
      if i != e.id {
        Others(s, e, i);
      }
    }
  }

  lemma SwapAdvances(s: State, e: Event)
    requires Inv(s) && Enabled(s, e) && !e.Fail? && !s.running && !Owner(s, e.id)
    ensures Distance(Next(s, e)) <= 4
    ensures Advances(s, e) ==> Distance(Next(s, e)) < 4
  {
    var t := Next(s, e);
    if t.running {
      assert At(t, e.id, t.threads[e.id]);
    }
  }

  ghost function Advancing(s: State, run: seq<Event>): nat
    requires Possible(s, run)
    decreases |run|
  {
    if run == [] then 0 else (if Advances(s, run[0]) then 1 else 0) + Advancing(Next(s, run[0]), run[1..])
  }

  /** With calls still arriving: as long as a request waits and no flush begins, the owner and the
      threads that find RUNNING clear take at most five steps between them. */
  lemma {:induction false} FlushWithinFive(s: State, run: seq<Event>)
    requires Inv(s) && s.pending != {} && Possible(s, run) && !FlushBegins(s, run)
    requires (forall e <- run :: !e.Fail?) && forall i :: !At(s, i, GiveUp)
    ensures Advancing(s, run) <= Distance(s) <= 5
    decreases |run|
  {
    hide Inv, Next, Distance, Advances;
    if run != [] {
      var t := Next(s, run[0]);
      assert run[0] in run && forall e <- run[1..] :: e in run;
      var request :| request in s.pending;
      PendingStays(s, run[0], request);
      NextKeeps(s, run[0]);
      NoneGivesUp(s, run[0]);
      DistanceFalls(s, run[0]);
      FlushWithinFive(t, run[1..]);
    }
    DistanceBound(s);
  }

  lemma DistanceBound(s: State)
    ensures Distance(s) <= 5
  {
  }

  lemma NoneGivesUp(s: State, e: Event)
    requires Enabled(s, e) && !e.Fail? && forall i :: !At(s, i, GiveUp)
    ensures forall i :: !At(Next(s, e), i, GiveUp)
  {
    forall i ensures !At(Next(s, e), i, GiveUp) {
      if i != e.id {
        Others(s, e, i);
      }
      assert !At(s, i, GiveUp);
    }
  }

  /** And one of those steps is always at hand, at most one look away. */
  lemma SomeoneAdvances(s: State) returns (id: nat)
    requires Inv(s) && s.pending != {} && !s.failed
    ensures Enabled(s, Act(id)) && (Advances(s, Act(id)) || (At(s, id, Look) && Advances(Next(s, Act(id)), Act(id))))
  {
    if s.running {
      id :| Owner(s, id);
    } else {
      assert !exists i :: At(s, i, Begin) by {
        forall i ensures !At(s, i, Begin) {
          assert At(s, i, Begin) ==> Owner(s, i);
        }
      }
      id :| WillLook(s, id);
    }
  }

  // ----- and the threads do come to rest -----

  function Weight(step: Step, again: bool): nat {
    match step
    case TakeRunning => 10
    case Spawn => 9
    case GiveUp => 8
    case TakeAgain => 6
    case Begin => 8
    case Flushing => 7
    case Release => if again then 9 else 5
    case Look => if again then 8 else 4
    case Retake => 7
  }

  ghost function Total(threads: map<nat, Step>, again: bool): nat
    decreases |threads|
  {
    if threads == map[] then 0
    else var id :| id in threads; Weight(threads[id], again) + Total(threads - {id}, again)
  }

  lemma {:induction false} TotalRemove(threads: map<nat, Step>, again: bool, id: nat)
    requires id in threads
    ensures Total(threads, again) == Weight(threads[id], again) + Total(threads - {id}, again)
    decreases |threads|
  {
    hide Weight;
    var j :| j in threads && Total(threads, again) == Weight(threads[j], again) + Total(threads - {j}, again);
    if j != id {
      assert (threads - {j}).Keys == threads.Keys - {j} && (threads - {id}).Keys == threads.Keys - {id};
      TotalRemove(threads - {j}, again, id);
      TotalRemove(threads - {id}, again, j);
      assert threads - {j} - {id} == threads - {id} - {j};
    }
  }

  lemma TotalPut(threads: map<nat, Step>, again: bool, id: nat, step: Step)
    ensures Total(threads[id := step], again) == Weight(step, again) + Total(threads - {id}, again)
  {
    hide Weight, Total;
    TotalRemove(threads[id := step], again, id);
    assert threads[id := step] - {id} == threads - {id};
  }

  lemma {:induction false} TotalQuiet(threads: map<nat, Step>)
    ensures Total(threads, false) <= Total(threads, true)
    decreases |threads|
  {
    hide Total;
    if threads != map[] {
      var id :| id in threads;
      TotalRemove(threads, false, id);
      TotalRemove(threads, true, id);
      assert (threads - {id}).Keys == threads.Keys - {id};
      TotalQuiet(threads - {id});
    } else {
      TotalNone();
    }
  }

  lemma TotalNone()
    ensures Total(map[], false) == Total(map[], true) == 0
  {
  }

  ghost function Rank(s: State): nat {
    (if s.again then 10 else 0) + Total(s.threads, s.again)
  }

  /** Without a new call, every step brings the threads nearer to rest. */
  lemma RankFalls(s: State, e: Event)
    requires Enabled(s, e) && !e.Call?
    ensures Rank(Next(s, e)) < Rank(s)
  {
    hide Total;
    var t := Next(s, e);
    TotalRemove(s.threads, s.again, e.id);
    TotalQuiet(s.threads - {e.id});
    if e.id in t.threads {
      TotalPut(s.threads, t.again, e.id, t.threads[e.id]);
    }
  }

  /** So with no further calls every schedule ends, within a bound set by the state it starts in;
      and it can only end with every thread gone, since any thread can always take its step. */
  lemma {:induction false} Drains(s: State, run: seq<Event>)
    requires Possible(s, run) && forall e <- run :: !e.Call?
    ensures |run| <= Rank(s)
    ensures var t := After(s, run); (forall e: Event :: !e.Call? ==> !Enabled(t, e)) <==> t.threads == map[]
    decreases |run|
  {
    hide Next, Rank;
    if run == [] {
      if s.threads != map[] {
        var id :| id in s.threads;
        assert Enabled(s, Act(id)) && !Act(id).Call?;
      }
    } else {
      assert run[0] in run && forall e <- run[1..] :: e in run;
      RankFalls(s, run[0]);
      Drains(Next(s, run[0]), run[1..]);
    }
  }
}
