/** Whole runs of the return-path table: what every run keeps, and that policy messages settle to the
    same table whatever order they arrive in. */
module EndpointsRuns {
  import opened Bytes
  import opened Endpoints

  datatype Message = Message(address: nat, policy: Policy, healthy: bool, sequence: nat)

  datatype Event =
    | Observe(address: nat, at: int)
    | Apply(message: Message, at: int)
    | Ask(at: int)  // `targets` and `repair_target` only prune

  function Step(s: State, e: Event): State
    requires |s.sequences| == PATHS && (e.Apply? ==> e.message.policy.path < PATHS)
  {
    match e
    case Observe(a, at) => s.(entries := Observed(s.entries, a, at))
    case Apply(m, at) => Applied(s, m.address, m.policy, m.healthy, m.sequence, at)
    case Ask(at) => s.(entries := Pruned(s.entries, at))
  }

  predicate PathsInRange(run: seq<Event>) {
    forall e <- run :: e.Apply? ==> e.message.policy.path < PATHS
  }

  function After(run: seq<Event>): (s: State)
    requires PathsInRange(run)
    ensures |s.sequences| == PATHS
  {
    if run == [] then Initial()
    else
      var last := run[|run| - 1];
      var s := Step(After(run[..|run| - 1]), last);
      s
  }

  lemma StepKeepsValid(s: State, e: Event)
    requires Valid(s) && (e.Apply? ==> e.message.policy.path < PATHS)
    ensures Valid(Step(s, e))
  {
    hide Observed, Applied, Pruned, AllApart;
    match e
    case Observe(a, at) => ObserveKeepsValid(s, a, at);
    case Apply(m, at) => ApplyKeepsValid(s, m.address, m.policy, m.healthy, m.sequence, at);
    case Ask(at) => PruneKeepsValid(s, at);
  }

  /** After every run there are at most eight entries, no address appears twice and no path owns two
      of them, and a packet to return has somewhere to go exactly when an entry lives. */
  lemma EveryRun(run: seq<Event>, now: int)
    requires PathsInRange(run)
    ensures var s := After(run); var live := Pruned(s.entries, now);
            && Valid(s)
            && (live != [] <==> TargetEntries(live, s.selective) != [])
  {
    hide Step, Valid, TargetEntries, AllApart;
    Keeps(run);
    PruneApart(After(run), now);
    TargetsAre(Pruned(After(run).entries, now), After(run).selective);
  }

  lemma {:induction false} Keeps(run: seq<Event>)
    requires PathsInRange(run)
    ensures Valid(After(run))
  {
    hide Step;
    if run != [] {
      Keeps(run[..|run| - 1]);
      assert run[|run| - 1] in run;
      StepKeepsValid(After(run[..|run| - 1]), run[|run| - 1]);
    }
  }

  lemma PruneApart(s: State, now: int)
    requires Valid(s)
    ensures AllApart(Pruned(s.entries, now))
  {
    FilterApart(s.entries, Fresh(now));
  }

  // ----- convergence -----

  ghost predicate Delivered(run: seq<Event>, m: Message) {
    exists i :: 0 <= i < |run| && run[i].Apply? && run[i].message == m
  }

  /** One sender's messages: a sequence number is used once per path, and no address serves two
      paths. */
  ghost predicate Consistent(run: seq<Event>) {
    && PathsInRange(run)
    && forall m, n :: Delivered(run, m) && Delivered(run, n) ==>
         && (m.policy.path == n.policy.path && m.sequence == n.sequence ==> m == n)
         && (m.address == n.address ==> m.policy.path == n.policy.path)
  }

  /** Everything happens within one lifetime of an entry. */
  predicate Within(run: seq<Event>, start: int) {
    forall e <- run :: start <= e.at <= start + 45_000
  }

  /** Nothing has to be evicted: policy messages alone, for at most eight paths, or no more than
      eight addresses in all. */
  predicate Roomy(run: seq<Event>, only: bool, paths: set<nat>, addresses: set<nat>) {
    if only then
      |paths| <= 8 && forall e <- run :: !e.Observe? && (e.Apply? ==> e.message.policy.path in paths)
    else
      && |addresses| <= 8
      && forall e <- run :: (e.Observe? ==> e.address in addresses) && (e.Apply? ==> e.message.address in addresses)
  }

  /** `m` carries the highest sequence delivered for its path. */
  ghost predicate Top(run: seq<Event>, m: Message) {
    Delivered(run, m) && forall n :: Delivered(run, n) && n.policy.path == m.policy.path ==> n.sequence <= m.sequence
  }

  predicate Shows(e: Entry, m: Message) {
    e.address == m.address && e.policy == Some(m.policy) && e.healthy == m.healthy
  }

  ghost predicate SequencesTop(run: seq<Event>, sequences: seq<Option<nat>>) {
    && |sequences| == PATHS
    && (forall p: nat :: p < PATHS && sequences[p].Some? ==>
          exists m :: Delivered(run, m) && m.policy.path == p && m.sequence == sequences[p].value)
    && (forall m :: Delivered(run, m) && m.policy.path < PATHS ==>
          sequences[m.policy.path].Some? && m.sequence <= sequences[m.policy.path].value)
  }

  /** The entries that carry a policy are the top messages. */
  ghost predicate Shown(run: seq<Event>, es: seq<Entry>) {
    && (forall e <- es :: e.policy.Some? ==> exists m :: Top(run, m) && Shows(e, m))
    && (forall m :: Top(run, m) ==> exists e :: e in es && Shows(e, m))
  }

  /** The entries are within the same bound as the run. */
  predicate Room(es: seq<Entry>, only: bool, paths: set<nat>, addresses: set<nat>) {
    if only then |paths| <= CAPACITY && forall e <- es :: e.policy.Some? && e.policy.value.path in paths
    else |addresses| <= CAPACITY && forall e <- es :: e.address in addresses
  }

  // ----- counting -----

  lemma {:induction false} Pigeons(xs: seq<nat>, holes: set<nat>)
    requires (forall x <- xs :: x in holes) && forall i, j :: 0 <= i < j < |xs| ==> xs[i] != xs[j]
    ensures |xs| <= |holes|
  {
    if xs != [] {
      assert xs[0] in holes;
      forall x | x in xs[1..] ensures x in holes - {xs[0]} {
        assert x in xs;
      }
      Pigeons(xs[1..], holes - {xs[0]});
    }
  }

  function PathOf(e: Entry): nat {
    if e.policy.Some? then e.policy.value.path else 0
  }

  lemma RoomByPaths(es: seq<Entry>, paths: set<nat>, p: nat)
    requires AllApart(es) && |paths| <= CAPACITY && p in paths
    requires forall e <- es :: e.policy.Some? && e.policy.value.path in paths && !OwnsPath(e, p)
    ensures |es| < CAPACITY
  {
    var xs := seq(|es|, i requires 0 <= i < |es| => PathOf(es[i]));
    assert forall i :: 0 <= i < |es| ==> es[i] in es;
    assert forall i, j :: 0 <= i < j < |es| ==> Apart(es[i], es[j]);
    forall x | x in xs ensures x in paths - {p} {
      var i :| 0 <= i < |xs| && xs[i] == x;
      assert es[i] in es;
    }
    Pigeons(xs, paths - {p});
  }

  lemma RoomByAddresses(es: seq<Entry>, addresses: set<nat>, a: nat)
    requires AllApart(es) && |addresses| <= CAPACITY && a in addresses
    requires forall e <- es :: e.address in addresses && e.address != a
    ensures |es| < CAPACITY
  {
    var xs := Addresses(es);
    assert forall i, j :: 0 <= i < j < |es| ==> Apart(es[i], es[j]);
    forall x | x in xs ensures x in addresses - {a} {
      var i :| 0 <= i < |xs| && xs[i] == x;
      assert es[i] in es;
    }
    Pigeons(xs, addresses - {a});
  }

  // ----- one step without loss -----

  predicate SeenSince(es: seq<Entry>, start: int) {
    forall e <- es :: start <= e.seen
  }

  /** Seeing an address while nothing expires and there is room changes no other entry. */
  lemma ObservedPlain(es: seq<Entry>, a: nat, at: int, start: int)
    requires AllApart(es) && SeenSince(es, start) && start <= at <= start + TTL
    requires Find(es, a) < |es| || |es| < CAPACITY
    ensures Pruned(es, at) == es
    ensures Observed(es, a, at) ==
              if Find(es, a) < |es| then es[Find(es, a) := es[Find(es, a)].(seen := at)]
              else es + [Entry(a, at, None, true)]
  {
    FilterAll(es, Fresh(at));
  }

  /** The same in everything but the time. */
  predicate Alike(e: Entry, f: Entry) {
    e.address == f.address && e.policy == f.policy && e.healthy == f.healthy
  }

  predicate Covers(es: seq<Entry>, fs: seq<Entry>) {
    forall e <- es :: e.policy.Some? ==> exists f <- fs :: Alike(e, f)
  }

  lemma ObserveEntries(es: seq<Entry>, a: nat, at: int, start: int)
    requires AllApart(es) && SeenSince(es, start) && start <= at <= start + TTL
    requires Find(es, a) < |es| || |es| < CAPACITY
    ensures var r := Observed(es, a, at);
            && (forall e <- r :: e.address != a ==> e in es)
            && (forall e <- es :: e.address != a ==> e in r)
            && (forall e <- r :: e.address == a ==> e.seen == at)
            && Covers(r, es) && Covers(es, r)
  {
    hide Observed, AllApart;
    ObservedPlain(es, a, at, start);
    var i := Find(es, a);
    if i < |es| {
      Replaced(es, i, es[i].(seen := at));
      assert es[i] in es;
    }
  }

  /** Replacing the one entry of an address. */
  lemma Replaced(es: seq<Entry>, i: nat, e: Entry)
    requires AllApart(es) && i < |es| && e.address == es[i].address
    ensures var r := es[i := e];
            && e in r
            && (forall x <- r :: x.address == e.address ==> x == e)
            && (forall x <- es :: x.address == e.address ==> x == es[i])
            && (forall x: Entry :: x.address != e.address ==> (x in r <==> x in es))
  {
    var r := es[i := e];
    assert r[i] == e;
    forall x | x in r && x.address == e.address ensures x == e {
      var k :| 0 <= k < |r| && r[k] == x;
      assert k == i;
    }
    forall x | x in es && x.address == e.address ensures x == es[i] {
      var k :| 0 <= k < |es| && es[k] == x;
      assert k == i;
    }
    forall x: Entry | x.address != e.address ensures x in r <==> x in es {
      if x in r {
        var k :| 0 <= k < |r| && r[k] == x;
        assert es[k] == x;
      }
      if x in es {
        var k :| 0 <= k < |es| && es[k] == x;
        assert r[k] == x;
      }
    }
  }

  function Kept(s: State, m: Message): seq<Entry> {
    Filter(s.entries, Unreplaced(m.address, m.policy.path))
  }

  lemma ApplyEntries(s: State, m: Message, at: int, start: int)
    requires Valid(s) && m.policy.path < PATHS && !Superseded(s, m.policy.path, m.sequence)
    requires SeenSince(s.entries, start) && start <= at <= start + TTL
    requires Find(Kept(s, m), m.address) < |Kept(s, m)| || |Kept(s, m)| < CAPACITY
    ensures var es := Step(s, Apply(m, at)).entries;
            && (exists e :: e in es && Shows(e, m))
            && (forall e <- es :: e.address == m.address ==> Shows(e, m) && e.seen == at)
            && (forall e: Entry :: e.address != m.address ==>
                  (e in es <==> e in s.entries && !OwnsPath(e, m.policy.path)))
  {
    hide Observed, AllApart;
    var kept := Kept(s, m);
    FilterApart(s.entries, Unreplaced(m.address, m.policy.path));
    ObservedApart(kept, m.address, at);
    ObserveEntries(kept, m.address, at, start);
    var r := Observed(kept, m.address, at);
    var i := Find(r, m.address);
    var e := r[i].(policy := Some(m.policy), healthy := m.healthy);
    Replaced(r, i, e);
    assert r[i] in r && Shows(e, m);
  }

  // ----- the induction -----

  lemma DeliveredLast(run: seq<Event>, e: Event, m: Message)
    ensures Delivered(run + [e], m) <==> Delivered(run, m) || (e.Apply? && e.message == m)
  {
    var all := run + [e];
    assert all[|run|] == e;
    if Delivered(run, m) {
      var i :| 0 <= i < |run| && run[i].Apply? && run[i].message == m;
      assert all[i] == run[i];
    }
  }

  /** What a run prefix inherits. */
  lemma Prefix(run: seq<Event>, e: Event)
    requires Consistent(run + [e])
    ensures Consistent(run) && (forall m :: Delivered(run, m) ==> m.policy.path < PATHS)
    ensures e.Apply? ==> e.message.policy.path < PATHS
    ensures e.Apply? ==> forall m :: Delivered(run, m) ==>
              && (m.policy.path == e.message.policy.path && m.sequence == e.message.sequence ==> m == e.message)
              && (m.address == e.message.address ==> m.policy.path == e.message.policy.path)
  {
    hide Delivered;
    forall m ensures Delivered(run + [e], m) <==> Delivered(run, m) || (e.Apply? && e.message == m) {
      DeliveredLast(run, e, m);
    }
    assert forall x <- run :: x in run + [e];
    assert e in run + [e];
    InRange(run);
  }

  lemma InRange(run: seq<Event>)
    requires PathsInRange(run)
    ensures forall m :: Delivered(run, m) ==> m.policy.path < PATHS
  {
    forall m | Delivered(run, m) ensures m.policy.path < PATHS {
      var i :| 0 <= i < |run| && run[i].Apply? && run[i].message == m;
      assert run[i] in run;
    }
  }

  lemma TopIs(run: seq<Event>, sequences: seq<Option<nat>>, m: Message)
    requires SequencesTop(run, sequences) && Consistent(run) && m.policy.path < PATHS
    ensures Top(run, m) <==> Delivered(run, m) && sequences[m.policy.path] == Some(m.sequence)
  {
    hide Delivered, PathsInRange;
  }

  /** The state after a run, as far as the messages delivered determine it. */
  ghost predicate Settled(run: seq<Event>, s: State, start: int, only: bool, paths: set<nat>, addresses: set<nat>) {
    && Valid(s) && SequencesTop(run, s.sequences) && Shown(run, s.entries)
    && SeenSince(s.entries, start) && Room(s.entries, only, paths, addresses)
  }

  lemma SequencesStep(run: seq<Event>, s: State, e: Event)
    requires Consistent(run + [e]) && Valid(s) && SequencesTop(run, s.sequences)
    requires e.Apply? ==> e.message.policy.path < PATHS
    ensures SequencesTop(run + [e], Step(s, e).sequences)
  {
    hide Delivered, Observed, Pruned, AllApart, Consistent;
    Prefix(run, e);
    forall m ensures Delivered(run + [e], m) <==> Delivered(run, m) || (e.Apply? && e.message == m) {
      DeliveredLast(run, e, m);
    }
    var t := Step(s, e).sequences;
    forall p: nat | p < PATHS && t[p].Some?
      ensures exists m :: Delivered(run + [e], m) && m.policy.path == p && m.sequence == t[p].value
    {
      if t[p] == s.sequences[p] {
        var m :| Delivered(run, m) && m.policy.path == p && m.sequence == t[p].value;
        assert Delivered(run + [e], m);
      } else {
        assert Delivered(run + [e], e.message);
      }
    }
  }

  /** Messages that change no sequence change no top message. */
  lemma TopsStay(run: seq<Event>, s: State, e: Event)
    requires Consistent(run + [e]) && SequencesTop(run, s.sequences) && SequencesTop(run + [e], s.sequences)
    ensures forall m :: Top(run + [e], m) <==> Top(run, m)
  {
    hide Delivered, Consistent, SequencesTop, Top;
    Prefix(run, e);
    forall m ensures Top(run + [e], m) <==> Top(run, m) {
      TopStays(run, s, e, m);
    }
  }

  lemma TopStays(run: seq<Event>, s: State, e: Event, m: Message)
    requires Consistent(run + [e]) && SequencesTop(run, s.sequences) && SequencesTop(run + [e], s.sequences)
    ensures Top(run + [e], m) <==> Top(run, m)
  {
    hide Delivered, Consistent;
    Prefix(run, e);
    DeliveredLast(run, e, m);
    if m.policy.path < PATHS {
      TopIs(run, s.sequences, m);
      TopIs(run + [e], s.sequences, m);
      if e.Apply? && e.message == m && s.sequences[m.policy.path] == Some(m.sequence) {
        var n :| Delivered(run, n) && n.policy.path == m.policy.path && n.sequence == m.sequence;
        assert n == m;
      }
    } else {
      assert !Delivered(run, m) && !Delivered(run + [e], m);
    }
  }

  lemma TopMoves(run: seq<Event>, s: State, e: Event, m: Message)
    requires Consistent(run + [e]) && Valid(s) && SequencesTop(run, s.sequences)
    requires e.Apply? && e.message.policy.path < PATHS && !Superseded(s, e.message.policy.path, e.message.sequence)
    ensures Top(run + [e], m) <==> m == e.message || (Top(run, m) && m.policy.path != e.message.policy.path)
  {
    hide Delivered, Consistent, Observed, AllApart;
    Prefix(run, e);
    DeliveredLast(run, e, m);
    SequencesStep(run, s, e);
    if m.policy.path < PATHS {
      TopIs(run, s.sequences, m);
      TopIs(run + [e], Step(s, e).sequences, m);
    } else {
      assert !Delivered(run, m) && !Delivered(run + [e], m);
    }
  }

  lemma AskSettled(run: seq<Event>, s: State, e: Event, start: int, only: bool, paths: set<nat>, addresses: set<nat>)
    requires Consistent(run + [e]) && Settled(run, s, start, only, paths, addresses)
    requires e.Ask? && start <= e.at <= start + TTL
    ensures Settled(run + [e], Step(s, e), start, only, paths, addresses)
  {
    hide AllApart, Consistent, SequencesTop, Top, Shows, Room, Filter;
    FilterAll(s.entries, Fresh(e.at));
    assert Step(s, e) == s;
    SequencesStep(run, s, e);
    TopsStay(run, s, e);
  }

  lemma ObserveRoom(s: State, a: nat, paths: set<nat>, addresses: set<nat>)
    requires Valid(s) && Room(s.entries, false, paths, addresses) && a in addresses
    ensures Find(s.entries, a) < |s.entries| || |s.entries| < CAPACITY
  {
    var es := s.entries;
    if Find(es, a) == |es| {
      RoomByAddresses(es, addresses, a);
    }
  }

  lemma ObserveSettled(run: seq<Event>, s: State, e: Event, start: int, paths: set<nat>, addresses: set<nat>)
    requires Consistent(run + [e]) && Settled(run, s, start, false, paths, addresses)
    requires e.Observe? && start <= e.at <= start + TTL && e.address in addresses
    ensures Settled(run + [e], Step(s, e), start, false, paths, addresses)
  {
    hide AllApart, Consistent, SequencesTop, Top, Observed;
    ObserveRoom(s, e.address, paths, addresses);
    StepKeepsValid(s, e);
    SequencesStep(run, s, e);
    TopsStay(run, s, e);
    ObserveEntries(s.entries, e.address, e.at, start);
    ShownObserved(run, s.entries, Step(s, e).entries);
    assert Shown(run + [e], Step(s, e).entries);
  }

  lemma ShownObserved(run: seq<Event>, es: seq<Entry>, r: seq<Entry>)
    requires Shown(run, es)
    requires Covers(r, es) && Covers(es, r)
    ensures Shown(run, r)
  {
    hide Top, Covers, Shows;
    forall e | e in r && e.policy.Some? ensures exists m :: Top(run, m) && Shows(e, m) {
      var f := Counterpart(r, es, e);
      var m :| Top(run, m) && Shows(f, m);
      AlikeShows(e, f, m);
    }
    forall m | Top(run, m) ensures exists e :: e in r && Shows(e, m) {
      var f :| f in es && Shows(f, m);
      AlikeShows(f, f, m);
      var e := Counterpart(es, r, f);
      AlikeShows(f, e, m);
    }
  }

  lemma Counterpart(es: seq<Entry>, fs: seq<Entry>, e: Entry) returns (f: Entry)
    requires Covers(es, fs) && e in es && e.policy.Some?
    ensures f in fs && Alike(e, f)
  {
    f :| f in fs && Alike(e, f);
  }

  lemma AlikeShows(e: Entry, f: Entry, m: Message)
    requires Alike(e, f)
    ensures Shows(e, m) <==> Shows(f, m)
    ensures Shows(e, m) ==> e.policy.Some?
  {
  }

  lemma ApplyRoom(s: State, m: Message, only: bool, paths: set<nat>, addresses: set<nat>)
    requires Valid(s) && Room(s.entries, only, paths, addresses)
    requires if only then m.policy.path in paths else m.address in addresses
    ensures Find(Kept(s, m), m.address) < |Kept(s, m)| || |Kept(s, m)| < CAPACITY
  {
    hide AllApart;
    var kept := Kept(s, m);
    FilterApart(s.entries, Unreplaced(m.address, m.policy.path));
    if Find(kept, m.address) == |kept| {
      if only {
        RoomByPaths(kept, paths, m.policy.path);
      } else {
        RoomByAddresses(kept, addresses, m.address);
      }
    }
  }

  lemma ApplySettled(run: seq<Event>, s: State, e: Event, start: int, only: bool, paths: set<nat>, addresses: set<nat>)
    requires Consistent(run + [e]) && Settled(run, s, start, only, paths, addresses)
    requires e.Apply? && start <= e.at <= start + TTL
    requires if only then e.message.policy.path in paths else e.message.address in addresses
    ensures e.message.policy.path < PATHS && Settled(run + [e], Step(s, e), start, only, paths, addresses)
  {
    hide AllApart, Consistent, SequencesTop, Top, Observed, Filter, Find;
    Prefix(run, e);
    var m := e.message;
    StepKeepsValid(s, e);
    SequencesStep(run, s, e);
    if Superseded(s, m.policy.path, m.sequence) {
      TopsStay(run, s, e);
    } else {
      ApplyRoom(s, m, only, paths, addresses);
      ApplyEntries(s, m, e.at, start);
      ShownApplied(run, s, e, Step(s, e).entries);
      RoomApplied(s.entries, Step(s, e).entries, m, only, paths, addresses);
    }
  }

  lemma RoomApplied(es: seq<Entry>, r: seq<Entry>, m: Message, only: bool, paths: set<nat>, addresses: set<nat>)
    requires Room(es, only, paths, addresses)
    requires if only then m.policy.path in paths else m.address in addresses
    requires forall e <- r :: e.address == m.address ==> Shows(e, m)
    requires forall e: Entry :: e.address != m.address ==> (e in r <==> e in es && !OwnsPath(e, m.policy.path))
    ensures Room(r, only, paths, addresses)
  {
  }

  lemma ShownApplied(run: seq<Event>, s: State, e: Event, r: seq<Entry>)
    requires Consistent(run + [e]) && Valid(s) && SequencesTop(run, s.sequences) && Shown(run, s.entries)
    requires e.Apply? && e.message.policy.path < PATHS && !Superseded(s, e.message.policy.path, e.message.sequence)
    requires exists x :: x in r && Shows(x, e.message)
    requires forall x <- r :: x.address == e.message.address ==> Shows(x, e.message)
    requires forall x: Entry :: x.address != e.message.address ==>
               (x in r <==> x in s.entries && !OwnsPath(x, e.message.policy.path))
    ensures Shown(run + [e], r)
  {
    hide Consistent, SequencesTop, Valid, Delivered;
    Prefix(run, e);
    forall m ensures Top(run + [e], m) <==> m == e.message || (Top(run, m) && m.policy.path != e.message.policy.path) {
      TopMoves(run, s, e, m);
    }
    forall m | Top(run, m) ensures m.address == e.message.address ==> m.policy.path == e.message.policy.path {
    }
    ShownMoved(run, run + [e], e.message, s.entries, r);
  }

  lemma ShownMoved(run: seq<Event>, next: seq<Event>, m: Message, es: seq<Entry>, r: seq<Entry>)
    requires Shown(run, es)
    requires forall n :: Top(next, n) <==> n == m || (Top(run, n) && n.policy.path != m.policy.path)
    requires forall n :: Top(run, n) && n.address == m.address ==> n.policy.path == m.policy.path
    requires exists x :: x in r && Shows(x, m)
    requires forall x <- r :: x.address == m.address ==> Shows(x, m)
    requires forall x: Entry :: x.address != m.address ==> (x in r <==> x in es && !OwnsPath(x, m.policy.path))
    ensures Shown(next, r)
  {
    hide Top;
    forall x | x in r && x.policy.Some? ensures exists n :: Top(next, n) && Shows(x, n) {
      if x.address == m.address {
        assert Top(next, m) && Shows(x, m);
      } else {
        var n :| Top(run, n) && Shows(x, n);
        assert Top(next, n);
      }
    }
    forall n | Top(next, n) ensures exists x :: x in r && Shows(x, n) {
      if n != m {
        var x :| x in es && Shows(x, n);
        assert x in r;
      }
    }
  }

  lemma {:induction false} RunSettles(run: seq<Event>, start: int, only: bool, paths: set<nat>, addresses: set<nat>)
    requires Consistent(run) && Within(run, start) && Roomy(run, only, paths, addresses)
    ensures Settled(run, After(run), start, only, paths, addresses)
  {
    hide Consistent, Settled, Step, Valid;
    if run == [] {
      SettledInitially(start, only, paths, addresses);
    } else {
      var init, e := run[..|run| - 1], run[|run| - 1];
      assert run == init + [e] && e in run && forall x <- init :: x in run;
      Prefix(init, e);
      RunSettles(init, start, only, paths, addresses);
      match e
      case Observe(a, at) => ObserveSettled(init, After(init), e, start, paths, addresses);
      case Apply(m, at) => ApplySettled(init, After(init), e, start, only, paths, addresses);
      case Ask(at) => AskSettled(init, After(init), e, start, only, paths, addresses);
    }
  }

  lemma SettledInitially(start: int, only: bool, paths: set<nat>, addresses: set<nat>)
    requires Roomy([], only, paths, addresses)
    ensures Settled([], Initial(), start, only, paths, addresses)
  {
  }

  /** One line of the return-path table. */
  datatype Row = Row(path: nat, address: nat, selected: bool, healthy: bool)

  function Rows(es: seq<Entry>): (r: set<Row>)
  {
    set e <- es | e.policy.Some? :: Row(e.policy.value.path, e.address, e.policy.value.selected, e.healthy)
  }

  function RowOf(m: Message): Row {
    Row(m.policy.path, m.address, m.policy.selected, m.healthy)
  }

  /** Within the lifetime of an entry, the table holds each path's highest-numbered message, and only
      those. */
  lemma RowsAreTops(run: seq<Event>, start: int, only: bool, paths: set<nat>, addresses: set<nat>)
    requires Consistent(run) && Within(run, start) && Roomy(run, only, paths, addresses)
    ensures forall r :: r in Rows(After(run).entries) <==> exists m :: Top(run, m) && RowOf(m) == r
  {
    hide Within, Roomy, Valid, SequencesTop, Top, Room, Shown, Rows, Delivered;
    RunSettles(run, start, only, paths, addresses);
    var es := After(run).entries;
    forall r ensures r in Rows(es) <==> exists m :: Top(run, m) && RowOf(m) == r {
      if r in Rows(es) {
        var m := ShownRow(run, es, r);
      }
      if m :| Top(run, m) && RowOf(m) == r {
        RowShown(run, es, m);
      }
    }
  }

  lemma ShownRow(run: seq<Event>, es: seq<Entry>, r: Row) returns (m: Message)
    requires Shown(run, es) && r in Rows(es)
    ensures Top(run, m) && RowOf(m) == r
  {
    hide Top;
    var e :| e in es && e.policy.Some? && r == Row(e.policy.value.path, e.address, e.policy.value.selected, e.healthy);
    m :| Top(run, m) && Shows(e, m);
  }

  lemma RowShown(run: seq<Event>, es: seq<Entry>, m: Message)
    requires Shown(run, es) && Top(run, m)
    ensures RowOf(m) in Rows(es)
  {
    hide Top;
    var e :| e in es && Shows(e, m);
  }

  /** Two runs that deliver the same messages, in whatever order and however often, end in the same
      table of paths. */
  lemma Convergence(one: seq<Event>, two: seq<Event>, from1: int, from2: int, only: bool, paths: set<nat>,
                    addresses: set<nat>)
    requires Consistent(one) && Within(one, from1) && Roomy(one, only, paths, addresses)
    requires Consistent(two) && Within(two, from2) && Roomy(two, only, paths, addresses)
    requires forall m :: Delivered(one, m) <==> Delivered(two, m)
    ensures Rows(After(one).entries) == Rows(After(two).entries)
  {
    hide Within, Roomy, Delivered, Rows;
    RowsAreTops(one, from1, only, paths, addresses);
    RowsAreTops(two, from2, only, paths, addresses);
    assert forall m :: Top(one, m) <==> Top(two, m);
  }
}
