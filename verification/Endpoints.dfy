/** The return-path table of `relay/src/endpoints.rs`. */
module Endpoints {
  import opened Bytes
  import opened Arithmetic
  import Sorting

  const CAPACITY := 8
  /** Milliseconds. */
  const TTL := 45_000
  const REPAIR_FRESHNESS := 3_000
  const PATHS := 64

  datatype Policy = Policy(path: nat, selected: bool)

  datatype Entry = Entry(address: nat, seen: int, policy: Option<Policy>, healthy: bool)

  datatype State = State(entries: seq<Entry>, sequences: seq<Option<nat>>, selective: bool)

  function Blank(): seq<Option<nat>> {
    seq(PATHS, _ => None)
  }

  function Initial(): State {
    State([], Blank(), false)
  }

  // ----- keeping some entries -----

  function Filter(es: seq<Entry>, keep: Entry -> bool): (r: seq<Entry>)
    ensures |r| <= |es| && forall e :: e in r <==> e in es && keep(e)
    ensures r == [] <==> forall e <- es :: !keep(e)
  {
    if es == [] then [] else (if keep(es[0]) then [es[0]] else []) + Filter(es[1..], keep)
  }

  predicate OwnsPath(e: Entry, path: nat) {
    e.policy.Some? && e.policy.value.path == path
  }

  /** Two entries that may stand side by side. */
  predicate Apart(e: Entry, f: Entry) {
    e.address != f.address && !(e.policy.Some? && OwnsPath(f, e.policy.value.path))
  }

  predicate AllApart(es: seq<Entry>) {
    forall i, j :: 0 <= i < j < |es| ==> Apart(es[i], es[j])
  }

  lemma {:induction false} FilterApart(es: seq<Entry>, keep: Entry -> bool)
    requires AllApart(es)
    ensures AllApart(Filter(es, keep))
  {
    if es != [] {
      FilterApart(es[1..], keep);
      var rest := Filter(es[1..], keep);
      assert Filter(es, keep) == (if keep(es[0]) then [es[0]] else []) + rest;
      hide Filter;
      FirstApart(es);
      assert forall x <- rest :: Apart(es[0], x);
    }
  }

  lemma FirstApart(es: seq<Entry>)
    requires AllApart(es) && es != []
    ensures forall x <- es[1..] :: Apart(es[0], x)
  {
  }

  lemma {:induction false} FilterAll(es: seq<Entry>, keep: Entry -> bool)
    requires forall e <- es :: keep(e)
    ensures Filter(es, keep) == es
  {
    if es != [] {
      FilterAll(es[1..], keep);
      assert es[0] in es;
    }
  }

  function Fresh(now: int): Entry -> bool {
    (e: Entry) => now - e.seen <= TTL
  }

  /** Not an older endpoint of the path that has moved to `address`. */
  function Unreplaced(address: nat, path: nat): Entry -> bool {
    (e: Entry) => e.address == address || !OwnsPath(e, path)
  }

  function Find(es: seq<Entry>, address: nat): (i: nat)
    ensures i <= |es| && (i < |es| ==> es[i].address == address)
    ensures forall j :: 0 <= j < i ==> es[j].address != address
  {
    if es == [] || es[0].address == address then 0 else 1 + Find(es[1..], address)
  }

  // ----- least recently seen first -----

  function BySeen(): (Entry, Entry) -> bool {
    (e: Entry, f: Entry) => e.seen <= f.seen
  }

  function SortSeen(es: seq<Entry>): seq<Entry> {
    Sorting.Sort(es, BySeen())
  }

  function SideBySide(): (Entry, Entry) -> bool {
    (e: Entry, f: Entry) => Apart(e, f)
  }

  lemma SortSeenApart(es: seq<Entry>)
    requires AllApart(es)
    ensures |SortSeen(es)| == |es| && AllApart(SortSeen(es))
    ensures forall x :: x in SortSeen(es) <==> x in es
  {
    hide Sorting.Sort;
    Sorting.SortIs(es, BySeen());
    Sorting.PairwiseKept(es, SortSeen(es), SideBySide());
    var r := SortSeen(es);
    forall i, j | 0 <= i < j < |r| ensures Apart(r[i], r[j]) {
      assert SideBySide()(r[i], r[j]);
    }
  }

  /** A newcomer to a full table displaces one entry, none seen longer ago. */
  lemma EvictsOldest(es: seq<Entry>, address: nat, now: int) returns (gone: Entry)
    requires |Pruned(es, now)| == 8 && forall e <- Pruned(es, now) :: e.address != address
    ensures gone in Pruned(es, now) && forall e <- Pruned(es, now) :: gone.seen <= e.seen
    ensures multiset(Observed(es, address, now)) ==
              multiset(Pruned(es, now)) - multiset{gone} + multiset{Entry(address, now, None, true)}
  {
    hide Pruned, Sorting.Sort;
    var live := Pruned(es, now);
    assert Find(live, address) == 8;
    Sorting.SortIs(live, BySeen());
    var r := Sorting.Sort(live, BySeen());
    gone := r[0];
    assert r == [gone] + r[1..];
    assert gone in multiset(live);
    forall e | e in live ensures gone.seen <= e.seen {
      assert e in multiset(r);
      var k :| 0 <= k < |r| && r[k] == e;
      assert k > 0 ==> BySeen()(r[0], r[k]);
    }
  }

  // ----- the operations -----

  function Pruned(es: seq<Entry>, now: int): seq<Entry> {
    Filter(es, Fresh(now))
  }

  /** The entries once `address` has been seen at `now`. */
  function Observed(es: seq<Entry>, address: nat, now: int): seq<Entry> {
    var live := Pruned(es, now);
    var i := Find(live, address);
    if i < |live| then live[i := live[i].(seen := now)]
    else (if |live| >= CAPACITY then SortSeen(live)[1..] else live) + [Entry(address, now, None, true)]
  }

  predicate Superseded(s: State, path: nat, sequence: nat)
    requires path < |s.sequences|
  {
    s.sequences[path].Some? && sequence <= s.sequences[path].value
  }

  function Applied(s: State, address: nat, policy: Policy, healthy: bool, sequence: nat, now: int): State
    requires policy.path < |s.sequences|
  {
    if Superseded(s, policy.path, sequence) then s
    else
      var es := Observed(Filter(s.entries, Unreplaced(address, policy.path)), address, now);
      var i := Find(es, address);
      State(if i < |es| then es[i := es[i].(policy := Some(policy), healthy := healthy)] else es,
            s.sequences[policy.path := Some(sequence)], true)
  }

  predicate IsSelected(e: Entry) {
    e.policy.Some? && e.policy.value.selected
  }

  function Chosen(selective: bool): Entry -> bool {
    (e: Entry) => !selective || IsSelected(e)
  }

  /** The last of the most recently seen. */
  function Newest(es: seq<Entry>): (e: Entry)
    requires es != []
    ensures e in es && forall f <- es :: f.seen <= e.seen
  {
    if |es| == 1 then es[0]
    else
      var rest := Newest(es[1..]);
      assert forall f <- es :: f == es[0] || f in es[1..];
      if rest.seen >= es[0].seen then rest else es[0]
  }

  function Addresses(es: seq<Entry>): (a: seq<nat>)
    ensures |a| == |es| && forall i :: 0 <= i < |es| ==> a[i] == es[i].address
  {
    seq(|es|, i requires 0 <= i < |es| => es[i].address)
  }

  function At(address: nat): Entry -> bool {
    (e: Entry) => e.address == address
  }

  function TargetEntries(live: seq<Entry>, selective: bool): seq<Entry> {
    var chosen := Filter(live, Chosen(selective));
    if chosen != [] || live == [] then chosen else Filter(live, At(Newest(live).address))
  }

  function Ready(now: int): Entry -> bool {
    (e: Entry) => e.healthy && now - e.seen <= REPAIR_FRESHNESS && e.policy.Some?
  }

  function Spare(now: int): Entry -> bool {
    (e: Entry) => e.healthy && now - e.seen <= REPAIR_FRESHNESS && e.policy.Some? && !e.policy.value.selected
  }

  function RepairTarget(s: State, now: int, turn: nat): Option<nat> {
    var live := Pruned(s.entries, now);
    if !s.selective then None
    else
      var spare := Filter(live, Spare(now));
      var eligible := if spare != [] then spare else Filter(live, Ready(now));
      if eligible == [] then
        var targets := TargetEntries(live, s.selective);
        if targets == [] then None else Some(targets[0].address)
      else Some(eligible[turn % |eligible|].address)
  }

  // ----- the invariant -----

  ghost predicate Valid(s: State) {
    && |s.sequences| == 64 && |s.entries| <= 8 && AllApart(s.entries)
    && forall e <- s.entries :: e.policy.Some? ==>
         s.selective && e.policy.value.path < PATHS && s.sequences[e.policy.value.path].Some?
  }

  lemma ObservedApart(es: seq<Entry>, address: nat, now: int)
    requires AllApart(es) && |es| <= CAPACITY
    ensures var r := Observed(es, address, now);
            && AllApart(r) && |r| <= CAPACITY && Find(r, address) < |r|
            && PoliciesFrom(r, es)
  {
    hide Apart, PoliciesFrom, SortSeen, Find;
    var live := Pruned(es, now);
    FilterApart(es, Fresh(now));
    var i := Find(live, address);
    if i < |live| {
      Touched(live, es, i, now);
    } else if |live| >= CAPACITY {
      SortSeenApart(live);
      var rest := SortSeen(live)[1..];
      assert forall f <- rest :: f in SortSeen(live);
      Pushed(rest, es, address, now);
    } else {
      Pushed(live, es, address, now);
    }
  }

  /** Every policy in `r` is one of those in `es`. */
  ghost predicate PoliciesFrom(r: seq<Entry>, es: seq<Entry>) {
    forall e <- r :: e.policy.Some? ==> exists f :: f in es && f.policy == e.policy
  }

  lemma Touched(live: seq<Entry>, es: seq<Entry>, i: nat, now: int)
    requires AllApart(live) && i < |live| && forall e <- live :: e in es
    ensures var r := live[i := live[i].(seen := now)];
            AllApart(r) && |r| == |live| && Find(r, live[i].address) < |r| && PoliciesFrom(r, es)
  {
    var r := live[i := live[i].(seen := now)];
    forall e | e in r && e.policy.Some? ensures exists f :: f in es && f.policy == e.policy {
      var k :| 0 <= k < |r| && r[k] == e;
      assert live[k] in live && live[k].policy == e.policy;
    }
    assert r[i].address == live[i].address;
  }

  lemma Pushed(live: seq<Entry>, es: seq<Entry>, address: nat, now: int)
    requires AllApart(live) && forall f <- live :: f in es && f.address != address
    ensures var r := live + [Entry(address, now, None, true)];
            AllApart(r) && Find(r, address) < |r| && PoliciesFrom(r, es)
  {
    var r := live + [Entry(address, now, None, true)];
    assert forall k :: 0 <= k < |live| ==> live[k] in live;
    assert r[|live|].address == address;
  }

  lemma ObserveKeepsValid(s: State, address: nat, now: int)
    requires Valid(s)
    ensures Valid(s.(entries := Observed(s.entries, address, now)))
  {
    hide Observed, AllApart, Find;
    ObservedApart(s.entries, address, now);
  }

  lemma PruneKeepsValid(s: State, now: int)
    requires Valid(s)
    ensures Valid(s.(entries := Pruned(s.entries, now)))
  {
    hide AllApart;
    FilterApart(s.entries, Fresh(now));
  }

  /** A policy message leaves the table valid, and its sender in it. */
  lemma ApplyKeepsValid(s: State, address: nat, policy: Policy, healthy: bool, sequence: nat, now: int)
    requires Valid(s) && policy.path < PATHS
    ensures Valid(Applied(s, address, policy, healthy, sequence, now))
  {
    hide Observed;
    if !Superseded(s, policy.path, sequence) {
      var kept := Filter(s.entries, Unreplaced(address, policy.path));
      FilterApart(s.entries, Unreplaced(address, policy.path));
      ObservedApart(kept, address, now);
      var es := Observed(kept, address, now);
      var i := Find(es, address);
      forall e | e in es && e.address != address ensures !OwnsPath(e, policy.path) {
        ObservedOthers(kept, address, now, e);
      }
      PolicySet(s, es, i, policy, healthy);
      PoliciesKnown(s, kept, es, i, policy, healthy, sequence);
    }
  }

  lemma ObservedOthers(es: seq<Entry>, address: nat, now: int, e: Entry)
    requires AllApart(es) && e in Observed(es, address, now) && e.address != address
    ensures e in es
  {
    hide Apart;
    var live := Pruned(es, now);
    FilterApart(es, Fresh(now));
    var i := Find(live, address);
    if i == |live| && |live| >= CAPACITY {
      SortSeenApart(live);
      assert e in SortSeen(live);
    }
  }

  lemma PolicySet(s: State, es: seq<Entry>, i: nat, policy: Policy, healthy: bool)
    requires AllApart(es) && i < |es| && forall e <- es :: e.address != es[i].address ==> !OwnsPath(e, policy.path)
    ensures AllApart(es[i := es[i].(policy := Some(policy), healthy := healthy)])
  {
    var r := es[i := es[i].(policy := Some(policy), healthy := healthy)];
    forall a, b | 0 <= a < b < |r| ensures Apart(r[a], r[b]) {
      assert Apart(es[a], es[b]) && es[a] in es && es[b] in es;
    }
  }

  lemma PoliciesKnown(s: State, kept: seq<Entry>, es: seq<Entry>, i: nat, policy: Policy, healthy: bool, sequence: nat)
    requires Valid(s) && policy.path < PATHS && i < |es| && (forall e <- kept :: e in s.entries)
    requires PoliciesFrom(es, kept)
    ensures forall e <- es[i := es[i].(policy := Some(policy), healthy := healthy)] :: e.policy.Some? ==>
              e.policy.value.path < PATHS && s.sequences[policy.path := Some(sequence)][e.policy.value.path].Some?
  {
    var r := es[i := es[i].(policy := Some(policy), healthy := healthy)];
    forall e | e in r && e.policy.Some?
      ensures e.policy.value.path < PATHS && s.sequences[policy.path := Some(sequence)][e.policy.value.path].Some?
    {
      if e.policy != Some(policy) {
        assert e in es;
        var f :| f in kept && f.policy == e.policy;
      }
    }
  }

  /** The targets are all that live under the legacy rule, the selected ones under the selective
      rule, and failing any of those exactly one, the most recently seen: never none while something
      lives. */
  lemma TargetsAre(live: seq<Entry>, selective: bool)
    requires AllApart(live)
    ensures var r := TargetEntries(live, selective);
            && (!selective ==> r == live)
            && ((exists e <- live :: e.policy.Some? && e.policy.value.selected) && selective ==>
                  forall e :: e in r <==> e in live && e.policy.Some? && e.policy.value.selected)
            && (selective && live != [] && (forall e <- live :: e.policy.Some? ==> !e.policy.value.selected) ==>
                  |r| == 1 && r[0] in live && forall e <- live :: e.seen <= r[0].seen)
            && (live == [] <==> r == [])
  {
    if !selective {
      FilterAll(live, Chosen(selective));
    } else if exists e <- live :: IsSelected(e) {
      var e :| e in live && IsSelected(e);
      assert Chosen(true)(e) && e in Filter(live, Chosen(true));
    } else if live != [] {
      var e := Newest(live);
      var r := Filter(live, Chosen(true));
      assert r == [];
      FilterOne(live, e);
    }
  }

  lemma {:induction false} FilterOne(es: seq<Entry>, e: Entry)
    requires AllApart(es) && e in es
    ensures Filter(es, At(e.address)) == [e]
  {
    if es[0] == e {
      var rest := Filter(es[1..], At(e.address));
      assert forall j :: 0 < j < |es| ==> Apart(es[0], es[j]);
      assert forall f <- es[1..] :: !At(e.address)(f);
      assert rest == [];
    } else {
      FilterOne(es[1..], e);
      var j :| 0 < j < |es| && es[j] == e;
      assert Apart(es[0], es[j]);
    }
  }

  // ----- in the fields of the entries -----

  /** What survives is what was seen in the last 45 seconds. */
  lemma PrunedIs(es: seq<Entry>, now: int)
    ensures forall e :: e in Pruned(es, now) <==> e in es && now - e.seen <= 45_000
  {
  }

  /** Every target was seen in the last 45 seconds, and it is the newest where none is selected. */
  lemma TargetsAreFresh(es: seq<Entry>, selective: bool, now: int)
    ensures forall e <- TargetEntries(Pruned(es, now), selective) :: e in es && now - e.seen <= 45_000
  {
    PrunedIs(es, now);
    hide Pruned, Fresh;
  }

  /** Healthy, heard of within three seconds, and with a policy. */
  predicate Heard(e: Entry, now: int) {
    e.healthy && e.policy.Some? && now - e.seen <= 3_000
  }

  /** Such a path that does not carry the data itself. */
  predicate Standby(e: Entry, now: int) {
    Heard(e, now) && !e.policy.value.selected
  }

  /** The paths a repair may take: the standbys if there are any, else the ones heard of. */
  predicate MayRepair(live: seq<Entry>, e: Entry, now: int) {
    e in live && Heard(e, now) && ((exists f <- live :: Standby(f, now)) ==> Standby(e, now))
  }

  lemma EligibleIs(live: seq<Entry>, now: int)
    ensures forall e :: e in Filter(live, Spare(now)) <==> e in live && Standby(e, now)
    ensures forall e :: e in Filter(live, Ready(now)) <==> e in live && Heard(e, now)
    ensures Filter(live, Spare(now)) == [] <==> forall e <- live :: !Standby(e, now)
    ensures Filter(live, Ready(now)) == [] <==> forall e <- live :: !Heard(e, now)
  {
  }

  /** A selective table with anything alive has a repair target, and no other: a standby when one is
      heard of, else a path that is, else the first of the targets. */
  lemma RepairTargetIs(s: State, now: int, turn: nat)
    requires Valid(s)
    ensures var live := Pruned(s.entries, now); var r := RepairTarget(s, now, turn);
            && (r.Some? <==> s.selective && live != [])
            && (r.Some? && (exists e <- live :: Heard(e, now)) ==>
                  exists e :: MayRepair(live, e, now) && e.address == r.value)
            && (r.Some? && (forall e <- live :: !Heard(e, now)) ==>
                  r.value == TargetEntries(live, true)[0].address)
  {
    hide TargetEntries, Pruned, AllApart, Spare, Ready, Heard;
    var live := Pruned(s.entries, now);
    PruneKeepsValid(s, now);
    TargetsAre(live, s.selective);
    EligibleIs(live, now);
    var spare, ready := Filter(live, Spare(now)), Filter(live, Ready(now));
    if spare != [] {
      var e := spare[turn % |spare|];
      assert e in spare && MayRepair(live, e, now);
    } else if ready != [] {
      var e := ready[turn % |ready|];
      assert e in ready && MayRepair(live, e, now);
    }
  }

  /** A repair rotates: every path that may take it has its turn among as many consecutive turns as
      there are live paths. */
  lemma RepairsRotate(s: State, now: int, turn: nat, e: Entry)
    requires s.selective && MayRepair(Pruned(s.entries, now), e, now)
    ensures exists t: nat :: turn <= t < turn + |Pruned(s.entries, now)| && RepairTarget(s, now, t) == Some(e.address)
  {
    hide Pruned, TargetEntries, Heard, Spare, Ready;
    var live := Pruned(s.entries, now);
    EligibleIs(live, now);
    var spare, ready := Filter(live, Spare(now)), Filter(live, Ready(now));
    var eligible := if spare != [] then spare else ready;
    assert e in eligible;
    var k: nat :| k < |eligible| && eligible[k] == e;
    var t := TurnFor(turn, |eligible|, k);
    assert RepairTarget(s, now, t) == Some(e.address);
  }

  function TurnFor(turn: nat, n: nat, k: nat): (t: nat)
    requires k < n
    ensures turn <= t < turn + n && t % n == k
  {
    if turn % n == k then turn
    else if turn % n < k then
      RemainderIs(turn + k - turn % n, n, turn / n, k);
      turn + k - turn % n
    else
      RemainderIs(turn + k + n - turn % n, n, turn / n + 1, k);
      turn + k + n - turn % n
  }

  // ----- the table itself -----

  class Table {
    var entries: seq<Entry>
    var policySequences: array<Option<nat>>
    var selective: bool

    ghost function Now(): State
      reads this, policySequences
    {
      State(entries, policySequences[..], selective)
    }

    constructor ()
      ensures Now() == Initial() && Valid(Now()) && fresh(policySequences)
    {
      entries, selective := [], false;
      policySequences := new Option<nat>[PATHS](_ => None);
      new;
      assert policySequences[..] == Blank();
    }

    method Prune(now: int)
      requires Valid(Now())
      modifies this`entries
      ensures Valid(Now()) && Now() == old(Now()).(entries := Pruned(old(entries), now))
    {
      PruneKeepsValid(Now(), now);
      entries := Filter(entries, Fresh(now));
    }

    method Observe(address: nat, now: int)
      requires Valid(Now())
      modifies this`entries
      ensures Valid(Now()) && Now() == old(Now()).(entries := Observed(old(entries), address, now))
    {
      ObserveKeepsValid(Now(), address, now);
      Prune(now);
      var i := Find(entries, address);
      if i < |entries| {
        entries := entries[i := entries[i].(seen := now)];
      } else {
        if |entries| >= CAPACITY {
          SortSeenApart(entries);
          entries := SortSeen(entries);
          entries := entries[1..];
        }
        entries := entries + [Entry(address, now, None, true)];
      }
    }

    /** The sender is found once observed, so taking the search's result is safe. */
    method Apply(address: nat, policy: Policy, healthy: bool, sequence: nat, now: int)
      requires Valid(Now()) && policy.path < PATHS
      modifies this, policySequences
      ensures policySequences == old(policySequences)
      ensures Valid(Now()) && Now() == Applied(old(Now()), address, policy, healthy, sequence, now)
    {
      hide Observed, AllApart, Filter, Find;
      ApplyKeepsValid(Now(), address, policy, healthy, sequence, now);
      var previous := policySequences[policy.path];
      if previous.Some? && sequence <= previous.value {
        return;
      }
      RetainKeepsValid(Now(), address, policy.path);
      ghost var was := policySequences[..];
      policySequences[policy.path] := Some(sequence);
      assert policySequences[..] == was[policy.path := Some(sequence)];
      selective := true;
      entries := Filter(entries, Unreplaced(address, policy.path));
      ObservedApart(entries, address, now);
      assert Valid(Now());
      Observe(address, now);
      var i := Find(entries, address);
      entries := entries[i := entries[i].(policy := Some(policy), healthy := healthy)];
    }

    method Targets(now: int) returns (targets: seq<nat>)
      requires Valid(Now())
      modifies this`entries
      ensures Valid(Now()) && Now() == old(Now()).(entries := Pruned(old(entries), now))
      ensures targets == Addresses(TargetEntries(entries, selective))
    {
      Prune(now);
      var chosen := Filter(entries, Chosen(selective));
      if chosen == [] && entries != [] {
        chosen := Filter(entries, At(Newest(entries).address));
      }
      targets := Addresses(chosen);
    }

    method Repair(now: int, turn: nat) returns (target: Option<nat>)
      requires Valid(Now())
      modifies this`entries
      ensures Valid(Now()) && Now() == old(Now()).(entries := Pruned(old(entries), now))
      ensures target == RepairTarget(old(Now()), now, turn)
    {
      hide AllApart, TargetEntries, Filter;
      Prune(now);
      if !selective {
        return None;
      }
      var eligible := Filter(entries, Spare(now));
      if eligible == [] {
        eligible := Filter(entries, Ready(now));
      }
      if eligible == [] {
        ghost var live := entries;
        var targets := Targets(now);
        PrunedTwice(old(entries), now);
        target := if targets == [] then None else Some(targets[0]);
      } else {
        target := Some(eligible[turn % |eligible|].address);
      }
    }
  }

  lemma PrunedTwice(es: seq<Entry>, now: int)
    ensures Pruned(Pruned(es, now), now) == Pruned(es, now)
  {
    FilterAll(Pruned(es, now), Fresh(now));
  }

  lemma RetainKeepsValid(s: State, address: nat, path: nat)
    requires Valid(s) && path < PATHS
    ensures forall n: nat ::
              Valid(State(Filter(s.entries, Unreplaced(address, path)), s.sequences[path := Some(n)], true))
  {
    hide AllApart;
    FilterApart(s.entries, Unreplaced(address, path));
  }
}
