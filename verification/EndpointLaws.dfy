/** What a packet and a policy message make of the return-path table, in the fields of its entries. */
module EndpointLaws {
  import opened Bytes
  import opened Endpoints
  import opened EndpointsRuns

  /** The entries heard of in the last 45 seconds. */
  predicate Lives(e: Entry, now: int) {
    now - e.seen <= 45_000
  }

  /** Hearing of an address that lives in the table moves its time and nothing else. */
  lemma KnownSeen(es: seq<Entry>, e: Entry, now: int)
    requires AllApart(es) && e in es && Lives(e, now)
    ensures forall f :: f in Observed(es, e.address, now) <==>
              f == e.(seen := now) || (f in es && Lives(f, now) && f.address != e.address)
  {
    var live := Pruned(es, now);
    PrunedIs(es, now);
    FilterApart(es, Fresh(now));
    var i := Find(live, e.address);
    var j :| 0 <= j < |live| && live[j] == e;
    assert i <= j;
    if i < j {
      AddressesDiffer(live, i, j);
    }
    hide Pruned, AllApart;
    var r := live[i := e.(seen := now)];
    assert r[i] == e.(seen := now);
    forall f | f in live && f.address != e.address ensures f in r {
      var k :| 0 <= k < |live| && live[k] == f;
      assert r[k] == f;
    }
    forall f | f in r && f != e.(seen := now) ensures f in live && f.address != e.address {
      var k :| 0 <= k < |r| && r[k] == f;
      assert k != i && live[k] == f;
      AddressesDiffer(live, i, k);
    }
  }

  lemma AddressesDiffer(live: seq<Entry>, i: nat, j: nat)
    requires AllApart(live) && i < |live| && j < |live| && i != j
    ensures live[i].address != live[j].address
  {
    if i < j {
      assert Apart(live[i], live[j]);
    } else {
      assert Apart(live[j], live[i]);
    }
  }

  /** Hearing of a new one adds it, healthy and without a policy, and while fewer than eight live nothing
      else changes. */
  lemma NewcomerSeen(es: seq<Entry>, address: nat, now: int)
    requires forall e <- es :: Lives(e, now) ==> e.address != address
    ensures Entry(address, now, None, true) in Observed(es, address, now)
    ensures |Pruned(es, now)| < 8 ==>
              forall f :: f in Observed(es, address, now) <==>
                f == Entry(address, now, None, true) || (f in es && Lives(f, now))
    ensures forall f <- Observed(es, address, now) ::
              f == Entry(address, now, None, true) || (f in es && Lives(f, now))
  {
    var live := Pruned(es, now);
    PrunedIs(es, now);
    hide Pruned, Sorting.Sort;
    Sorting.SortIs(live, BySeen());
    var r := SortSeen(live);
    assert forall f :: f in r <==> f in live by {
      assert forall f :: f in multiset(r) <==> f in multiset(live);
    }
    if |live| >= 8 {
      assert forall f <- r[1..] :: f in r;
    }
  }

  /** A message whose sequence is no higher than one its path has had changes nothing. Any other is
      recorded, makes the table selective, and leaves its path at its sender alone. */
  lemma MessageIs(s: State, address: nat, policy: Policy, healthy: bool, sequence: nat, now: int)
    requires Valid(s) && policy.path < 64
    ensures var (t, known) := (Applied(s, address, policy, healthy, sequence, now), s.sequences[policy.path]);
            if known.Some? && sequence <= known.value then t == s
            else
              && t.selective && t.sequences == s.sequences[policy.path := Some(sequence)]
              && Entry(address, now, Some(policy), healthy) in t.entries
              && forall f <- t.entries ::
                   f == Entry(address, now, Some(policy), healthy) || Stays(s, f, address, policy, now)
    ensures var (t, known) := (Applied(s, address, policy, healthy, sequence, now), s.sequences[policy.path]);
            !(known.Some? && sequence <= known.value)
            && (|s.entries| < 8 || exists e :: e in s.entries && e.address == address && Lives(e, now)) ==>
              forall f :: Stays(s, f, address, policy, now) ==> f in t.entries
  {
    hide Observed, AllApart, Find, Apart, Lives;
    if !Superseded(s, policy.path, sequence) {
      var kept := Filter(s.entries, Unreplaced(address, policy.path));
      FilterApart(s.entries, Unreplaced(address, policy.path));
      ObservedApart(kept, address, now);
      KeptObserved(s.entries, kept, address, policy.path, now);
      var es := Observed(kept, address, now);
      assert es[Find(es, address)] in es;
      PolicyPut(es, address, policy, healthy);
    }
  }

  /** An entry of another address and another path that lives. */
  predicate Stays(s: State, f: Entry, address: nat, policy: Policy, now: int) {
    f in s.entries && f.address != address && !OtherOwner(f, policy.path) && Lives(f, now)
  }

  predicate OtherOwner(f: Entry, path: nat) {
    f.policy.Some? && f.policy.value.path == path
  }

  lemma KeptObserved(es: seq<Entry>, kept: seq<Entry>, address: nat, path: nat, now: int)
    requires AllApart(kept) && |kept| <= |es|
    requires forall f :: f in kept <==> f in es && (f.address == address || !OtherOwner(f, path))
    ensures forall f <- Observed(kept, address, now) ::
              if f.address == address then f.seen == now else f in es && !OtherOwner(f, path) && Lives(f, now)
    ensures |es| < 8 || (exists e :: e in es && e.address == address && Lives(e, now)) ==>
              forall f :: f in es && f.address != address && !OtherOwner(f, path) && Lives(f, now) ==>
                f in Observed(kept, address, now)
  {
    hide Observed, AllApart, OtherOwner, Lives;
    FewerPruned(kept, now);
    if e :| e in es && e.address == address && Lives(e, now) {
      KnownSeen(kept, e, now);
    } else {
      NewcomerSeen(kept, address, now);
    }
  }

  lemma FewerPruned(es: seq<Entry>, now: int)
    ensures |Pruned(es, now)| <= |es|
  {
  }

  lemma PolicyPut(es: seq<Entry>, address: nat, policy: Policy, healthy: bool)
    requires AllApart(es) && Find(es, address) < |es|
    ensures var i := Find(es, address);
            var r := es[i := es[i].(policy := Some(policy), healthy := healthy)];
            && Entry(address, es[i].seen, Some(policy), healthy) in r
            && (forall f <- r ::
                  f == Entry(address, es[i].seen, Some(policy), healthy) || (f in es && f.address != address))
            && (forall f <- es :: f.address != address ==> f in r)
  {
    hide AllApart;
    var i := Find(es, address);
    var r := es[i := es[i].(policy := Some(policy), healthy := healthy)];
    assert r[i] == Entry(address, es[i].seen, Some(policy), healthy);
    forall f | f in r && f != r[i] ensures f in es && f.address != address {
      var k :| 0 <= k < |r| && r[k] == f;
      AddressesDiffer(es, i, k);
    }
    forall f | f in es && f.address != address ensures f in r {
      var k :| 0 <= k < |es| && es[k] == f;
      assert r[k] == f;
    }
  }

  /** A table is selective exactly once a policy message has come; until then every entry is a target. */
  lemma {:induction false} SelectiveIff(run: seq<Event>)
    requires PathsInRange(run)
    ensures After(run).selective <==> exists i :: 0 <= i < |run| && run[i].Apply?
    ensures !After(run).selective ==> forall p :: 0 <= p < 64 ==> After(run).sequences[p].None?
  {
    hide Observed, Pruned;
    if run != [] {
      SelectiveIff(run[..|run| - 1]);
      assert run[|run| - 1] in run;
    }
  }

  /** Failing a selection the answer goes to the last of the entries seen most recently. */
  lemma {:induction false} FallbackIsLast(es: seq<Entry>, k: nat)
    requires k < |es| && (forall i :: 0 <= i < |es| ==> es[i].seen <= es[k].seen)
    requires forall i :: k < i < |es| ==> es[i].seen < es[k].seen
    ensures Newest(es) == es[k]
  {
    if |es| > 1 && k > 0 {
      FallbackIsLast(es[1..], k - 1);
    }
  }
}
