/** When a decision duplicates, in the numbers of the routes themselves. */
module Duplication {
  import opened Scheduler
  import opened PathChoice
  import opened SchedulerLaws

  /** When a copy sent now is expected: latency and twice the jitter, or the last answer if that took
      longer. */
  function Arrival(p: Path): real
    requires p.last.Some?
  {
    var smoothed := p.latency + p.jitter + p.jitter;
    if p.last.value > smoothed then p.last.value else smoothed
  }

  predicate Measured(paths: seq<Path>, h: seq<nat>)
    requires Indexes(paths, h)
  {
    forall k :: 0 <= k < |h| ==> paths[h[k]].last.Some?
  }

  /** At most 100 ms behind every healthy route. */
  predicate InTime(paths: seq<Path>, h: seq<nat>, k: nat)
    requires Indexes(paths, h) && Measured(paths, h) && k < |h|
  {
    forall m :: 0 <= m < |h| ==> Arrival(paths[h[k]]) <= Arrival(paths[h[m]]) + 100.0
  }

  /** Half the probes lost, or answers scattered by 50 ms. */
  predicate Rough(p: Path) {
    p.loss >= 0.5 || p.jitter >= 50.0
  }

  /** A route that already carries traffic and has not proved itself again. */
  predicate Unproved(p: Path, inc: seq<string>) {
    p.id in inc && p.unsettled > 0
  }

  predicate Counts(paths: seq<Path>, h: seq<nat>, inc: seq<string>, k: nat)
    requires Indexes(paths, h) && Measured(paths, h) && k < |h|
  {
    InTime(paths, h, k) || Unproved(paths[h[k]], inc)
  }

  /** Two healthy routes are each in time or carry traffic unproved. */
  predicate TwoCount(paths: seq<Path>, h: seq<nat>, inc: seq<string>)
    requires Indexes(paths, h) && Measured(paths, h)
  {
    exists k, m :: 0 <= k < m < |h| && Counts(paths, h, inc, k) && Counts(paths, h, inc, m)
  }

  /** A second place for the best route's traffic at another endpoint. */
  predicate Elsewhere(paths: seq<Path>, h: seq<nat>, k: nat)
    requires Indexes(paths, h) && Measured(paths, h) && k < |h|
  {
    var best, p := paths[h[0]], paths[h[k]];
    && p.id != best.id && (best.endpoint.None? || p.endpoint != best.endpoint)
    && InTime(paths, h, k) && !Rough(p)
  }

  // ----- the measures of the program -----

  lemma OrderMeasured(paths: seq<Path>, inc: seq<string>)
    ensures Measured(paths, Order(paths, false, inc))
  {
    hide Order, Ranked;
    OrderIs(paths, false, inc);
    var h := Order(paths, false, inc);
    forall k | 0 <= k < |h| ensures paths[h[k]].last.Some? {
      assert h[k] in h;
    }
  }

  lemma WithinIs(paths: seq<Path>, h: seq<nat>, k: nat)
    requires Indexes(paths, h) && Measured(paths, h) && k < |h|
    ensures Within(paths[h[k]], Quickest(paths, h)) <==> InTime(paths, h, k)
  {
    hide Quickest;
    var q := Quickest(paths, h);
    forall m | 0 <= m < |h| ensures Delay(paths[h[m]]) == Arrival(paths[h[m]]) {
    }
    var least :| 0 <= least < |h| && q == Delay(paths[h[least]]);
  }

  lemma {:induction false} CountOne(paths: seq<Path>, h: seq<nat>, quickest: real, inc: seq<string>)
    requires Indexes(paths, h)
    ensures CountSuitable(paths, h, quickest, inc) >= 1 <==>
              exists k :: 0 <= k < |h| && Suits(paths, h, quickest, inc, k)
  {
    hide Within, UnsettledCarrier;
    if h != [] {
      var rest := h[1..];
      CountOne(paths, rest, quickest, inc);
      if k :| 0 <= k < |rest| && Suits(paths, rest, quickest, inc, k) {
        assert Suits(paths, h, quickest, inc, k + 1);
      }
      if k :| 0 < k < |h| && Suits(paths, h, quickest, inc, k) {
        assert Suits(paths, rest, quickest, inc, k - 1);
      }
      assert CountSuitable(paths, h, quickest, inc)
          == (if Suits(paths, h, quickest, inc, 0) then 1 else 0) + CountSuitable(paths, rest, quickest, inc);
    }
  }

  lemma {:induction false} CountIs(paths: seq<Path>, h: seq<nat>, quickest: real, inc: seq<string>)
    requires Indexes(paths, h)
    ensures CountSuitable(paths, h, quickest, inc) >= 2 <==>
              exists k, m :: 0 <= k < m < |h| && Suits(paths, h, quickest, inc, k) && Suits(paths, h, quickest, inc, m)
  {
    hide Within, UnsettledCarrier;
    if h != [] {
      var rest := h[1..];
      CountIs(paths, rest, quickest, inc);
      CountOne(paths, rest, quickest, inc);
      assert CountSuitable(paths, h, quickest, inc)
          == (if Suits(paths, h, quickest, inc, 0) then 1 else 0) + CountSuitable(paths, rest, quickest, inc);
      hide CountSuitable;
      forall k | 0 <= k < |rest| ensures Suits(paths, rest, quickest, inc, k) == Suits(paths, h, quickest, inc, k + 1) {
      }
      hide Suits;
      if k, m :| 0 <= k < m < |rest| && Suits(paths, rest, quickest, inc, k) && Suits(paths, rest, quickest, inc, m) {
        assert Suits(paths, h, quickest, inc, k + 1) && Suits(paths, h, quickest, inc, m + 1);
      }
      if k :| 0 <= k < |rest| && Suits(paths, rest, quickest, inc, k) {
        assert Suits(paths, h, quickest, inc, k + 1);
      }
      if k, m :| 0 <= k < m < |h| && Suits(paths, h, quickest, inc, k) && Suits(paths, h, quickest, inc, m) {
        assert Suits(paths, rest, quickest, inc, m - 1);
        assert k > 0 ==> Suits(paths, rest, quickest, inc, k - 1);
      }
    }
  }

  predicate Suits(paths: seq<Path>, h: seq<nat>, quickest: real, inc: seq<string>, k: nat)
    requires Indexes(paths, h) && k < |h|
  {
    Within(paths[h[k]], quickest) || UnsettledCarrier(paths[h[k]], inc)
  }

  lemma SuitsIs(paths: seq<Path>, h: seq<nat>, inc: seq<string>, k: nat)
    requires Indexes(paths, h) && Measured(paths, h) && k < |h|
    ensures Suits(paths, h, Quickest(paths, h), inc, k) <==> Counts(paths, h, inc, k)
  {
    hide Quickest, Within, InTime;
    WithinIs(paths, h, k);
  }

  /** The count does not depend on the order of the routes. */
  lemma TwoSuit(paths: seq<Path>, a: seq<nat>, h: seq<nat>, quickest: real, inc: seq<string>)
    requires Indexes(paths, a) && Indexes(paths, h) && Distinct(a) && Distinct(h) && forall x :: x in a <==> x in h
    requires exists k, m :: 0 <= k < m < |a| && Suits(paths, a, quickest, inc, k) && Suits(paths, a, quickest, inc, m)
    ensures exists k, m :: 0 <= k < m < |h| && Suits(paths, h, quickest, inc, k) && Suits(paths, h, quickest, inc, m)
  {
    hide Within, UnsettledCarrier;
    var k, m :| 0 <= k < m < |a| && Suits(paths, a, quickest, inc, k) && Suits(paths, a, quickest, inc, m);
    assert a[k] in h && a[m] in h;
    var i :| 0 <= i < |h| && h[i] == a[k];
    var j :| 0 <= j < |h| && h[j] == a[m];
    assert Suits(paths, h, quickest, inc, i) && Suits(paths, h, quickest, inc, j);
    if j < i {
      assert Suits(paths, h, quickest, inc, j) && Suits(paths, h, quickest, inc, i);
    }
  }

  lemma CountIsTwo(paths: seq<Path>, a: seq<nat>, h: seq<nat>, inc: seq<string>)
    requires Indexes(paths, a) && Indexes(paths, h) && Measured(paths, h) && h != [] && a != []
    requires Distinct(a) && Distinct(h) && forall x :: x in a <==> x in h
    ensures CountSuitable(paths, a, Quickest(paths, a), inc) >= 2 <==> TwoCount(paths, h, inc)
  {
    hide Quickest, CountSuitable, Suits, Counts, Distinct;
    SameQuickest(paths, a, h);
    var q := Quickest(paths, h);
    CountIs(paths, a, q, inc);
    CountIs(paths, h, q, inc);
    if CountSuitable(paths, a, q, inc) >= 2 {
      TwoSuit(paths, a, h, q, inc);
    }
    if CountSuitable(paths, h, q, inc) >= 2 {
      TwoSuit(paths, h, a, q, inc);
    }
    forall k | 0 <= k < |h| ensures Suits(paths, h, q, inc, k) <==> Counts(paths, h, inc, k) {
      SuitsIs(paths, h, inc, k);
    }
  }

  // ----- the decision -----

  predicate OneEndpoint(p: Path, q: Path) {
    p.endpoint.Some? && q.endpoint == p.endpoint
  }

  /** The first route of the order that is elsewhere, if there is one. */
  predicate FirstElsewhere(paths: seq<Path>, h: seq<nat>, k: nat)
    requires Indexes(paths, h) && Measured(paths, h) && k <= |h|
  {
    (forall m :: 0 <= m < k ==> !Elsewhere(paths, h, m)) && (k < |h| ==> Elsewhere(paths, h, k))
  }

  /** The second place: the first route of the order that is elsewhere, when Adaptive would otherwise
      put both copies on one endpoint and there is such a route; the runner-up in every other case. */
  lemma SecondPlace(paths: seq<Path>, strategy: Strategy, h: seq<nat>, k: nat)
    requires Indexes(paths, h) && Measured(paths, h) && |h| >= 2 && k <= |h| && FirstElsewhere(paths, h, k)
    ensures var a := Arranged(paths, strategy, h);
            |a| >= 2 && a[0] == h[0]
            && if strategy == Adaptive && OneEndpoint(paths[h[0]], paths[h[1]]) && k < |h| then a[1] == h[k] else a == h
  {
    hide Quickest, FindBackup, Elsewhere, Backup, FirstElsewhere;
    BackupsAre(paths, h, k);
  }

  lemma BackupsAre(paths: seq<Path>, h: seq<nat>, k: nat)
    requires Indexes(paths, h) && Measured(paths, h) && h != [] && k <= |h| && FirstElsewhere(paths, h, k)
    ensures FindBackup(paths, h, h[0], Quickest(paths, h)) == k > 0
  {
    hide Quickest, FindBackup, Elsewhere, Backup;
    var n := FindBackup(paths, h, h[0], Quickest(paths, h));
    FirstBackup(paths, h, h[0], Quickest(paths, h));
    if n < |h| {
      BackupIs(paths, h, n);
    }
    if k < |h| {
      BackupIs(paths, h, k);
    }
    NotItself(paths, h);
  }

  lemma BackupIs(paths: seq<Path>, h: seq<nat>, k: nat)
    requires Indexes(paths, h) && Measured(paths, h) && k < |h|
    ensures Backup(paths[h[0]], paths[h[k]], Quickest(paths, h)) <==> Elsewhere(paths, h, k)
  {
    hide Quickest, Within, InTime;
    WithinIs(paths, h, k);
  }

  lemma NotItself(paths: seq<Path>, h: seq<nat>)
    requires Indexes(paths, h) && Measured(paths, h) && h != []
    ensures !Elsewhere(paths, h, 0)
  {
  }

  lemma {:induction false} FirstBackup(paths: seq<Path>, h: seq<nat>, best: nat, quickest: real)
    requires Indexes(paths, h) && best < |paths|
    ensures forall k :: 0 <= k < FindBackup(paths, h, best, quickest) ==> !Backup(paths[best], paths[h[k]], quickest)
  {
    hide Backup;
    if h != [] && !Backup(paths[best], paths[h[0]], quickest) {
      FirstBackup(paths, h[1..], best, quickest);
      var n := FindBackup(paths, h[1..], best, quickest);
      forall k | 0 <= k < n + 1 ensures !Backup(paths[best], paths[h[k]], quickest) {
        if k > 0 {
          assert h[k] == h[1..][k - 1];
        }
      }
    }
  }

  /** When a decision duplicates. With two healthy routes the Duplicate strategy always does and the
      fastest path never; Adaptive does if and only if the two routes in front are not both rough and
      two routes are in time or carry traffic unproved. With fewer, none does. */
  lemma DuplicatesIff(paths: seq<Path>, strategy: Strategy, inc: seq<string>)
    requires strategy != AllPaths
    ensures var h := Order(paths, false, inc);
            && Measured(paths, h)
            && (|h| < 2 || strategy == FastestPath ==> !Choose(paths, strategy, inc).Many?)
            && (|h| >= 2 && strategy == Duplicate ==> Choose(paths, strategy, inc).Many?)
            && (|h| >= 2 && strategy == Adaptive ==>
                  var a := Arranged(paths, strategy, h);
                  && Indexes(paths, a) && |a| >= 2
                  && (Choose(paths, strategy, inc).Many? <==>
                        !(Rough(paths[a[0]]) && Rough(paths[a[1]])) && TwoCount(paths, h, inc)))
  {
    hide Order, Arranged, Chosen, CountSuitable, Quickest, TwoCount, InOrder, Measured;
    OrderMeasured(paths, inc);
    OrderIs(paths, false, inc);
    var h := Order(paths, false, inc);
    if |h| >= 2 {
      ArrangedOk(paths, strategy, h);
      ArrangedSame(paths, strategy, h);
      CountIsTwo(paths, Arranged(paths, strategy, h), h, inc);
    }
  }
}
