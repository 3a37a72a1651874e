/** How far a duplicating decision goes: to a second endpoint, and as far as it takes to have two
    settled failure domains, but no farther. */
module Escalation {
  import opened Scheduler
  import opened PathChoice
  import opened SchedulerLaws

  lemma {:induction false} FindsBackup(paths: seq<Path>, h: seq<nat>, best: nat, quickest: real, k: nat)
    requires Indexes(paths, h) && best < |paths| && k < |h| && Backup(paths[best], paths[h[k]], quickest)
    ensures FindBackup(paths, h, best, quickest) <= k
  {
    if !Backup(paths[best], paths[h[0]], quickest) {
      FindsBackup(paths, h[1..], best, quickest, k - 1);
    }
  }

  /** The first two routes of an arranged order are always taken. */
  lemma FirstTwoTaken(paths: seq<Path>, a: seq<nat>, inc: seq<string>)
    requires Indexes(paths, a) && |a| >= 2
    ensures [a[0], a[1]] <= Chosen(paths, a, inc)
  {
    var quickest, independent := Quickest(paths, a), Independent(paths, a);
    hide Quickest, Independent, SettledCount, IdChosen, AddCarriers, UnsettledCarrier;
    assert a[1..][0] == a[1] && [] + [a[0]] == [a[0]] && [a[0]] + [a[1]] == [a[0], a[1]];
    assert Pick(paths, a, [], independent, quickest) == Pick(paths, a[1..], [a[0]], independent, quickest);
    assert Pick(paths, a[1..], [a[0]], independent, quickest) ==
           Pick(paths, a[1..][1..], [a[0], a[1]], independent, quickest);
    PickShape(paths, a[1..][1..], [a[0], a[1]], independent, quickest);
    CarriersExtend(paths, a, Pick(paths, a, [], independent, quickest), inc);
  }

  /** What a duplicating decision is made of. */
  lemma ManyIs(paths: seq<Path>, strategy: Strategy, inc: seq<string>)
    requires Choose(paths, strategy, inc).Many? && strategy != AllPaths
    ensures var h := Order(paths, false, inc);
            && |h| >= 2 && Indexes(paths, Arranged(paths, strategy, h))
            && |Arranged(paths, strategy, h)| == |h| && Arranged(paths, strategy, h)[0] == h[0]
            && Choose(paths, strategy, inc).indices == Chosen(paths, Arranged(paths, strategy, h), inc)
  {
    var h := Order(paths, false, inc);
    hide Order, Arranged, Chosen, ShouldDuplicate;
    ArrangedOk(paths, strategy, h);
  }

  lemma ArrangedElsewhere(paths: seq<Path>, h: seq<nat>, k: nat)
    requires Indexes(paths, h) && |h| >= 2 && k < |h| && Backup(paths[h[0]], paths[h[k]], Quickest(paths, h))
    ensures var a := Arranged(paths, Adaptive, h);
            Indexes(paths, a) && |a| >= 2 && !SharesEndpoint(paths[h[0]], paths[a[1]])
  {
    hide Quickest;
    ArrangedOk(paths, Adaptive, h);
    FindsBackup(paths, h, h[0], Quickest(paths, h), k);
  }

  /** A second server: when the Adaptive strategy duplicates and some healthy route that is not
      degraded is in budget at another endpoint than the best, the second route is at another
      endpoint. */
  lemma SecondEndpoint(paths: seq<Path>, inc: seq<string>, k: nat)
    requires Choose(paths, Adaptive, inc).Many? && k < |Order(paths, false, inc)|
    requires var h := Order(paths, false, inc); h[k] < |paths| && Backup(paths[h[0]], paths[h[k]], Quickest(paths, h))
    ensures var s := Choose(paths, Adaptive, inc).indices;
            |s| >= 2 && s[0] == Order(paths, false, inc)[0] && !SharesEndpoint(paths[s[0]], paths[s[1]])
  {
    hide Chosen, Choose, Order, Quickest, Arranged, Backup;
    var h := Order(paths, false, inc);
    ManyIs(paths, Adaptive, inc);
    FirstTwoTaken(paths, Arranged(paths, Adaptive, h), inc);
    ArrangedElsewhere(paths, h, k);
  }

  /** Picking stops only when there is enough or nothing suitable is left, and goes on only while
      there is not enough. */
  lemma {:induction false} PickStops(paths: seq<Path>, h: seq<nat>, chosen: seq<nat>, independent: bool, quickest: real)
    requires Indexes(paths, h) && Indexes(paths, chosen)
    ensures var r := Pick(paths, h, chosen, independent, quickest);
            && (Enough(paths, r, independent)
                || forall k :: 0 <= k < |h| && Within(paths[h[k]], quickest) && Settled(paths[h[k]]) ==> h[k] in r)
            && (forall k :: |chosen| <= k < |r| ==> Indexes(paths, r[..k]) && !Enough(paths, r[..k], independent))
    decreases |h|
  {
    hide Enough, Within, Settled;
    if h != [] && !Enough(paths, chosen, independent) {
      var skip := |chosen| >= 2 && (!Within(paths[h[0]], quickest) || !Settled(paths[h[0]]));
      var next := if skip then chosen else chosen + [h[0]];
      PickStops(paths, h[1..], next, independent, quickest);
      PickShape(paths, h[1..], next, independent, quickest);
      var r := Pick(paths, h, chosen, independent, quickest);
      assert next <= r;
      assert chosen == r[..|chosen|];
      assert !skip ==> r[|chosen|] == next[|chosen|] == h[0];
      assert forall k :: 0 < k < |h| ==> h[k] == h[1..][k - 1];
    }
  }

  /** The routes picked for an arranged order, before carriers are kept. */
  function Picked(paths: seq<Path>, a: seq<nat>): (r: seq<nat>)
    requires Indexes(paths, a) && |a| >= 2
    ensures Indexes(paths, r)
  {
    Pick(paths, a, [], Independent(paths, a), Quickest(paths, a))
  }

  lemma PickedIs(paths: seq<Path>, a: seq<nat>, inc: seq<string>)
    requires Indexes(paths, a) && |a| >= 2 && Distinct(a)
    ensures var r, s := Picked(paths, a), Chosen(paths, a, inc);
            && r <= s && |r| >= 2 && Distinct(r)
            && (!Independent(paths, a) ==> s == r && |r| == 2)
            && (forall k :: |r| <= k < |s| ==> UnsettledCarrier(paths[s[k]], inc))
  {
    hide Quickest, Independent, Pick, AddCarriers, UnsettledCarrier;
    var r := Picked(paths, a);
    PickShape(paths, a, [], Independent(paths, a), Quickest(paths, a));
    assert [] + a == a;
    CarriersExtend(paths, a, r, inc);
  }

  /** The first `n` routes of `s` are what it takes: they go past two only while they lack two settled
      failure domains and the healthy routes `h` have them; they stop short of two only when every
      settled route in budget is among them; and what follows are unsettled carriers. */
  ghost predicate Needed(paths: seq<Path>, h: seq<nat>, inc: seq<string>, s: seq<nat>, n: nat)
    requires Indexes(paths, h) && Indexes(paths, s) && h != []
  {
    && 2 <= n <= |s|
    && (|SettledDomains(paths, h)| < 2 ==> |s| == n == 2)
    && (|SettledDomains(paths, h)| >= 2 && |SettledDomains(paths, s[..n])| < 2 ==>
          forall k :: 0 <= k < |h| && Within(paths[h[k]], Quickest(paths, h)) && Settled(paths[h[k]]) ==>
              h[k] in s[..n])
    && (forall k :: 2 <= k < n ==> |SettledDomains(paths, s[..k])| < 2)
    && (forall k :: n <= k < |s| ==> UnsettledCarrier(paths[s[k]], inc))
  }

  /** Every duplicating decision goes as far as needed, and no farther. */
  lemma AsFarAsNeeded(paths: seq<Path>, strategy: Strategy, inc: seq<string>) returns (n: nat)
    requires Choose(paths, strategy, inc).Many? && strategy != AllPaths
    ensures Order(paths, false, inc) != []
    ensures Needed(paths, Order(paths, false, inc), inc, Choose(paths, strategy, inc).indices, n)
  {
    hide Order, Arranged, Choose, Chosen, Needed, Picked, InOrder, Quickest, Independent, SettledDomains;
    var h := Order(paths, false, inc);
    ManyIs(paths, strategy, inc);
    var a := Arranged(paths, strategy, h);
    OrderIs(paths, false, inc);
    ArrangedSame(paths, strategy, h);
    IndependentIffDomains(paths, strategy, inc);
    PickedIs(paths, a, inc);
    var r := Picked(paths, a);
    n := |r|;
    NeededOnly(paths, a, r);
    NeededFrom(paths, h, a, inc, Chosen(paths, a, inc), r);
  }

  lemma NeededFrom(paths: seq<Path>, h: seq<nat>, a: seq<nat>, inc: seq<string>, s: seq<nat>, r: seq<nat>)
    requires Indexes(paths, h) && Indexes(paths, a) && Indexes(paths, s) && h != [] && a != []
    requires (forall x :: x in a <==> x in h) && Quickest(paths, a) == Quickest(paths, h)
    requires Independent(paths, a) <==> |SettledDomains(paths, h)| >= 2
    requires r <= s && |r| >= 2 && (!Independent(paths, a) ==> s == r && |r| == 2)
    requires forall k :: |r| <= k < |s| ==> UnsettledCarrier(paths[s[k]], inc)
    requires Independent(paths, a) && |SettledDomains(paths, r)| < 2 ==>
               forall i <- a :: i < |paths| && Within(paths[i], Quickest(paths, a)) && Settled(paths[i]) ==> i in r
    requires forall k :: 2 <= k < |r| ==> Indexes(paths, r[..k]) && |SettledDomains(paths, r[..k])| < 2
    ensures Needed(paths, h, inc, s, |r|)
  {
    hide Quickest, Independent, SettledDomains, UnsettledCarrier, Within, Settled;
    var n := |r|;
    assert s[..n] == r;
    forall k | 2 <= k < n ensures s[..k] == r[..k] {
    }
    assert forall k :: 0 <= k < |h| ==> h[k] in a;
  }

  lemma NeededOnly(paths: seq<Path>, a: seq<nat>, r: seq<nat>)
    requires Indexes(paths, a) && |a| >= 2 && Distinct(a) && r == Picked(paths, a) && Distinct(r)
    ensures Independent(paths, a) && |SettledDomains(paths, r)| < 2 ==>
              forall i <- a :: i < |paths| && Within(paths[i], Quickest(paths, a)) && Settled(paths[i]) ==> i in r
    ensures forall k :: 2 <= k < |r| ==> Indexes(paths, r[..k]) && |SettledDomains(paths, r[..k])| < 2
  {
    hide Quickest, Pick, Within, Settled, SettledDomains, SettledCount, Independent;
    PickStops(paths, a, [], Independent(paths, a), Quickest(paths, a));
    SettledCountIsDomains(paths, r);
    forall k | 2 <= k < |r| ensures Indexes(paths, r[..k]) && |SettledDomains(paths, r[..k])| < 2 {
      SettledCountIsDomains(paths, r[..k]);
    }
  }
}
