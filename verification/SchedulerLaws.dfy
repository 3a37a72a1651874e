/** Laws of the path choice: its shape, and that it stands when fed back as the incumbent. */
module SchedulerLaws {
  import opened Bytes
  import opened Scheduler
  import opened PathChoice

  ghost predicate Reasonable(paths: seq<Path>) {
    DistinctIds(paths) && forall p <- paths :: Sane(p)
  }

  predicate CanBeRanked(paths: seq<Path>, outage: bool, i: nat) {
    i < |paths| && Ranks(paths[i], outage)
  }

  /** Eligible, and ahead of every other eligible route. */
  ghost predicate Leader(paths: seq<Path>, outage: bool, inc: seq<string>, b: nat) {
    && CanBeRanked(paths, outage, b)
    && forall j :: CanBeRanked(paths, outage, j) && j != b ==> Ahead(paths, outage, inc, b, j)
  }

  lemma LeaderUnique(paths: seq<Path>, outage: bool, inc: seq<string>, b: nat, c: nat)
    requires Leader(paths, outage, inc, b) && Leader(paths, outage, inc, c)
    ensures b == c
  {
    hide Ranked;
  }

  /** Discounting lowers a rank, never raises one, and strictly lowers it for a sane route. */
  lemma Discount(p: Path, outage: bool, inc: seq<string>)
    requires Sane(p)
    ensures Ranked(p, outage, inc) <= Score(p, outage)
    ensures Held(p, inc) ==> Ranked(p, outage, inc) == Score(p, outage) - Margin(p) < Score(p, outage)
    ensures !Held(p, inc) ==> Ranked(p, outage, inc) == Score(p, outage)
  {
  }

  /** A route that is ahead stays ahead of a route that is not held, once it is itself held. */
  lemma StaysAhead(paths: seq<Path>, outage: bool, inc: seq<string>, held: seq<string>, i: nat, j: nat)
    requires i < |paths| && j < |paths| && Sane(paths[i]) && Sane(paths[j])
    requires Ahead(paths, outage, inc, i, j) && Held(paths[i], held) && !Held(paths[j], held)
    ensures Ahead(paths, outage, held, i, j)
  {
    Discount(paths[i], outage, inc);
    Discount(paths[j], outage, inc);
    Discount(paths[i], outage, held);
    Discount(paths[j], outage, held);
    hide Ranked, Score, Margin, Held;
  }

  lemma OnlyHeld(paths: seq<Path>, b: nat, j: nat)
    requires DistinctIds(paths) && b < |paths| && j < |paths| && j != b
    ensures Held(paths[b], [paths[b].id]) && !Held(paths[j], [paths[b].id])
  {
  }

  /** The leader, made the incumbent, leads. */
  lemma LeaderHolds(paths: seq<Path>, outage: bool, inc: seq<string>, b: nat)
    requires Reasonable(paths) && Leader(paths, outage, inc, b)
    ensures Leader(paths, outage, [paths[b].id], b)
  {
    hide Ahead, Held, Sane, DistinctIds;
    forall j: nat | CanBeRanked(paths, outage, j) && j != b ensures Ahead(paths, outage, [paths[b].id], b, j) {
      OnlyHeld(paths, b, j);
      assert paths[b] in paths && paths[j] in paths;
      StaysAhead(paths, outage, inc, [paths[b].id], b, j);
    }
  }

  lemma FirstLeads(paths: seq<Path>, outage: bool, inc: seq<string>)
    requires Order(paths, outage, inc) != []
    ensures Leader(paths, outage, inc, Order(paths, outage, inc)[0])
  {
    hide Order, Ahead;
    OrderIs(paths, outage, inc);
    var o := Order(paths, outage, inc);
    assert o[0] in o;
    forall j | CanBeRanked(paths, outage, j) && j != o[0] ensures Ahead(paths, outage, inc, o[0], j) {
      assert j in o;
      var k :| 0 <= k < |o| && o[k] == j;
    }
  }

  lemma {:induction false} MinByLeads(paths: seq<Path>, inc: seq<string>, s: seq<nat>)
    requires Indexes(paths, s) && s != [] && Increasing(s)
    ensures MinBy(paths, inc, s) < |paths|
    ensures forall j :: 0 <= j < |s| && s[j] != MinBy(paths, inc, s) ==>
              Ahead(paths, true, inc, MinBy(paths, inc, s), s[j])
  {
    hide Ranked;
    MinByOk(paths, inc, s);
    if |s| > 1 {
      var init := s[..|s| - 1];
      MinByLeads(paths, inc, init);
      assert forall j :: 0 <= j < |init| ==> s[j] == init[j];
      var best := MinBy(paths, inc, init);
      var k :| 0 <= k < |init| && init[k] == best;
    }
  }

  lemma LastResortLeads(paths: seq<Path>, inc: seq<string>)
    requires Eligible(paths, true, 0) != []
    ensures Leader(paths, true, inc, MinBy(paths, inc, Eligible(paths, true, 0)))
  {
    hide MinBy, Ahead, Eligible;
    var measured := Eligible(paths, true, 0);
    EligibleIncreases(paths, true, 0);
    MinByLeads(paths, inc, measured);
    forall j | CanBeRanked(paths, true, j) && j != MinBy(paths, inc, measured)
      ensures Ahead(paths, true, inc, MinBy(paths, inc, measured), j)
    {
      var k :| 0 <= k < |measured| && measured[k] == j;
    }
  }

  lemma SameEligible(paths: seq<Path>, inc: seq<string>, inc': seq<string>)
    ensures |Order(paths, false, inc)| == |Order(paths, false, inc')|
    ensures forall i :: i in Order(paths, false, inc) <==> i in Order(paths, false, inc')
  {
    hide Order;
    OrderIs(paths, false, inc);
    OrderIs(paths, false, inc');
  }

  /** The fastest path stands: chosen once, it is chosen again, ties and margins included. */
  lemma FastestStands(paths: seq<Path>, inc: seq<string>)
    requires Reasonable(paths)
    ensures var d := Decide(paths, FastestPath, inc);
            d.Single? ==> Decide(paths, FastestPath, [d.id]) == d
  {
    hide Order, MinBy, Eligible, Leader, Reasonable;
    var h := Order(paths, false, inc);
    if h == [] {
      OutageStands(paths, FastestPath, inc);
    } else {
      var held := [paths[h[0]].id];
      FirstLeads(paths, false, inc);
      LeaderHolds(paths, false, inc, h[0]);
      SameEligible(paths, inc, held);
      FirstLeads(paths, false, held);
      LeaderUnique(paths, false, held, h[0], Order(paths, false, held)[0]);
    }
  }

  /** The route armed through a total outage stands, under every strategy. */
  lemma OutageStands(paths: seq<Path>, strategy: Strategy, inc: seq<string>)
    requires Reasonable(paths) && Order(paths, false, inc) == []
    ensures var d := Decide(paths, strategy, inc);
            !d.Several? && (d.Single? ==> Decide(paths, strategy, [d.id]) == d)
  {
    hide Order, MinBy, Eligible, Leader, Reasonable;
    var measured := Eligible(paths, true, 0);
    if measured != [] {
      MinByOk(paths, inc, measured);
      var b := MinBy(paths, inc, measured);
      var held := [paths[b].id];
      LastResortLeads(paths, inc);
      LeaderHolds(paths, true, inc, b);
      SameEligible(paths, inc, held);
      LastResortLeads(paths, held);
      LeaderUnique(paths, true, held, b, MinBy(paths, held, measured));
    }
  }

  // ----- shape -----

  lemma {:induction false} PickShape(paths: seq<Path>, h: seq<nat>, chosen: seq<nat>, independent: bool, quickest: real)
    requires Indexes(paths, h) && Indexes(paths, chosen)
    ensures var r := Pick(paths, h, chosen, independent, quickest);
            && chosen <= r
            && (forall k :: |chosen| <= k < |r| ==> r[k] in h)
            && (forall k :: 2 <= k < |r| && |chosen| <= k ==> Settled(paths[r[k]]) && Within(paths[r[k]], quickest))
            && (!independent && |chosen| <= 2 ==> |r| <= 2)
            && |r| >= Min(2, |chosen| + |h|)
            && (Distinct(chosen + h) ==> Distinct(r))
    decreases |h|
  {
    hide SettledCount, Within, Settled;
    if h == [] || Enough(paths, chosen, independent) {
      assert Distinct(chosen + h) ==> Distinct(chosen) by { DistinctPrefix(chosen, h); }
    } else if |chosen| >= 2 && (!Within(paths[h[0]], quickest) || !Settled(paths[h[0]])) {
      PickShape(paths, h[1..], chosen, independent, quickest);
      DistinctSkip(chosen, h);
    } else {
      PickShape(paths, h[1..], chosen + [h[0]], independent, quickest);
      assert chosen + [h[0]] + h[1..] == chosen + h;
      PickStep(paths, h, chosen, Pick(paths, h[1..], chosen + [h[0]], independent, quickest));
    }
  }

  lemma PickStep(paths: seq<Path>, h: seq<nat>, chosen: seq<nat>, r: seq<nat>)
    requires h != [] && chosen + [h[0]] <= r && forall k :: |chosen| + 1 <= k < |r| ==> r[k] in h[1..]
    ensures chosen <= r && forall k :: |chosen| <= k < |r| ==> r[k] in h
  {
    assert r[|chosen|] == h[0];
    forall k | |chosen| <= k < |r| ensures r[k] in h {
      if k > |chosen| {
        assert r[k] in h[1..];
      }
    }
  }

  lemma DistinctPrefix(p: seq<nat>, q: seq<nat>)
    ensures Distinct(p + q) ==> Distinct(p)
  {
    assert forall i :: 0 <= i < |p| ==> (p + q)[i] == p[i];
  }

  lemma DistinctSkip(p: seq<nat>, q: seq<nat>)
    requires q != []
    ensures Distinct(p + q) ==> Distinct(p + q[1..])
  {
    var a, b := p + q, p + q[1..];
    if Distinct(a) {
      forall i, j | 0 <= i < j < |b| ensures b[i] != b[j] {
        assert b[i] == a[if i < |p| then i else i + 1] && b[j] == a[if j < |p| then j else j + 1];
      }
    }
  }

  function NextChosen(paths: seq<Path>, i: nat, chosen: seq<nat>, inc: seq<string>): (n: seq<nat>)
    requires i < |paths| && Indexes(paths, chosen)
    ensures Indexes(paths, n)
  {
    if UnsettledCarrier(paths[i], inc) && !IdChosen(paths, chosen, paths[i].id) then chosen + [i] else chosen
  }

  lemma {:induction false} CarriersExtend(paths: seq<Path>, h: seq<nat>, chosen: seq<nat>, inc: seq<string>)
    requires Indexes(paths, h) && Indexes(paths, chosen)
    ensures var r := AddCarriers(paths, h, chosen, inc);
            && chosen <= r
            && (forall k :: |chosen| <= k < |r| ==> r[k] in h && UnsettledCarrier(paths[r[k]], inc))
    decreases |h|
  {
    hide UnsettledCarrier, IdChosen;
    if h != [] {
      var next := NextChosen(paths, h[0], chosen, inc);
      CarriersExtend(paths, h[1..], next, inc);
      var r := AddCarriers(paths, h[1..], next, inc);
      assert forall k :: |next| <= k < |r| ==> r[k] in h[1..];
      assert |next| > |chosen| ==> r[|chosen|] == next[|chosen|];
    }
  }

  lemma {:induction false} CarriersDistinct(paths: seq<Path>, h: seq<nat>, chosen: seq<nat>, inc: seq<string>)
    requires Indexes(paths, h) && Indexes(paths, chosen) && Distinct(chosen)
    ensures Distinct(AddCarriers(paths, h, chosen, inc))
    decreases |h|
  {
    hide UnsettledCarrier, IdChosen, Distinct;
    if h != [] {
      var next := NextChosen(paths, h[0], chosen, inc);
      if next != chosen {
        NewIndex(paths, chosen, h[0]);
      }
      CarriersDistinct(paths, h[1..], next, inc);
    }
  }

  /** No unsettled carrier is left behind. */
  lemma {:induction false} CarriersKept(paths: seq<Path>, h: seq<nat>, chosen: seq<nat>, inc: seq<string>, k: nat)
    requires Indexes(paths, h) && Indexes(paths, chosen) && k < |h| && UnsettledCarrier(paths[h[k]], inc)
    ensures IdChosen(paths, AddCarriers(paths, h, chosen, inc), paths[h[k]].id)
    decreases |h|
  {
    hide UnsettledCarrier, IdChosen;
    var next := NextChosen(paths, h[0], chosen, inc);
    if k > 0 {
      CarriersKept(paths, h[1..], next, inc, k - 1);
    } else {
      CarriersExtend(paths, h[1..], next, inc);
      LastIdChosen(paths, chosen, h[0]);
      IdStays(paths, next, AddCarriers(paths, h[1..], next, inc), paths[h[0]].id);
    }
  }

  lemma LastIdChosen(paths: seq<Path>, chosen: seq<nat>, i: nat)
    requires Indexes(paths, chosen) && i < |paths|
    ensures Indexes(paths, chosen + [i]) && IdChosen(paths, chosen + [i], paths[i].id)
  {
    assert (chosen + [i])[|chosen|] == i;
  }

  lemma NewIndex(paths: seq<Path>, chosen: seq<nat>, i: nat)
    requires Indexes(paths, chosen) && i < |paths| && !IdChosen(paths, chosen, paths[i].id)
    ensures Distinct(chosen) ==> Distinct(chosen + [i])
  {
    assert forall k :: 0 <= k < |chosen| ==> chosen[k] != i;
  }

  lemma IdStays(paths: seq<Path>, p: seq<nat>, r: seq<nat>, id: string)
    requires Indexes(paths, p) && Indexes(paths, r) && p <= r && IdChosen(paths, p, id)
    ensures IdChosen(paths, r, id)
  {
    var k :| 0 <= k < |p| && paths[p[k]].id == id;
    assert paths[r[k]].id == id;
  }

  lemma ArrangedSame(paths: seq<Path>, strategy: Strategy, h: seq<nat>)
    requires Indexes(paths, h) && |h| >= 2
    ensures var a := Arranged(paths, strategy, h);
            |a| == |h| && (forall x :: x in a <==> x in h) && (Distinct(h) ==> Distinct(a))
  {
    hide FindBackup, Quickest, SharesEndpoint;
    var k := FindBackup(paths, h, h[0], Quickest(paths, h));
    if 0 < k < |h| {
      PromotedSame(h, k);
    }
  }

  lemma PromotedSame(h: seq<nat>, k: nat)
    requires 0 < k < |h|
    ensures var a := Promoted(h, k);
            |a| == |h| && (forall x :: x in a <==> x in h) && (Distinct(h) ==> Distinct(a))
  {
    var a := Promoted(h, k);
    forall i | 0 <= i < |h|
      ensures a[if i == 0 then 0 else if i < k then i + 1 else if i == k then 1 else i] == h[i]
    {
    }
    forall x | x in h ensures x in a {
      var i :| 0 <= i < |h| && h[i] == x;
      assert a[if i == 0 then 0 else if i < k then i + 1 else if i == k then 1 else i] == x;
    }
    forall i | 0 <= i < |a| ensures a[i] == h[if i == 0 then 0 else if i == 1 then k else if i <= k then i - 1 else i] {
    }
  }

  /** A choice of several from the routes `a`, in the words of the design. */
  ghost predicate WellShaped(paths: seq<Path>, a: seq<nat>, inc: seq<string>, s: seq<nat>)
    requires Indexes(paths, a) && Indexes(paths, s) && a != []
  {
    && |s| >= 2 && Distinct(s) && (forall i <- s :: i in a)
    && (!Independent(paths, a) ==> |s| == 2)
    && (Independent(paths, a) ==>
          && (forall k :: 2 <= k < |s| ==>
                (Settled(paths[s[k]]) && Within(paths[s[k]], Quickest(paths, a))) || UnsettledCarrier(paths[s[k]], inc))
          && (forall i <- a :: i < |paths| && UnsettledCarrier(paths[i], inc) ==> i in s))
  }

  lemma ChosenShape(paths: seq<Path>, a: seq<nat>, inc: seq<string>)
    requires DistinctIds(paths) && Indexes(paths, a) && |a| >= 2 && Distinct(a)
    ensures WellShaped(paths, a, inc, Chosen(paths, a, inc))
  {
    hide SettledCount, Quickest, Pick, AddCarriers, Within, UnsettledCarrier, Settled;
    var independent, quickest := Independent(paths, a), Quickest(paths, a);
    PickShape(paths, a, [], independent, quickest);
    assert [] + a == a;
    var picked := Pick(paths, a, [], independent, quickest);
    assert forall k :: 0 <= k < |picked| ==> picked[k] in a;
    if independent {
      WithCarriersShape(paths, a, inc, picked, quickest);
    }
  }

  lemma WithCarriersShape(paths: seq<Path>, a: seq<nat>, inc: seq<string>, picked: seq<nat>, quickest: real)
    requires DistinctIds(paths) && Indexes(paths, a) && Indexes(paths, picked) && Distinct(picked)
    requires forall k :: 0 <= k < |picked| ==> picked[k] in a
    requires forall k :: 2 <= k < |picked| ==> Settled(paths[picked[k]]) && Within(paths[picked[k]], quickest)
    ensures var s := AddCarriers(paths, a, picked, inc);
            && picked <= s && Distinct(s) && (forall i <- s :: i in a)
            && (forall k :: 2 <= k < |s| ==>
                  (Settled(paths[s[k]]) && Within(paths[s[k]], quickest)) || UnsettledCarrier(paths[s[k]], inc))
            && (forall i <- a :: i < |paths| && UnsettledCarrier(paths[i], inc) ==> i in s)
  {
    hide AddCarriers, Within, UnsettledCarrier, Settled, Distinct, IdChosen;
    var s := AddCarriers(paths, a, picked, inc);
    CarriersExtend(paths, a, picked, inc);
    CarriersDistinct(paths, a, picked, inc);
    assert forall k :: 0 <= k < |picked| ==> s[k] == picked[k];
    forall i | i in a && i < |paths| && UnsettledCarrier(paths[i], inc) ensures i in s {
      var k :| 0 <= k < |a| && a[k] == i;
      CarriersKept(paths, a, picked, inc, k);
      SameIndex(paths, s, i);
    }
  }

  lemma SameIndex(paths: seq<Path>, s: seq<nat>, i: nat)
    requires DistinctIds(paths) && Indexes(paths, s) && i < |paths| && IdChosen(paths, s, paths[i].id)
    ensures i in s
  {
    var m :| 0 <= m < |s| && paths[s[m]].id == paths[i].id;
    assert s[m] == i;
  }

  /** The shape of every decision. */
  lemma Shape(paths: seq<Path>, strategy: Strategy, inc: seq<string>)
    requires DistinctIds(paths)
    ensures var c, h := Choose(paths, strategy, inc), Order(paths, false, inc);
            && (c.Nothing? ==> forall p <- paths :: p.last.None?)
            && (c.One? ==> CanBeRanked(paths, h == [], c.index))
            && (c.Many? ==> h != [] && forall k :: 0 <= k < |c.indices| ==> Healthy(paths[c.indices[k]]))
            && (c.Many? && strategy == AllPaths ==> c.indices == h)
            && (c.Many? && strategy != AllPaths ==>
                  strategy != FastestPath && |h| >= 2
                  && Indexes(paths, Arranged(paths, strategy, h)) && Arranged(paths, strategy, h) != []
                  && WellShaped(paths, Arranged(paths, strategy, h), inc, c.indices))
  {
    hide Order, Eligible, MinBy, Chosen, ShouldDuplicate, WellShaped, Arranged;
    var h := Order(paths, false, inc);
    OrderIs(paths, false, inc);
    assert forall k :: 0 <= k < |h| ==> h[k] in h;
    if h == [] {
      var measured := Eligible(paths, true, 0);
      if measured == [] {
        forall p | p in paths ensures p.last.None? {
          var i :| 0 <= i < |paths| && paths[i] == p;
          assert i !in measured;
        }
      }
    } else if |h| >= 2 && strategy != AllPaths && strategy != FastestPath {
      ArrangedOk(paths, strategy, h);
      ArrangedSame(paths, strategy, h);
      var a := Arranged(paths, strategy, h);
      ChosenShape(paths, a, inc);
      ShapedFrom(paths, a, inc, Chosen(paths, a, inc), h);
    }
  }

  lemma ShapedFrom(paths: seq<Path>, a: seq<nat>, inc: seq<string>, s: seq<nat>, h: seq<nat>)
    requires Indexes(paths, a) && Indexes(paths, s) && a != [] && WellShaped(paths, a, inc, s)
    requires forall x :: x in a <==> x in h
    ensures forall k :: 0 <= k < |s| ==> s[k] in h
  {
    forall k | 0 <= k < |s| ensures s[k] in h {
      assert s[k] in s;
    }
  }

  // ----- failure domains -----

  datatype Domain = Shared(endpoint: nat) | Own(index: nat)

  /** Routes with the same known endpoint fail together; any other route fails by itself. */
  function DomainOf(paths: seq<Path>, i: nat): Domain
    requires i < |paths|
  {
    if paths[i].endpoint.Some? then Shared(paths[i].endpoint.value) else Own(i)
  }

  ghost function SettledDomains(paths: seq<Path>, s: seq<nat>): set<Domain>
    requires Indexes(paths, s)
  {
    set k | 0 <= k < |s| && Settled(paths[s[k]]) :: DomainOf(paths, s[k])
  }

  /** The count counts failure domains, whatever the order of the routes. */
  lemma {:induction false} SettledCountIsDomains(paths: seq<Path>, s: seq<nat>)
    requires Indexes(paths, s) && Distinct(s)
    ensures SettledCount(paths, s) == |SettledDomains(paths, s)|
  {
    if s == [] {
      assert SettledDomains(paths, s) == {};
    } else {
      hide Settled, SettledCount, NewDomain, DomainOf, SettledDomains;
      var init, last := s[..|s| - 1], s[|s| - 1];
      SettledCountIsDomains(paths, init);
      SettledCountLast(paths, s);
      DomainsLast(paths, s);
      if Settled(paths[last]) {
        NewDomainIff(paths, init, last);
        assert DomainOf(paths, last) in SettledDomains(paths, init) ==>
               SettledDomains(paths, s) == SettledDomains(paths, init);
      } else {
        assert SettledDomains(paths, s) == SettledDomains(paths, init);
      }
    }
  }

  lemma DomainsLast(paths: seq<Path>, s: seq<nat>)
    requires Indexes(paths, s) && s != []
    ensures var init, last := s[..|s| - 1], s[|s| - 1];
            SettledDomains(paths, s)
            == SettledDomains(paths, init) + if Settled(paths[last]) then {DomainOf(paths, last)} else {}
  {
    hide Settled, DomainOf;
    var init, last := s[..|s| - 1], s[|s| - 1];
    assert forall k :: 0 <= k < |init| ==> s[k] == init[k];
    forall d | d in SettledDomains(paths, s)
      ensures d in SettledDomains(paths, init) || (Settled(paths[last]) && d == DomainOf(paths, last))
    {
      var k :| 0 <= k < |s| && Settled(paths[s[k]]) && DomainOf(paths, s[k]) == d;
      assert k < |init| ==> init[k] == s[k];
    }
    forall d | d in SettledDomains(paths, init) ensures d in SettledDomains(paths, s) {
      var k :| 0 <= k < |init| && Settled(paths[init[k]]) && DomainOf(paths, init[k]) == d;
      assert s[k] == init[k];
    }
    if Settled(paths[last]) {
      assert DomainOf(paths, s[|s| - 1]) in SettledDomains(paths, s);
    }
  }

  lemma SettledCountLast(paths: seq<Path>, s: seq<nat>)
    requires Indexes(paths, s) && s != []
    ensures SettledCount(paths, s)
         == SettledCount(paths, s[..|s| - 1]) + if NewDomain(paths, s[..|s| - 1], s[|s| - 1]) then 1 else 0
    ensures NewDomain(paths, s[..|s| - 1], s[|s| - 1]) ==> Settled(paths[s[|s| - 1]])
  {
  }

  lemma NewDomainIff(paths: seq<Path>, earlier: seq<nat>, i: nat)
    requires Indexes(paths, earlier) && i < |paths| && Settled(paths[i]) && i !in earlier
    ensures NewDomain(paths, earlier, i) <==> DomainOf(paths, i) !in SettledDomains(paths, earlier)
  {
    hide Settled;
    var d := DomainOf(paths, i);
    if d in SettledDomains(paths, earlier) {
      var k :| 0 <= k < |earlier| && Settled(paths[earlier[k]]) && DomainOf(paths, earlier[k]) == d;
      assert earlier[k] != i;
      assert SharesEndpoint(paths[i], paths[earlier[k]]);
    }
    forall k | 0 <= k < |earlier| && Settled(paths[earlier[k]]) && SharesEndpoint(paths[i], paths[earlier[k]])
      ensures d in SettledDomains(paths, earlier)
    {
      assert DomainOf(paths, earlier[k]) == d;
    }
  }

  /** The count does not depend on the order. */
  lemma SameDomains(paths: seq<Path>, s: seq<nat>, t: seq<nat>)
    requires Indexes(paths, s) && Indexes(paths, t) && Distinct(s) && Distinct(t) && forall x :: x in s <==> x in t
    ensures SettledCount(paths, s) == SettledCount(paths, t)
  {
    hide SettledCount, DomainOf, Settled, Distinct;
    SettledCountIsDomains(paths, s);
    SettledCountIsDomains(paths, t);
    DomainsWithin(paths, s, t);
    DomainsWithin(paths, t, s);
    assert SettledDomains(paths, s) == SettledDomains(paths, t);
  }

  lemma DomainsWithin(paths: seq<Path>, s: seq<nat>, t: seq<nat>)
    requires Indexes(paths, s) && Indexes(paths, t) && forall x :: x in s ==> x in t
    ensures SettledDomains(paths, s) <= SettledDomains(paths, t)
  {
    hide DomainOf, Settled;
    forall d | d in SettledDomains(paths, s) ensures d in SettledDomains(paths, t) {
      var k :| 0 <= k < |s| && Settled(paths[s[k]]) && DomainOf(paths, s[k]) == d;
      assert s[k] in t;
      var m :| 0 <= m < |t| && t[m] == s[k];
      assert DomainOf(paths, t[m]) == d;
    }
  }

  /** Expansion beyond two is allowed exactly when the healthy routes span two settled domains. */
  lemma IndependentIffDomains(paths: seq<Path>, strategy: Strategy, inc: seq<string>)
    requires |Order(paths, false, inc)| >= 2
    ensures var h := Order(paths, false, inc);
            var a := Arranged(paths, strategy, h);
            && Indexes(paths, a) && a != [] && Quickest(paths, a) == Quickest(paths, h)
            && (Independent(paths, a) <==> |SettledDomains(paths, h)| >= 2)
  {
    hide Order, Arranged, Quickest, SettledCount, SettledDomains, Distinct;
    var h := Order(paths, false, inc);
    OrderIs(paths, false, inc);
    ArrangedOk(paths, strategy, h);
    ArrangedSame(paths, strategy, h);
    var a := Arranged(paths, strategy, h);
    SameDomains(paths, a, h);
    SettledCountIsDomains(paths, h);
    SameQuickest(paths, a, h);
  }

  // ----- duplication stands -----

  /** Nothing has misbehaved lately, and every healthy route fails by itself. */
  ghost predicate AllIndependent(paths: seq<Path>) {
    && (forall i :: 0 <= i < |paths| && Healthy(paths[i]) ==> Settled(paths[i]))
    && (forall i, j :: 0 <= i < j < |paths| && Healthy(paths[i]) && Healthy(paths[j]) ==>
          !SharesEndpoint(paths[i], paths[j]))
  }

  /** The first two of `h`, when all of `h` is settled and endpoints are not shared. */
  lemma TopTwoChosen(paths: seq<Path>, h: seq<nat>, inc: seq<string>)
    requires Indexes(paths, h) && |h| >= 2 && Distinct(h)
    requires forall k :: 0 <= k < |h| ==> Settled(paths[h[k]])
    requires forall k, m :: 0 <= k < |h| && 0 <= m < |h| && k != m ==> !SharesEndpoint(paths[h[k]], paths[h[m]])
    ensures Chosen(paths, h, inc) == [h[0], h[1]]
  {
    var quickest := Quickest(paths, h);
    hide Quickest, Settled, SharesEndpoint, UnsettledCarrier, IdChosen, AddCarriers, SettledCount;
    TwoDomains(paths, h[0], h[1]);
    MoreDomains(paths, h);
    var two := [h[0], h[1]];
    assert [] + [h[0]] == [h[0]] && [h[0]] + [h[1]] == two;
    assert h[1..][0] == h[1];
    assert Pick(paths, h[1..][1..], two, true, quickest) == two;
    assert Pick(paths, h[1..], [h[0]], true, quickest) == two;
    assert Pick(paths, h, [], true, quickest) == two;
    NoCarriers(paths, h, two, inc);
  }

  lemma TwoDomains(paths: seq<Path>, i: nat, j: nat)
    requires i < |paths| && j < |paths| && Settled(paths[i]) && Settled(paths[j]) && !SharesEndpoint(paths[j], paths[i])
    ensures SettledCount(paths, [i, j]) == 2
  {
    hide Settled, SharesEndpoint;
    SettledCountLast(paths, [i, j]);
    assert [i, j][..1] == [i];
    SettledCountLast(paths, [i]);
    assert [i][..0] == [];
  }

  lemma {:induction false} MoreDomains(paths: seq<Path>, h: seq<nat>)
    requires Indexes(paths, h) && |h| >= 2
    ensures SettledCount(paths, h) >= SettledCount(paths, [h[0], h[1]])
  {
    hide NewDomain, SettledCount;
    if |h| == 2 {
      assert h == [h[0], h[1]];
    } else {
      MoreDomains(paths, h[..|h| - 1]);
      SettledCountLast(paths, h);
    }
  }

  lemma {:induction false} NoCarriers(paths: seq<Path>, h: seq<nat>, chosen: seq<nat>, inc: seq<string>)
    requires Indexes(paths, h) && Indexes(paths, chosen) && forall k :: 0 <= k < |h| ==> Settled(paths[h[k]])
    ensures AddCarriers(paths, h, chosen, inc) == chosen
    decreases |h|
  {
    if h != [] {
      NoCarriers(paths, h[1..], chosen, inc);
    }
  }

  /** The two routes ahead of all others, made the incumbents, are ahead of all others. */
  lemma TopTwoHold(paths: seq<Path>, inc: seq<string>)
    requires Reasonable(paths) && |Order(paths, false, inc)| >= 2
    ensures var h := Order(paths, false, inc);
            var h' := Order(paths, false, Ids(paths, [h[0], h[1]]));
            |h'| == |h| && {h'[0], h'[1]} == {h[0], h[1]}
  {
    hide Order, Ahead, Reasonable, Held, Ids;
    var h := Order(paths, false, inc);
    var held := Ids(paths, [h[0], h[1]]);
    var h' := Order(paths, false, held);
    OrderIs(paths, false, inc);
    OrderIs(paths, false, held);
    SameEligible(paths, inc, held);
    forall x, y | x in {h[0], h[1]} && y in h' && y !in {h[0], h[1]}
      ensures x < |paths| && y < |paths| && Ahead(paths, false, held, x, y)
    {
      assert y in h;
      var k :| 0 <= k < |h| && h[k] == y;
      assert Ahead(paths, false, inc, x, y);
      HeldPair(paths, h[0], h[1], x, y);
      StaysAhead(paths, false, inc, held, x, y);
    }
    assert h[0] in h && h[1] in h;
    FirstTwoAre(paths, held, h', h[0], h[1]);
  }

  lemma HeldPair(paths: seq<Path>, a: nat, b: nat, x: nat, y: nat)
    requires Reasonable(paths) && a < |paths| && b < |paths| && x in {a, b} && y < |paths| && y !in {a, b}
    ensures var held := Ids(paths, [a, b]); Held(paths[x], held) && !Held(paths[y], held)
    ensures Sane(paths[x]) && Sane(paths[y])
  {
    var held := Ids(paths, [a, b]);
    assert held == [paths[a].id, paths[b].id];
    assert paths[x] in paths && paths[y] in paths;
  }

  /** Nothing outside a pair that comes first can precede one of the pair. */
  lemma NoneBefore(paths: seq<Path>, inc: seq<string>, s: seq<nat>, a: nat, b: nat, p: nat, k: nat)
    requires Indexes(paths, s) && InOrder(paths, false, inc, s) && p <= k < |s| && s[k] in {a, b}
    requires forall x, y :: x in {a, b} && y in s && y !in {a, b} ==>
                              x < |paths| && y < |paths| && Ahead(paths, false, inc, x, y)
    ensures s[p] in {a, b}
  {
    hide Ranked;
    if p < k {
      assert Ahead(paths, false, inc, s[p], s[k]);
      assert !Ahead(paths, false, inc, s[k], s[p]);
    }
  }

  lemma FirstTwoAre(paths: seq<Path>, inc: seq<string>, s: seq<nat>, a: nat, b: nat)
    requires Indexes(paths, s) && |s| >= 2 && InOrder(paths, false, inc, s) && a in s && b in s && a != b
    requires forall x, y :: x in {a, b} && y in s && y !in {a, b} ==>
                              x < |paths| && y < |paths| && Ahead(paths, false, inc, x, y)
    ensures {s[0], s[1]} == {a, b}
  {
    hide Ranked;
    var i :| 0 <= i < |s| && s[i] == a;
    var j :| 0 <= j < |s| && s[j] == b;
    NoneBefore(paths, inc, s, a, b, 0, i);
    var late := if s[0] == a then b else a;
    var k := if s[0] == a then j else i;
    assert s[k] == late && late in {a, b};
    NoneBefore(paths, inc, s, a, b, 1, k);
    assert Ahead(paths, false, inc, s[0], s[1]);
  }

  lemma SameQuickest(paths: seq<Path>, s: seq<nat>, t: seq<nat>)
    requires Indexes(paths, s) && Indexes(paths, t) && s != [] && t != [] && forall x :: x in s <==> x in t
    ensures Quickest(paths, s) == Quickest(paths, t)
  {
    hide Quickest, Delay;
    var i :| 0 <= i < |s| && Quickest(paths, s) == Delay(paths[s[i]]);
    var j :| 0 <= j < |t| && Quickest(paths, t) == Delay(paths[t[j]]);
    assert s[i] in t && t[j] in s;
  }

  ghost function SuitableSet(paths: seq<Path>, h: seq<nat>, quickest: real): set<nat>
    requires Indexes(paths, h)
  {
    set k | 0 <= k < |h| && Within(paths[h[k]], quickest) :: h[k]
  }

  lemma {:induction false} SuitableIsSet(paths: seq<Path>, h: seq<nat>, quickest: real, inc: seq<string>)
    requires Indexes(paths, h) && Distinct(h) && forall k :: 0 <= k < |h| ==> Settled(paths[h[k]])
    ensures CountSuitable(paths, h, quickest, inc) == |SuitableSet(paths, h, quickest)|
  {
    hide Within;
    if h == [] {
      assert SuitableSet(paths, h, quickest) == {};
    } else {
      SuitableIsSet(paths, h[1..], quickest, inc);
      var rest := SuitableSet(paths, h[1..], quickest);
      assert h[0] !in rest;
      assert SuitableSet(paths, h, quickest) == rest + if Within(paths[h[0]], quickest) then {h[0]} else {} by {
        SuitableFirst(paths, h, quickest);
      }
    }
  }

  lemma SuitableFirst(paths: seq<Path>, h: seq<nat>, quickest: real)
    requires Indexes(paths, h) && h != []
    ensures SuitableSet(paths, h, quickest)
         == SuitableSet(paths, h[1..], quickest) + if Within(paths[h[0]], quickest) then {h[0]} else {}
  {
    hide Within;
    forall x | x in SuitableSet(paths, h[1..], quickest) ensures x in SuitableSet(paths, h, quickest) {
      var k :| 0 <= k < |h| - 1 && h[1..][k] == x && Within(paths[x], quickest);
      assert h[k + 1] == x;
    }
    forall x | x in SuitableSet(paths, h, quickest) && x != h[0] ensures x in SuitableSet(paths, h[1..], quickest) {
      var k :| 0 <= k < |h| && h[k] == x && Within(paths[x], quickest);
      assert h[1..][k - 1] == x;
    }
  }

  lemma SameSuitable(paths: seq<Path>, s: seq<nat>, t: seq<nat>, quickest: real, inc: seq<string>, inc': seq<string>)
    requires Indexes(paths, s) && Indexes(paths, t) && Distinct(s) && Distinct(t) && forall x :: x in s <==> x in t
    requires forall k :: 0 <= k < |s| ==> Settled(paths[s[k]])
    requires forall k :: 0 <= k < |t| ==> Settled(paths[t[k]])
    ensures CountSuitable(paths, s, quickest, inc) == CountSuitable(paths, t, quickest, inc')
  {
    hide CountSuitable, Distinct, Within, Settled;
    SuitableIsSet(paths, s, quickest, inc);
    SuitableIsSet(paths, t, quickest, inc');
    SuitableWithin(paths, s, t, quickest);
    SuitableWithin(paths, t, s, quickest);
    assert SuitableSet(paths, s, quickest) == SuitableSet(paths, t, quickest);
  }

  lemma SuitableWithin(paths: seq<Path>, s: seq<nat>, t: seq<nat>, quickest: real)
    requires Indexes(paths, s) && Indexes(paths, t) && forall x :: x in s ==> x in t
    ensures SuitableSet(paths, s, quickest) <= SuitableSet(paths, t, quickest)
  {
    hide Within;
    forall x | x in SuitableSet(paths, s, quickest) ensures x in SuitableSet(paths, t, quickest) {
      var k :| 0 <= k < |s| && s[k] == x && Within(paths[x], quickest);
      assert s[k] in t;
      var m :| 0 <= m < |t| && t[m] == x;
    }
  }

  /** What the order of independent routes looks like to the rest of the decision. */
  lemma IndependentOrder(paths: seq<Path>, strategy: Strategy, inc: seq<string>)
    requires AllIndependent(paths) && |Order(paths, false, inc)| >= 2
    ensures var h := Order(paths, false, inc);
            && Distinct(h) && (forall k :: 0 <= k < |h| ==> Settled(paths[h[k]]))
            && Arranged(paths, strategy, h) == h && Chosen(paths, h, inc) == [h[0], h[1]]
  {
    hide Order, Settled, SharesEndpoint, Chosen, Quickest, FindBackup, Healthy;
    var h := Order(paths, false, inc);
    OrderIs(paths, false, inc);
    assert forall k :: 0 <= k < |h| ==> h[k] in h && h[k] < |paths| && Healthy(paths[h[k]]);
    forall k, m | 0 <= k < |h| && 0 <= m < |h| && k != m ensures !SharesEndpoint(paths[h[k]], paths[h[m]]) {
      SharesSymmetric(paths[h[k]], paths[h[m]]);
      assert h[k] < h[m] || h[m] < h[k];
    }
    TopTwoChosen(paths, h, inc);
  }

  lemma SharesSymmetric(p: Path, q: Path)
    ensures SharesEndpoint(p, q) == SharesEndpoint(q, p)
  {
  }

  /** Duplication stands: the same two routes are chosen when they are the ones already carrying. */
  lemma DuplicationStands(paths: seq<Path>, strategy: Strategy, inc: seq<string>)
    requires Reasonable(paths) && AllIndependent(paths) && (strategy == Adaptive || strategy == Duplicate)
    requires Choose(paths, strategy, inc).Many?
    ensures var c := Choose(paths, strategy, inc);
            var c' := Choose(paths, strategy, Ids(paths, c.indices));
            |c.indices| == 2 && c'.Many? && |c'.indices| == 2
            && {c'.indices[0], c'.indices[1]} == {c.indices[0], c.indices[1]}
  {
    hide Order, Reasonable, AllIndependent, Chosen, Arranged, Quickest, CountSuitable, Degraded, Ids, Distinct,
        Settled, Eligible, MinBy;
    var h := Order(paths, false, inc);
    IndependentOrder(paths, strategy, inc);
    var held := Ids(paths, [h[0], h[1]]);
    TopTwoHold(paths, inc);
    var h' := Order(paths, false, held);
    IndependentOrder(paths, strategy, held);
    SameEligible(paths, inc, held);
    SameQuickest(paths, h, h');
    SameSuitable(paths, h, h', Quickest(paths, h), inc, held);
    assert (h'[0] == h[0] && h'[1] == h[1]) || (h'[0] == h[1] && h'[1] == h[0]);
  }
}
