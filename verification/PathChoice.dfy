/** `choose_paths_with_incumbent` of `engine/src/scheduler.rs`: the decision as a function, and the
    loops that are proved to compute it. */
module PathChoice {
  import opened Scheduler

  datatype Decision = Drop | Single(id: string) | Several(ids: seq<string>)

  function Ids(paths: seq<Path>, s: seq<nat>): (ids: seq<string>)
    requires Indexes(paths, s)
    ensures |ids| == |s| && forall k :: 0 <= k < |s| ==> ids[k] == paths[s[k]].id
  {
    seq(|s|, k requires 0 <= k < |s| => paths[s[k]].id)
  }

  predicate DistinctIds(paths: seq<Path>) {
    forall i, j :: 0 <= i < j < |paths| ==> paths[i].id != paths[j].id
  }

  // ----- the pieces of the decision -----

  /** The estimate of when a copy sent on this route arrives. */
  function Delay(p: Path): real {
    MaxReal(p.latency + p.jitter * 2.0, if p.last.Some? then p.last.value else 0.0)
  }

  function Quickest(paths: seq<Path>, h: seq<nat>): (q: real)
    requires Indexes(paths, h) && h != []
    ensures forall k :: 0 <= k < |h| ==> q <= Delay(paths[h[k]])
    ensures exists k :: 0 <= k < |h| && q == Delay(paths[h[k]])
  {
    if |h| == 1 then Delay(paths[h[0]])
    else
      var rest := Quickest(paths, h[1..]);
      var first := Delay(paths[h[0]]);
      assert forall k :: 1 <= k < |h| ==> h[k] == h[1..][k - 1];
      if first <= rest then first else rest
  }

  predicate Within(p: Path, quickest: real) {
    Delay(p) <= quickest + DELAY_BUDGET
  }

  predicate Degraded(p: Path) {
    p.loss >= 0.5 || p.jitter >= 50.0
  }

  predicate UnsettledCarrier(p: Path, inc: seq<string>) {
    Held(p, inc) && !Settled(p)
  }

  /** A settled route that no earlier settled one shares an endpoint with. */
  predicate NewDomain(paths: seq<Path>, earlier: seq<nat>, i: nat)
    requires Indexes(paths, earlier) && i < |paths|
  {
    Settled(paths[i])
    && forall k :: 0 <= k < |earlier| ==> !(Settled(paths[earlier[k]]) && SharesEndpoint(paths[i], paths[earlier[k]]))
  }

  function SettledCount(paths: seq<Path>, s: seq<nat>): nat
    requires Indexes(paths, s)
  {
    if s == [] then 0
    else
      var init, last := s[..|s| - 1], s[|s| - 1];
      SettledCount(paths, init) + if NewDomain(paths, init, last) then 1 else 0
  }

  predicate Backup(best: Path, p: Path, quickest: real) {
    p.id != best.id && !SharesEndpoint(best, p) && Within(p, quickest) && !Degraded(p)
  }

  function FindBackup(paths: seq<Path>, h: seq<nat>, best: nat, quickest: real): (k: nat)
    requires Indexes(paths, h) && best < |paths|
    ensures k <= |h| && (k < |h| ==> Backup(paths[best], paths[h[k]], quickest))
  {
    if h == [] || Backup(paths[best], paths[h[0]], quickest) then 0 else 1 + FindBackup(paths, h[1..], best, quickest)
  }

  /** The element at `k` moved to the second place. */
  function Promoted(h: seq<nat>, k: nat): seq<nat>
    requires 0 < k < |h|
  {
    [h[0], h[k]] + h[1..k] + h[k + 1..]
  }

  /** Adaptive prefers a second endpoint for the second place. */
  function Arranged(paths: seq<Path>, strategy: Strategy, h: seq<nat>): seq<nat>
    requires Indexes(paths, h) && |h| >= 2
  {
    var k := FindBackup(paths, h, h[0], Quickest(paths, h));
    if strategy == Adaptive && SharesEndpoint(paths[h[0]], paths[h[1]]) && 0 < k < |h| then Promoted(h, k) else h
  }

  function CountSuitable(paths: seq<Path>, h: seq<nat>, quickest: real, inc: seq<string>): nat
    requires Indexes(paths, h)
  {
    if h == [] then 0
    else (if Within(paths[h[0]], quickest) || UnsettledCarrier(paths[h[0]], inc) then 1 else 0)
         + CountSuitable(paths, h[1..], quickest, inc)
  }

  predicate Enough(paths: seq<Path>, chosen: seq<nat>, independent: bool)
    requires Indexes(paths, chosen)
  {
    |chosen| >= 2 && (!independent || SettledCount(paths, chosen) >= SETTLED_WANTED)
  }

  /** The routes taken in order until there are enough. */
  function Pick(paths: seq<Path>, h: seq<nat>, chosen: seq<nat>, independent: bool, quickest: real): (r: seq<nat>)
    requires Indexes(paths, h) && Indexes(paths, chosen)
    ensures Indexes(paths, r)
    decreases |h|
  {
    if h == [] || Enough(paths, chosen, independent) then chosen
    else if |chosen| >= 2 && (!Within(paths[h[0]], quickest) || !Settled(paths[h[0]])) then
      Pick(paths, h[1..], chosen, independent, quickest)
    else
      Pick(paths, h[1..], chosen + [h[0]], independent, quickest)
  }

  predicate IdChosen(paths: seq<Path>, chosen: seq<nat>, id: string)
    requires Indexes(paths, chosen)
  {
    exists k :: 0 <= k < |chosen| && paths[chosen[k]].id == id
  }

  /** Unsettled carriers that were not taken are kept as well. */
  function AddCarriers(paths: seq<Path>, h: seq<nat>, chosen: seq<nat>, inc: seq<string>): (r: seq<nat>)
    requires Indexes(paths, h) && Indexes(paths, chosen)
    ensures Indexes(paths, r)
    decreases |h|
  {
    if h == [] then chosen
    else
      var next := if UnsettledCarrier(paths[h[0]], inc) && !IdChosen(paths, chosen, paths[h[0]].id)
                  then chosen + [h[0]] else chosen;
      AddCarriers(paths, h[1..], next, inc)
  }

  function Independent(paths: seq<Path>, h: seq<nat>): bool
    requires Indexes(paths, h)
  {
    SettledCount(paths, h) >= SETTLED_WANTED
  }

  function Chosen(paths: seq<Path>, h: seq<nat>, inc: seq<string>): (r: seq<nat>)
    requires Indexes(paths, h) && |h| >= 2
    ensures Indexes(paths, r)
  {
    var independent := Independent(paths, h);
    var picked := Pick(paths, h, [], independent, Quickest(paths, h));
    if independent then AddCarriers(paths, h, picked, inc) else picked
  }

  predicate ShouldDuplicate(paths: seq<Path>, strategy: Strategy, h: seq<nat>, inc: seq<string>)
    requires Indexes(paths, h) && |h| >= 2
  {
    strategy == Duplicate
    || (!(Degraded(paths[h[0]]) && Degraded(paths[h[1]])) && CountSuitable(paths, h, Quickest(paths, h), inc) >= 2)
  }

  /** The first of the cheapest measured routes. */
  function MinBy(paths: seq<Path>, inc: seq<string>, s: seq<nat>): (m: nat)
    requires Indexes(paths, s) && s != []
    ensures m in s
  {
    if |s| == 1 then s[0]
    else
      var best, last := MinBy(paths, inc, s[..|s| - 1]), s[|s| - 1];
      if Ranked(paths[last], true, inc) < Ranked(paths[best], true, inc) then last else best
  }

  datatype Choice = Nothing | One(index: nat) | Many(indices: seq<nat>)

  predicate ChoiceOk(paths: seq<Path>, c: Choice) {
    match c
    case Nothing => true
    case One(i) => i < |paths|
    case Many(s) => Indexes(paths, s)
  }

  lemma ArrangedOk(paths: seq<Path>, strategy: Strategy, h: seq<nat>)
    requires Indexes(paths, h) && |h| >= 2
    ensures Indexes(paths, Arranged(paths, strategy, h)) && |Arranged(paths, strategy, h)| == |h|
    ensures Arranged(paths, strategy, h)[0] == h[0]
  {
    hide FindBackup, Quickest;
  }

  function Choose(paths: seq<Path>, strategy: Strategy, inc: seq<string>): (c: Choice)
    ensures ChoiceOk(paths, c)
  {
    var h := Order(paths, false, inc);
    if h == [] then
      var measured := Eligible(paths, true, 0);
      if measured == [] then Nothing else (MinByOk(paths, inc, measured); One(MinBy(paths, inc, measured)))
    else if strategy == AllPaths then if |h| == 1 then One(h[0]) else Many(h)
    else if |h| == 1 || strategy == FastestPath then One(h[0])
    else
      ArrangedOk(paths, strategy, h);
      var a := Arranged(paths, strategy, h);
      if ShouldDuplicate(paths, strategy, a, inc) then Many(Chosen(paths, a, inc)) else One(h[0])
  }

  lemma MinByOk(paths: seq<Path>, inc: seq<string>, s: seq<nat>)
    requires Indexes(paths, s) && s != []
    ensures MinBy(paths, inc, s) < |paths|
  {
    var k :| 0 <= k < |s| && s[k] == MinBy(paths, inc, s);
  }

  function Decide(paths: seq<Path>, strategy: Strategy, inc: seq<string>): Decision {
    match Choose(paths, strategy, inc)
    case Nothing => Drop
    case One(i) => Single(paths[i].id)
    case Many(s) => Several(Ids(paths, s))
  }

  // ----- the imperative form -----

  method PickRoutes(paths: seq<Path>, h: seq<nat>, independent: bool, quickest: real) returns (chosen: seq<nat>)
    requires Indexes(paths, h)
    ensures Indexes(paths, chosen) && chosen == Pick(paths, h, [], independent, quickest)
  {
    hide Enough, Within;
    chosen := [];
    for k := 0 to |h|
      invariant Indexes(paths, chosen)
      invariant Pick(paths, h, [], independent, quickest) == Pick(paths, h[k..], chosen, independent, quickest)
    {
      var path := paths[h[k]];
      assert h[k..][1..] == h[k + 1..];
      if Enough(paths, chosen, independent) {
        return;
      }
      if |chosen| >= 2 && (!Within(path, quickest) || !Settled(path)) {
        continue;
      }
      chosen := chosen + [h[k]];
    }
  }

  method KeepCarriers(paths: seq<Path>, h: seq<nat>, picked: seq<nat>, inc: seq<string>) returns (chosen: seq<nat>)
    requires Indexes(paths, h) && Indexes(paths, picked)
    ensures Indexes(paths, chosen) && chosen == AddCarriers(paths, h, picked, inc)
  {
    hide UnsettledCarrier, IdChosen;
    chosen := picked;
    for k := 0 to |h|
      invariant Indexes(paths, chosen)
      invariant AddCarriers(paths, h, picked, inc) == AddCarriers(paths, h[k..], chosen, inc)
    {
      assert h[k..][1..] == h[k + 1..];
      if UnsettledCarrier(paths[h[k]], inc) && !IdChosen(paths, chosen, paths[h[k]].id) {
        chosen := chosen + [h[k]];
      }
    }
  }

  method ChoosePaths(paths: seq<Path>, strategy: Strategy, inc: seq<string>) returns (d: Decision)
    ensures d == Decide(paths, strategy, inc)
  {
    hide Order, Arranged, ShouldDuplicate, Pick, AddCarriers, MinBy, Eligible, Quickest, SettledCount;
    var healthy := Order(paths, false, inc);
    if healthy == [] {
      var measured := Eligible(paths, true, 0);
      if measured == [] {
        return Drop;
      }
      MinByOk(paths, inc, measured);
      return Single(paths[MinBy(paths, inc, measured)].id);
    }
    if strategy == AllPaths {
      return if |healthy| == 1 then Single(paths[healthy[0]].id) else Several(Ids(paths, healthy));
    }
    var best := healthy[0];
    if |healthy| == 1 || strategy == FastestPath {
      return Single(paths[best].id);
    }
    ArrangedOk(paths, strategy, healthy);
    healthy := Arranged(paths, strategy, healthy);
    if !ShouldDuplicate(paths, strategy, healthy, inc) {
      return Single(paths[best].id);
    }
    var independent := SettledCount(paths, healthy) >= SETTLED_WANTED;
    var chosen := PickRoutes(paths, healthy, independent, Quickest(paths, healthy));
    if independent {
      chosen := KeepCarriers(paths, healthy, chosen, inc);
    }
    return Several(Ids(paths, chosen));
  }
}
