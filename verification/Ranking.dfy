/** What makes a route better than another, in the numbers of the routes themselves. */
module Ranking {
  import opened Scheduler
  import opened PathChoice
  import opened SchedulerLaws

  /** Latency, twice the jitter, and two milliseconds for every percent of loss. */
  function Cost(p: Path): real {
    p.latency + p.jitter + p.jitter + 200.0 * p.loss
  }

  /** No better in latency, jitter and loss, and worse in one of them. */
  predicate Worse(p: Path, q: Path) {
    && p.latency >= q.latency && p.jitter >= q.jitter && p.loss >= q.loss
    && (p.latency > q.latency || p.jitter > q.jitter || p.loss > q.loss)
  }

  lemma RankIs(p: Path, inc: seq<string>)
    ensures Ranked(p, false, inc) == Cost(p) - if p.id in inc then 8.0 + p.jitter else 0.0
    ensures Ranked(p, true, inc) == p.latency + p.jitter + p.jitter - if p.id in inc then 8.0 + p.jitter else 0.0
  {
  }

  /** A route already carrying traffic keeps its place against one that is not, if and only if that one
      is better by no more than 8 ms and the carrier's own jitter; the earlier route wins a tie. */
  lemma IncumbentHolds(paths: seq<Path>, inc: seq<string>, b: nat, c: nat)
    requires b < |paths| && c < |paths| && paths[b].id in inc && paths[c].id !in inc
    ensures Ahead(paths, false, inc, b, c) <==>
              var lead := Cost(paths[b]) - Cost(paths[c]);
              lead < 8.0 + paths[b].jitter || (lead == 8.0 + paths[b].jitter && b < c)
  {
    RankIs(paths[b], inc);
    RankIs(paths[c], inc);
    hide Ranked;
  }

  /** Between two routes that both carry traffic, or neither, the worse one never leads. */
  lemma WorseNeverLeads(paths: seq<Path>, inc: seq<string>, b: nat, c: nat)
    requires b < |paths| && c < |paths| && (paths[b].id in inc <==> paths[c].id in inc) && Worse(paths[c], paths[b])
    requires b in Order(paths, false, inc)
    ensures Order(paths, false, inc) != [] && Order(paths, false, inc)[0] != c
  {
    hide Order;
    RankIs(paths[b], inc);
    RankIs(paths[c], inc);
    hide Ranked;
    OrderIs(paths, false, inc);
    var h := Order(paths, false, inc);
    var k :| 0 <= k < |h| && h[k] == b;
    assert k > 0 ==> Ahead(paths, false, inc, h[0], h[k]);
  }

  /** Through a total outage failed probes change nothing: the choice does not depend on the losses. */
  lemma OutageIgnoresLoss(paths: seq<Path>, others: seq<Path>, strategy: Strategy, inc: seq<string>)
    requires |others| == |paths| && forall i :: 0 <= i < |paths| ==> others[i] == paths[i].(loss := others[i].loss)
    requires Order(paths, false, inc) == []
    ensures Choose(others, strategy, inc) == Choose(paths, strategy, inc)
  {
    hide Ranked;
    OrderIs(paths, false, inc);
    OrderIs(others, false, inc);
    SameRanks(paths, others, false, 0);
    SameRanks(paths, others, true, 0);
    assert Order(others, false, inc) == [];
    var measured := Eligible(paths, true, 0);
    if measured != [] {
      SameMin(paths, others, inc, measured);
    }
  }

  lemma {:induction false} SameRanks(paths: seq<Path>, others: seq<Path>, outage: bool, from: nat)
    requires |others| == |paths| && forall i :: 0 <= i < |paths| ==> others[i] == paths[i].(loss := others[i].loss)
    requires from <= |paths|
    ensures Eligible(others, outage, from) == Eligible(paths, outage, from)
    decreases |paths| - from
  {
    if from < |paths| {
      SameRanks(paths, others, outage, from + 1);
    }
  }

  lemma {:induction false} SameMin(paths: seq<Path>, others: seq<Path>, inc: seq<string>, s: seq<nat>)
    requires |others| == |paths| && forall i :: 0 <= i < |paths| ==> others[i] == paths[i].(loss := others[i].loss)
    requires Indexes(paths, s) && s != []
    ensures MinBy(others, inc, s) == MinBy(paths, inc, s)
  {
    forall i | 0 <= i < |paths| ensures Ranked(others[i], true, inc) == Ranked(paths[i], true, inc) {
    }
    hide Ranked;
    if |s| > 1 {
      SameMin(paths, others, inc, s[..|s| - 1]);
      MinByOk(paths, inc, s[..|s| - 1]);
    }
  }

  // ----- what a single choice is -----

  /** Active and measured. */
  predicate Up(p: Path) {
    p.active && p.last.Some?
  }

  predicate AllDown(paths: seq<Path>) {
    forall p <- paths :: !Up(p)
  }

  /** What a route has to offer, with the advantage of carrying traffic; losses do not count when every
      route is down. */
  function Bid(p: Path, outage: bool, inc: seq<string>): real {
    p.latency + p.jitter + p.jitter + (if outage then 0.0 else 200.0 * p.loss)
    - if p.id in inc then 8.0 + p.jitter else 0.0
  }

  /** The lowest bid of the routes that can be used, the earliest of equals. */
  predicate Lowest(paths: seq<Path>, inc: seq<string>, i: nat) {
    && i < |paths|
    && (if AllDown(paths) then paths[i].last.Some? else Up(paths[i]))
    && forall j :: 0 <= j < |paths| && j != i && (if AllDown(paths) then paths[j].last.Some? else Up(paths[j])) ==>
         var a, b := Bid(paths[i], AllDown(paths), inc), Bid(paths[j], AllDown(paths), inc);
         a < b || (a == b && i < j)
  }

  lemma OrderEmptyIff(paths: seq<Path>, inc: seq<string>)
    ensures Order(paths, false, inc) == [] <==> AllDown(paths)
    ensures forall i: nat :: i in Order(paths, false, inc) <==> i < |paths| && Up(paths[i])
  {
    hide Order;
    OrderIs(paths, false, inc);
    var h := Order(paths, false, inc);
    if h != [] {
      assert h[0] in h && paths[h[0]] in paths;
    } else {
      forall p | p in paths ensures !Up(p) {
        var i :| 0 <= i < |paths| && paths[i] == p;
        assert i !in h;
      }
    }
  }

  lemma LeaderIsLowest(paths: seq<Path>, inc: seq<string>, i: nat)
    requires Leader(paths, AllDown(paths), inc, i)
    ensures Lowest(paths, inc, i)
  {
    var outage := AllDown(paths);
    hide AllDown;
    RankIs(paths[i], inc);
    forall j | 0 <= j < |paths| && j != i && (if outage then paths[j].last.Some? else Up(paths[j]))
      ensures var a, b := Bid(paths[i], outage, inc), Bid(paths[j], outage, inc); a < b || (a == b && i < j)
    {
      RankIs(paths[j], inc);
      assert CanBeRanked(paths, outage, j) && Ahead(paths, outage, inc, i, j);
    }
  }

  /** Whenever one route is chosen it is the lowest bid, no route is chosen only if none was ever
      measured, and a total outage never multiplies traffic. AllPaths takes every route that is up. */
  lemma SingleIsLowest(paths: seq<Path>, strategy: Strategy, inc: seq<string>)
    ensures var c := Choose(paths, strategy, inc);
            && (c.Nothing? <==> forall p <- paths :: p.last.None?)
            && (c.One? ==> Lowest(paths, inc, c.index))
            && (AllDown(paths) ==> !c.Many?)
            && (strategy == AllPaths ==>
                  forall i, j :: 0 <= i < j < |paths| && Up(paths[i]) && Up(paths[j]) ==>
                    c.Many? && i in c.indices && j in c.indices)
            && (strategy == AllPaths && c.Many? ==>
                  |c.indices| >= 2 && Distinct(c.indices) && forall i <- c.indices :: i < |paths| && Up(paths[i]))
  {
    hide Order, Eligible, MinBy, Chosen, Arranged, ShouldDuplicate, Leader, Lowest, Quickest;
    OrderEmptyIff(paths, inc);
    OrderIs(paths, false, inc);
    var h := Order(paths, false, inc);
    if h == [] {
      var measured := Eligible(paths, true, 0);
      if measured != [] {
        LastResortLeads(paths, inc);
        LeaderIsLowest(paths, inc, MinBy(paths, inc, measured));
        assert measured[0] in measured && paths[measured[0]] in paths;
      } else {
        forall p | p in paths ensures p.last.None? {
          var i :| 0 <= i < |paths| && paths[i] == p;
          assert i !in measured;
        }
      }
    } else {
      FirstLeads(paths, false, inc);
      LeaderIsLowest(paths, inc, h[0]);
      assert h[0] in h && paths[h[0]] in paths;
    }
  }

  /** The decision names the chosen routes, in their order. */
  lemma DecisionNames(paths: seq<Path>, strategy: Strategy, inc: seq<string>)
    ensures var (c, d) := (Choose(paths, strategy, inc), Decide(paths, strategy, inc));
            && (d == Drop <==> c.Nothing?) && (c.One? <==> d.Single?) && (c.Many? <==> d.Several?)
            && (d.Single? ==> d.id == paths[c.index].id)
            && (d.Several? ==> |d.ids| == |c.indices|
                               && forall k :: 0 <= k < |d.ids| ==> d.ids[k] == paths[c.indices[k]].id)
  {
    hide Choose;
  }
}
