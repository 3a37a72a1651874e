/** The path choice of `engine/src/scheduler.rs`, with `f64` as `real`. A route is named by its
    position in the given list, as the source names it by reference. */
module Scheduler {
  import opened Bytes
  import Sorting

  datatype Path = Path(
    id: string, endpoint: Option<nat>, active: bool, samples: nat, latency: real, jitter: real, loss: real,
    last: Option<real>, losses: nat, unsettled: nat)

  datatype Strategy = FastestPath | Duplicate | Adaptive | AllPaths

  const SMOOTHING := 0.2
  const LOSS_SMOOTHING := 0.05
  const LOSSES_BEFORE_INACTIVE := 3
  const DELAY_BUDGET := 100.0
  const PROBES_TO_SETTLE := 10
  const SETTLED_WANTED := 2

  // ----- metrics -----

  function MaxReal(a: real, b: real): real {
    if a <= b then b else a
  }

  function Ewma(previous: real, sample: real, smoothing: real): real {
    previous + smoothing * (sample - previous)
  }

  function Clamp01(x: real): real {
    if x < 0.0 then 0.0 else if x > 1.0 then 1.0 else x
  }

  function NewPath(id: string): Path {
    Path(id, None, true, 0, 0.0, 0.0, 0.0, None, 0, 0)
  }

  /** An answer far above the smoothed latency of a route already measured. */
  predicate Spikes(p: Path, sample: real) {
    p.last.Some? && MaxReal(sample, 0.0) - p.latency >= MaxReal(25.0, p.latency * 0.5)
  }

  function Probed(p: Path, sample: real): Path {
    var spikes := Spikes(p, sample);
    var sample := MaxReal(sample, 0.0);
    var measured :=
      if p.last.None? then p.(latency := sample)
      else
        var deviation := if sample >= p.latency then sample - p.latency else p.latency - sample;
        p.(unsettled := if spikes then PROBES_TO_SETTLE else if p.unsettled > 0 then p.unsettled - 1 else 0,
           jitter := Ewma(p.jitter, deviation, SMOOTHING),
           latency := Ewma(p.latency, sample, SMOOTHING));
    measured.(loss := Clamp01(Ewma(p.loss, 0.0, LOSS_SMOOTHING)), samples := p.samples + 1, active := true,
              last := Some(sample), losses := 0)
  }

  function Lost(p: Path): Path {
    p.(loss := Clamp01(Ewma(p.loss, 1.0, LOSS_SMOOTHING)), samples := p.samples + 1, losses := p.losses + 1,
       unsettled := PROBES_TO_SETTLE, active := p.active && p.losses + 1 < LOSSES_BEFORE_INACTIVE)
  }

  /** What probing maintains: nothing is negative, and a loss is a ratio. */
  predicate Sane(p: Path) {
    p.latency >= 0.0 && p.jitter >= 0.0 && 0.0 <= p.loss <= 1.0 && (p.last.Some? ==> p.last.value >= 0.0)
  }

  datatype Probe = Answer(latency: real) | Loss

  function Measured(p: Path, probes: seq<Probe>): Path {
    if probes == [] then p
    else
      var before := Measured(p, probes[..|probes| - 1]);
      match probes[|probes| - 1]
      case Answer(latency) => Probed(before, latency)
      case Loss => Lost(before)
  }

  /** The last `k` probes were lost. */
  predicate LostRun(probes: seq<Probe>, k: nat) {
    k <= |probes| && forall i :: |probes| - k <= i < |probes| ==> probes[i].Loss?
  }

  /** Every history of probes leaves sane metrics, and three lost in a row leave the route inactive. */
  lemma {:induction false} ProbesStaySane(p: Path, probes: seq<Probe>)
    requires Sane(p)
    ensures Sane(Measured(p, probes))
    ensures LostRun(probes, 3) ==> !Measured(p, probes).active
    ensures forall k: nat :: k <= 3 && LostRun(probes, k) ==> Measured(p, probes).losses >= k
  {
    if probes != [] {
      var init := probes[..|probes| - 1];
      ProbesStaySane(p, init);
      forall k: nat | k <= 3 && LostRun(probes, k)
        ensures Measured(p, probes).losses >= k
      {
        if k > 0 {
          assert probes[|probes| - 1].Loss?;
          assert LostRun(init, k - 1);
        }
      }
    }
  }

  class PathMetrics {
    var path: Path

    constructor (id: string)
      ensures path == NewPath(id)
    {
      path := NewPath(id);
    }

    method RecordProbe(sample: real)
      modifies this
      ensures path == Probed(old(path), sample)
    {
      var sample := MaxReal(sample, 0.0);
      if path.last.None? {
        path := path.(latency := sample);
      } else {
        var spike := MaxReal(25.0, path.latency * 0.5);
        var unsettled := if path.unsettled > 0 then path.unsettled - 1 else 0;
        if sample - path.latency >= spike {
          unsettled := PROBES_TO_SETTLE;
        }
        var deviation := if sample >= path.latency then sample - path.latency else path.latency - sample;
        var jitter := Ewma(path.jitter, deviation, SMOOTHING);
        var latency := Ewma(path.latency, sample, SMOOTHING);
        path := path.(unsettled := unsettled, jitter := jitter, latency := latency);
      }
      path := path.(loss := Clamp01(Ewma(path.loss, 0.0, LOSS_SMOOTHING)));
      path := path.(samples := path.samples + 1, active := true, last := Some(sample), losses := 0);
    }

    method RecordLoss()
      modifies this
      ensures path == Lost(old(path))
    {
      path := path.(loss := Clamp01(Ewma(path.loss, 1.0, LOSS_SMOOTHING)));
      path := path.(samples := path.samples + 1, losses := path.losses + 1, unsettled := PROBES_TO_SETTLE);
      if path.losses >= LOSSES_BEFORE_INACTIVE {
        path := path.(active := false);
      }
    }
  }

  // ----- ranking -----

  predicate Healthy(p: Path) {
    p.active && p.last.Some?
  }

  predicate Settled(p: Path) {
    p.unsettled == 0
  }

  function Margin(p: Path): real {
    8.0 + p.jitter * 1.0
  }

  /** Latency and jitter, and the loss penalty unless everything is down. */
  function Score(p: Path, outage: bool): real {
    p.latency + p.jitter * 2.0 + if outage then 0.0 else p.loss * 200.0
  }

  predicate Held(p: Path, incumbent: seq<string>) {
    p.id in incumbent
  }

  /** The score, discounted for a route already carrying traffic. */
  function Ranked(p: Path, outage: bool, incumbent: seq<string>): real {
    if Held(p, incumbent) then Score(p, outage) - Margin(p) else Score(p, outage)
  }

  predicate SharesEndpoint(p: Path, q: Path) {
    p.endpoint.Some? && p.endpoint == q.endpoint
  }

  /** Measured is enough to be ranked through an outage; otherwise a route has to be healthy. */
  predicate Ranks(p: Path, outage: bool) {
    if outage then p.last.Some? else Healthy(p)
  }

  /** The positions of the routes that can be ranked, in order. */
  function Eligible(paths: seq<Path>, outage: bool, from: nat): (e: seq<nat>)
    requires from <= |paths|
    ensures Indexes(paths, e)
    ensures forall i :: i in e <==> from <= i < |paths| && Ranks(paths[i], outage)
    decreases |paths| - from
  {
    if from == |paths| then []
    else
      (if Ranks(paths[from], outage) then [from] else [])
      + Eligible(paths, outage, from + 1)
  }

  predicate Indexes(paths: seq<Path>, s: seq<nat>) {
    forall k :: 0 <= k < |s| ==> s[k] < |paths|
  }

  predicate Distinct(s: seq<nat>) {
    forall i, j :: 0 <= i < j < |s| ==> s[i] != s[j]
  }

  /** Not behind in the stable order: a smaller rank, or the same rank and no later position. */
  function Before(paths: seq<Path>, outage: bool, inc: seq<string>): (nat, nat) -> bool {
    (i: nat, j: nat) =>
      var a := if i < |paths| then Ranked(paths[i], outage, inc) else 0.0;
      var b := if j < |paths| then Ranked(paths[j], outage, inc) else 0.0;
      a < b || (a == b && i <= j)
  }

  /** The stable sort by rank of positions in ascending order. */
  function Sort(paths: seq<Path>, outage: bool, inc: seq<string>, s: seq<nat>): (r: seq<nat>)
    requires Indexes(paths, s)
    ensures Indexes(paths, r)
  {
    BeforeOrders(paths, outage, inc);
    Sorting.SortIs(s, Before(paths, outage, inc));
    var r := Sorting.Sort(s, Before(paths, outage, inc));
    MembersIndex(paths, s, r);
    r
  }

  lemma BeforeOrders(paths: seq<Path>, outage: bool, inc: seq<string>)
    ensures Sorting.Orders(Before(paths, outage, inc))
  {
    hide Ranked;
  }

  lemma MembersIndex(paths: seq<Path>, s: seq<nat>, r: seq<nat>)
    requires Indexes(paths, s) && forall x <- r :: x in s
    ensures Indexes(paths, r)
  {
    forall k | 0 <= k < |r| ensures r[k] < |paths| {
      assert r[k] in s;
    }
  }

  /** Ahead in the stable order: a smaller rank, or the same rank and an earlier position. */
  predicate Ahead(paths: seq<Path>, outage: bool, inc: seq<string>, i: nat, j: nat)
    requires i < |paths| && j < |paths|
  {
    var a, b := Ranked(paths[i], outage, inc), Ranked(paths[j], outage, inc);
    a < b || (a == b && i < j)
  }

  /** In the stable order, which is strict: no position occurs twice. */
  predicate InOrder(paths: seq<Path>, outage: bool, inc: seq<string>, s: seq<nat>)
    requires Indexes(paths, s)
  {
    forall i, j :: 0 <= i < j < |s| ==> Ahead(paths, outage, inc, s[i], s[j])
  }

  predicate Increasing(s: seq<nat>) {
    forall i, j :: 0 <= i < j < |s| ==> s[i] < s[j]
  }

  lemma {:induction false} EligibleIncreases(paths: seq<Path>, outage: bool, from: nat)
    requires from <= |paths|
    ensures Increasing(Eligible(paths, outage, from))
    decreases |paths| - from
  {
    hide Ranks;
    if from < |paths| {
      EligibleIncreases(paths, outage, from + 1);
      var rest := Eligible(paths, outage, from + 1);
      IncreasingFrom(from, rest);
      assert [] + rest == rest;
    }
  }

  lemma IncreasingFrom(i: nat, s: seq<nat>)
    requires Increasing(s) && forall x <- s :: i < x
    ensures Increasing([i] + s)
  {
    assert forall k :: 0 <= k < |s| ==> s[k] in s;
  }

  function Unequal(): (nat, nat) -> bool {
    (i: nat, j: nat) => i != j
  }

  lemma SortIs(paths: seq<Path>, outage: bool, inc: seq<string>, s: seq<nat>)
    requires Indexes(paths, s) && Increasing(s)
    ensures var r := Sort(paths, outage, inc, s);
            InOrder(paths, outage, inc, r) && |r| == |s| && forall x :: x in r <==> x in s
  {
    hide Ranked, Sorting.Sort, Sorting.Orders;
    var before, r := Before(paths, outage, inc), Sort(paths, outage, inc, s);
    BeforeOrders(paths, outage, inc);
    Sorting.SortIs(s, before);
    Sorting.PairwiseKept(s, r, Unequal());
    forall i, j | 0 <= i < j < |r| ensures Ahead(paths, outage, inc, r[i], r[j]) {
      assert before(r[i], r[j]) && Unequal()(r[i], r[j]);
    }
  }

  /** The eligible routes, best first. */
  function Order(paths: seq<Path>, outage: bool, inc: seq<string>): (o: seq<nat>)
    ensures Indexes(paths, o)
  {
    Sort(paths, outage, inc, Eligible(paths, outage, 0))
  }

  lemma OrderIs(paths: seq<Path>, outage: bool, inc: seq<string>)
    ensures var o := Order(paths, outage, inc);
            && InOrder(paths, outage, inc, o) && Distinct(o) && |o| == |Eligible(paths, outage, 0)|
            && forall i: nat :: i in o <==> i < |paths| && Ranks(paths[i], outage)
  {
    hide Sort, Ranked;
    EligibleIncreases(paths, outage, 0);
    SortIs(paths, outage, inc, Eligible(paths, outage, 0));
    var o := Order(paths, outage, inc);
    assert forall i, j :: 0 <= i < j < |o| ==> Ahead(paths, outage, inc, o[i], o[j]) && o[i] != o[j];
  }
}
