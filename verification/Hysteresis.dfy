/** The group-size policy of `engine/src/fec.rs` and the probe history it reads. */
module Hysteresis {
  import opened Bytes
  import opened Arithmetic
  import opened Bits

  const MULTIPATH_GROUP := 4
  const LOSSY_MULTIPATH_GROUP := 2
  /** Milliseconds. */
  const LOSSY_AFTER := 10_000
  const RECOVERED_AFTER := 60_000

  datatype State = State(lossy: bool, since: Option<int>)

  datatype Event = Observe(loss: real, now: int) | Interrupt

  /** A reading past the threshold that would end the present mode. */
  predicate Crossing(lossy: bool, loss: real) {
    if lossy then loss < 0.04 else loss >= 0.10
  }

  /** How long such readings must last. */
  function Hold(lossy: bool): int {
    if lossy then RECOVERED_AFTER else LOSSY_AFTER
  }

  function Next(s: State, e: Event): State {
    match e
    case Interrupt => s.(since := None)
    case Observe(loss, now) =>
      if !Crossing(s.lossy, loss) then s.(since := None)
      else
        var since := if s.since.Some? then s.since.value else now;
        if now - since >= Hold(s.lossy) then State(!s.lossy, None) else s.(since := Some(since))
  }

  function GroupOf(lossy: bool): nat {
    if lossy then LOSSY_MULTIPATH_GROUP else MULTIPATH_GROUP
  }

  class MultipathPolicy {
    var lossy: bool
    var crossingSince: Option<int>

    ghost function Contents(): State
      reads this
    {
      State(lossy, crossingSince)
    }

    constructor ()
      ensures Contents() == State(false, None)
    {
      lossy := false;
      crossingSince := None;
    }

    method ObserveLoss(bestLoss: real, now: int) returns (group: nat)
      modifies this
      ensures Contents() == Next(old(Contents()), Observe(bestLoss, now))
      ensures group == GroupOf(lossy)
    {
      var crossing := if lossy then bestLoss < 0.04 else bestLoss >= 0.10;
      if !crossing {
        crossingSince := None;
        return GroupOf(lossy);
      }
      if crossingSince.None? {
        crossingSince := Some(now);
      }
      var hold := if lossy then RECOVERED_AFTER else LOSSY_AFTER;
      if (if now > crossingSince.value then now - crossingSince.value else 0) >= hold {
        lossy := !lossy;
        crossingSince := None;
      }
      group := GroupOf(lossy);
    }

    method InterruptClock()
      modifies this
      ensures Contents() == Next(old(Contents()), Interrupt)
    {
      crossingSince := None;
    }
  }

  // ----- runs -----

  ghost function After(run: seq<Event>): State {
    if run == [] then State(false, None) else Next(After(run[..|run| - 1]), run[|run| - 1])
  }

  /** Time does not run backwards between observations. */
  ghost predicate Monotone(run: seq<Event>) {
    forall i, j :: 0 <= i < j < |run| && run[i].Observe? && run[j].Observe? ==> run[i].now <= run[j].now
  }

  /** From event `m` to event `n`: one mode, and nothing but readings under 4 % when it is the lossy one,
      of at least 10 % when it is not. */
  ghost predicate Streak(run: seq<Event>, m: nat, n: nat, lossy: bool) {
    && m <= n < |run|
    && (forall k :: m <= k <= n ==> run[k].Observe? && (if lossy then run[k].loss < 0.04 else run[k].loss >= 0.10))
    && (forall k :: m <= k <= n ==> After(run[..k]).lossy == lossy)
  }

  lemma AfterStep(run: seq<Event>, n: nat)
    requires n < |run|
    ensures After(run[..n + 1]) == Next(After(run[..n]), run[n])
  {
    assert run[..n + 1][..n] == run[..n];
  }

  /** A running clock was started by the first reading of a streak that still lasts. */
  lemma {:induction false} ClockStarted(run: seq<Event>, n: nat) returns (m: nat)
    requires n <= |run| && After(run[..n]).since.Some?
    ensures m < n && Streak(run, m, n - 1, After(run[..n]).lossy)
    ensures run[m].now == After(run[..n]).since.value
  {
    hide After, Next;
    assert n > 0 by { NoClock(run); }
    AfterStep(run, n - 1);
    var before := After(run[..n - 1]);
    ClockStep(before, run[n - 1]);
    if before.since.Some? {
      m := ClockStarted(run, n - 1);
    } else {
      m := n - 1;
    }
  }

  lemma NoClock(run: seq<Event>)
    ensures After(run[..0]).since.None?
  {
  }

  lemma ClockStep(s: State, e: Event)
    requires Next(s, e).since.Some?
    ensures e.Observe? && Crossing(s.lossy, e.loss) && Next(s, e).lossy == s.lossy
    ensures Next(s, e).since.value == if s.since.Some? then s.since.value else e.now
  {
  }

  /** Along a streak the clock is never younger than its first reading. */
  lemma {:induction false} ClockRuns(run: seq<Event>, m: nat, n: nat, lossy: bool)
    requires Monotone(run) && Streak(run, m, n, lossy)
    ensures m < n ==> After(run[..n]).since.Some? && After(run[..n]).since.value <= run[m].now
    ensures m == n && After(run[..n]).since.Some? ==> After(run[..n]).since.value <= run[m].now
  {
    hide After, Next;
    if m == n {
      if After(run[..n]).since.Some? {
        var k := ClockStarted(run, n);
      }
    } else {
      assert Streak(run, m, n - 1, lossy);
      ClockRuns(run, m, n - 1, lossy);
      AfterStep(run, n - 1);
      StaysStep(After(run[..n - 1]), run[n - 1]);
    }
  }

  lemma StaysStep(s: State, e: Event)
    requires e.Observe? && Crossing(s.lossy, e.loss) && Next(s, e).lossy == s.lossy
    ensures Next(s, e).since == Some(if s.since.Some? then s.since.value else e.now)
  {
  }

  /** The mode changes at event `n` exactly when an unbroken, uninterrupted streak of crossing
      readings that ends there has lasted long enough. */
  lemma ChangesIff(run: seq<Event>, n: nat)
    requires n < |run| && Monotone(run)
    ensures var lossy := After(run[..n]).lossy;
            After(run[..n + 1]).lossy != lossy
            <==> exists m: nat ::
                   Streak(run, m, n, lossy) && run[n].now - run[m].now >= if lossy then 60_000 else 10_000
  {
    hide After, Next;
    AfterStep(run, n);
    var s := After(run[..n]);
    ChangeStep(s, run[n]);
    if After(run[..n + 1]).lossy != s.lossy {
      assert s.since.Some?;
      var m := ClockStarted(run, n);
      assert Streak(run, m, n, s.lossy);
    }
    forall m: nat | Streak(run, m, n, s.lossy) && run[n].now - run[m].now >= Hold(s.lossy)
      ensures After(run[..n + 1]).lossy != s.lossy
    {
      ClockRuns(run, m, n, s.lossy);
      assert run[n].Observe? && Crossing(s.lossy, run[n].loss);
    }
  }

  lemma ChangeStep(s: State, e: Event)
    ensures Next(s, e).lossy != s.lossy <==>
            e.Observe? && Crossing(s.lossy, e.loss)
            && e.now - (if s.since.Some? then s.since.value else e.now) >= Hold(s.lossy)
  {
  }

  /** The group shrinks only after ten seconds of nothing but readings of 10% or more, and grows only
      after a minute of nothing but readings under 4%. */
  lemma GroupChanges(run: seq<Event>, n: nat)
    requires n < |run| && Monotone(run)
    ensures var before, after := GroupOf(After(run[..n]).lossy), GroupOf(After(run[..n + 1]).lossy);
            && (after < before <==>
                  before == 4 && exists m: nat :: Streak(run, m, n, false) && run[n].now - run[m].now >= 10_000)
            && (after > before <==>
                  before == 2 && exists m: nat :: Streak(run, m, n, true) && run[n].now - run[m].now >= 60_000)
  {
    hide After, Streak;
    ChangesIff(run, n);
  }

  // ----- probe history -----

  const LOSS_WINDOW := 60
  const MIN_LOSS_SAMPLES := 30

  /** The outcomes packed into the low `samples` bits, newest first. */
  function Outcomes(lost: nat, samples: nat): (o: seq<bool>)
    ensures |o| == samples
  {
    if samples == 0 then [] else [lost % 2 == 1] + Outcomes(lost / 2, samples - 1)
  }

  function Losses(o: seq<bool>): nat {
    if o == [] then 0 else (if o[0] then 1 else 0) + Losses(o[1..])
  }

  function CountOnes(w: nat): nat {
    if w == 0 then 0 else w % 2 + CountOnes(w / 2)
  }

  lemma {:induction false} CountOnesIsLosses(lost: nat, samples: nat)
    requires lost < Pow2(samples)
    ensures CountOnes(lost) == Losses(Outcomes(lost, samples))
  {
    if samples > 0 {
      CountOnesIsLosses(lost / 2, samples - 1);
      assert Outcomes(lost, samples)[1..] == Outcomes(lost / 2, samples - 1);
    }
  }

  lemma {:induction false} OlderOutcomes(lost: nat, samples: nat, n: nat)
    requires n <= samples
    ensures Outcomes(lost, samples)[..n] == Outcomes(lost, n)
  {
    if n > 0 {
      OlderOutcomes(lost / 2, samples - 1, n - 1);
      assert Outcomes(lost, samples)[..n] == [lost % 2 == 1] + Outcomes(lost / 2, samples - 1)[..n - 1];
    }
  }

  lemma {:induction false} LowBits(w: nat, n: nat)
    ensures w % Pow2(n) < Pow2(n) && Outcomes(w % Pow2(n), n) == Outcomes(w, n)
  {
    if n > 0 {
      LowBits(w / 2, n - 1);
      HalfOfRemainder(w, Pow2(n - 1));
    }
  }

  lemma HalfOfRemainder(w: nat, p: nat)
    requires p > 0
    ensures w % (2 * p) / 2 == w / 2 % p && w % (2 * p) % 2 == w % 2
  {
    var q, r := w / 2 / p, w / 2 % p;
    assert w / 2 == p * q + r;
    assert w == 2 * p * q + (2 * r + w % 2) by {
      assert w == 2 * (w / 2) + w % 2;
      assert 2 * (p * q) == 2 * p * q;
    }
    RemainderIs(w, 2 * p, q, 2 * r + w % 2);
  }

  /** The history after one more probe. */
  function Recorded(o: seq<bool>, lost: bool): seq<bool> {
    ([lost] + o)[..Min(|o| + 1, LOSS_WINDOW)]
  }

  /** The history of a run of probes. */
  function HistoryOf(probes: seq<bool>): seq<bool> {
    if probes == [] then [] else Recorded(HistoryOf(probes[..|probes| - 1]), probes[|probes| - 1])
  }

  /** It is the newest sixty outcomes, newest first. */
  lemma {:induction false} NewestSixty(probes: seq<bool>)
    ensures |HistoryOf(probes)| == Min(|probes|, 60)
    ensures forall i :: 0 <= i < |HistoryOf(probes)| ==> HistoryOf(probes)[i] == probes[|probes| - 1 - i]
  {
    if probes != [] {
      NewestSixty(probes[..|probes| - 1]);
    }
  }

  lemma ShiftIn(lost: nat, samples: nat, probe: bool)
    requires lost < Pow2(samples)
    ensures var v := 2 * lost + if probe then 1 else 0;
            v < Pow2(samples + 1) && Outcomes(v, samples + 1) == [probe] + Outcomes(lost, samples)
  {
    var v := 2 * lost + if probe then 1 else 0;
    assert v / 2 == lost && (v % 2 == 1) == probe;
  }

  lemma RecordPacks(lost: nat, samples: nat, probe: bool, window: nat)
    requires samples <= window && lost < Pow2(samples)
    ensures var w := (2 * lost + if probe then 1 else 0) % Pow2(window);
            var n := Min(samples + 1, window);
            w < Pow2(n) && Outcomes(w, n) == ([probe] + Outcomes(lost, samples))[..n]
  {
    hide Pow2, Outcomes;
    var v := 2 * lost + if probe then 1 else 0;
    ShiftIn(lost, samples, probe);
    if samples < window {
      PowMonotone(samples + 1, window);
      SmallRemainder(v, Pow2(window));
    } else {
      LowBits(v, window);
      OlderOutcomes(v, samples + 1, window);
    }
  }

  /** How many of the newest outcomes are losses in a row. */
  function Outage(o: seq<bool>): (k: nat)
    ensures k <= |o| && (forall i :: 0 <= i < k ==> o[i]) && (k < |o| ==> !o[k])
  {
    if o == [] || !o[0] then 0 else 1 + Outage(o[1..])
  }

  class ProbeHistory {
    var lost: nat
    var samples: nat

    ghost predicate Valid()
      reads this
    {
      samples <= LOSS_WINDOW && lost < Pow2(samples)
    }

    ghost function History(): seq<bool>
      reads this
    {
      Outcomes(lost, samples)
    }

    constructor ()
      ensures Valid() && History() == []
    {
      lost, samples := 0, 0;
    }

    method Record(probe: bool)
      requires Valid()
      modifies this
      ensures Valid() && History() == Recorded(old(History()), probe)
    {
      hide Pow2, Outcomes;
      RecordPacks(lost, samples, probe, LOSS_WINDOW);
      lost := (2 * lost + if probe then 1 else 0) % Pow2(LOSS_WINDOW);
      samples := Min(samples + 1, LOSS_WINDOW);
    }

    /** Drops exactly the unbroken run of losses at the newest end. */
    method ForgetOutage()
      requires Valid()
      modifies this
      ensures Valid() && History() == old(History())[Outage(old(History()))..]
    {
      ghost var before := History();
      ghost var k := 0;
      while samples > 0 && lost % 2 == 1
        invariant Valid() && k + samples == |before| && History() == before[k..]
        invariant forall i :: 0 <= i < k ==> before[i]
        decreases samples
      {
        assert Outcomes(lost, samples)[1..] == Outcomes(lost / 2, samples - 1);
        assert before[k] by { assert before[k] == before[k..][0]; }
        assert before[k..][1..] == before[k + 1..];
        lost := lost / 2;
        samples := samples - 1;
        k := k + 1;
      }
      assert samples > 0 ==> !before[k] by { assert samples > 0 ==> before[k] == before[k..][0]; }
    }

    method Loss() returns (share: Option<real>)
      requires Valid()
      ensures share == if |History()| >= 30
                       then Some(Losses(History()) as real / |History()| as real) else None
    {
      CountOnesIsLosses(lost, samples);
      share := if samples >= MIN_LOSS_SAMPLES then Some(CountOnes(lost) as real / samples as real) else None;
    }
  }
}
