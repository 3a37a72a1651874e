/** What a history of probes makes of a route: when it is settled, and where its averages lie. */
module ProbeLaws {
  import opened Bytes
  import opened Scheduler

  /** Probe `i` was lost, or took longer than the smoothed latency by 25 ms and by half of it. */
  predicate TroubleAt(p: Path, probes: seq<Probe>, i: nat)
    requires i < |probes|
  {
    probes[i].Loss? ||
    var before := Measured(p, probes[..i]);
    var rise := (if probes[i].latency < 0.0 then 0.0 else probes[i].latency) - before.latency;
    before.last.Some? && rise >= 25.0 && rise + rise >= before.latency
  }

  /** Probe `i` was an ordinary answer of a route measured before. */
  predicate QuietAt(p: Path, probes: seq<Probe>, i: nat)
    requires i < |probes|
  {
    !TroubleAt(p, probes, i) && Measured(p, probes[..i]).last.Some?
  }

  lemma LastProbe(p: Path, probes: seq<Probe>)
    requires probes != []
    ensures var n := |probes| - 1;
            Measured(p, probes) ==
              if probes[n].Answer? then Probed(Measured(p, probes[..n]), probes[n].latency)
              else Lost(Measured(p, probes[..n]))
  {
  }

  /** How one probe moves the count of probes a route still has to pass. */
  lemma UnsettledStep(p: Path, probes: seq<Probe>)
    requires probes != []
    ensures var n := |probes| - 1;
            var before, after := Measured(p, probes[..n]).unsettled, Measured(p, probes).unsettled;
            && (TroubleAt(p, probes, n) ==> after == PROBES_TO_SETTLE)
            && (QuietAt(p, probes, n) ==> after == if before > 0 then before - 1 else 0)
            && (before <= PROBES_TO_SETTLE ==> before - 1 <= after <= PROBES_TO_SETTLE)
  {
    hide Measured;
    LastProbe(p, probes);
  }

  lemma TroublePrefix(p: Path, probes: seq<Probe>, i: nat)
    requires i + 1 < |probes|
    ensures var init := probes[..|probes| - 1];
            TroubleAt(p, init, i) == TroubleAt(p, probes, i) && QuietAt(p, init, i) == QuietAt(p, probes, i)
  {
    assert probes[..|probes| - 1][..i] == probes[..i];
  }

  lemma {:induction false} TroubleCounts(p: Path, probes: seq<Probe>, i: nat)
    requires p.unsettled <= PROBES_TO_SETTLE && i < |probes| && TroubleAt(p, probes, i)
    ensures Measured(p, probes).unsettled >= PROBES_TO_SETTLE - (|probes| - 1 - i)
    decreases |probes|
  {
    hide Measured, TroubleAt, QuietAt;
    UnsettledStep(p, probes);
    if i + 1 < |probes| {
      QuietCounts(p, probes[..|probes| - 1], 0);
      TroublePrefix(p, probes, i);
      TroubleCounts(p, probes[..|probes| - 1], i);
    }
  }

  lemma {:induction false} QuietCounts(p: Path, probes: seq<Probe>, k: nat)
    requires p.unsettled <= PROBES_TO_SETTLE && k <= |probes|
    requires forall i :: |probes| - k <= i < |probes| ==> QuietAt(p, probes, i)
    ensures Measured(p, probes).unsettled <= if k >= PROBES_TO_SETTLE then 0 else PROBES_TO_SETTLE - k
    decreases |probes|
  {
    hide TroubleAt, QuietAt;
    if probes != [] {
      var init := probes[..|probes| - 1];
      UnsettledStep(p, probes);
      hide Measured;
      if k == 0 {
        QuietCounts(p, init, 0);
      } else {
        assert QuietAt(p, probes, |probes| - 1);
        forall i | |init| - (k - 1) <= i < |init| ensures QuietAt(p, init, i) {
          TroublePrefix(p, probes, i);
        }
        QuietCounts(p, init, k - 1);
      }
    }
  }

  /** A loss or a spike among the last ten probes leaves a route unsettled, and ten ordinary answers
      in a row settle it, whatever came before. */
  lemma SettlesAfterTen(p: Path, probes: seq<Probe>)
    requires p.unsettled <= 10
    ensures (exists i: nat :: |probes| - 10 <= i < |probes| && TroubleAt(p, probes, i))
            ==> !Settled(Measured(p, probes))
    ensures |probes| >= 10
            && (forall i :: |probes| - 10 <= i < |probes| ==> QuietAt(p, probes, i))
            ==> Settled(Measured(p, probes))
  {
    hide Measured, TroubleAt, QuietAt;
    if i: nat :| |probes| - PROBES_TO_SETTLE <= i < |probes| && TroubleAt(p, probes, i) {
      TroubleCounts(p, probes, i);
    }
    if |probes| >= PROBES_TO_SETTLE
       && forall i :: |probes| - PROBES_TO_SETTLE <= i < |probes| ==> QuietAt(p, probes, i) {
      QuietCounts(p, probes, PROBES_TO_SETTLE);
    }
  }

  /** The smoothed latency never leaves the range of the answers it was made from. */
  lemma {:induction false} LatencyWithinAnswers(id: string, probes: seq<Probe>, low: real, high: real)
    requires 0.0 <= low <= high
    requires forall i :: 0 <= i < |probes| && probes[i].Answer? ==> low <= probes[i].latency <= high
    ensures var m := Measured(NewPath(id), probes);
            m.last.Some? ==> low <= m.latency <= high && 0.0 <= m.jitter <= high - low && low <= m.last.value <= high
    ensures Measured(NewPath(id), probes).last.None? ==> Measured(NewPath(id), probes).jitter == 0.0
  {
    if probes != [] {
      var init := probes[..|probes| - 1];
      LatencyWithinAnswers(id, init, low, high);
      LastProbe(NewPath(id), probes);
      var last := probes[|probes| - 1];
      hide Measured;
      if last.Answer? {
        AnswerWithin(Measured(NewPath(id), init), last.latency, low, high);
      }
    }
  }

  lemma AnswerWithin(p: Path, sample: real, low: real, high: real)
    requires 0.0 <= low <= sample <= high
    requires p.last.Some? ==> low <= p.latency <= high && 0.0 <= p.jitter <= high - low
    requires p.last.None? ==> p.jitter == 0.0
    ensures var m := Probed(p, sample);
            m.last == Some(sample) && low <= m.latency <= high && 0.0 <= m.jitter <= high - low
  {
  }

  // ----- what the averages are -----

  /** Latency and jitter move a fifth of the way to each answer, and the loss ratio a twentieth of the way
      to zero or one. The first answer is the latency. */
  lemma AverageMoves(p: Path, answer: real)
    requires Sane(p) && answer >= 0.0
    ensures var (m, off) := (Probed(p, answer), if answer >= p.latency then answer - p.latency else p.latency - answer);
            && (p.last.Some? ==> m.latency == 0.8 * p.latency + 0.2 * answer && m.jitter == 0.8 * p.jitter + 0.2 * off)
            && (p.last.None? ==> m.latency == answer && m.jitter == p.jitter)
            && m.loss == 0.95 * p.loss && m.last == Some(answer)
    ensures var m := Lost(p);
            && m.loss == 0.95 * p.loss + 0.05
            && m.latency == p.latency && m.jitter == p.jitter && m.last == p.last
  {
  }

  /** What is left of `x` after `k` steps that each leave `rate` of it. */
  function Left(x: real, rate: real, k: nat): real {
    if k == 0 then x else rate * Left(x, rate, k - 1)
  }

  /** What a route has forgotten after `k` probes of one kind: the distance of its loss ratio from all or
      nothing shrinks by a twentieth each time, that of its latency from a steady answer by a fifth. */
  lemma {:induction false} Forgets(p: Path, probes: seq<Probe>, probe: Probe)
    requires Sane(p) && (forall i :: 0 <= i < |probes| ==> probes[i] == probe)
    requires probe.Answer? ==> probe.latency >= 0.0 && p.last.Some?
    ensures var (m, k) := (Measured(p, probes), |probes|);
            && Sane(m) && m.last.Some? == p.last.Some?
            && (probe.Loss? ==> 1.0 - m.loss == Left(1.0 - p.loss, 0.95, k))
            && (probe.Answer? ==> m.loss == Left(p.loss, 0.95, k))
            && (probe.Answer? ==> m.latency - probe.latency == Left(p.latency - probe.latency, 0.8, k))
  {
    if probes != [] {
      hide Left, Probed, Lost;
      var n := |probes| - 1;
      Forgets(p, probes[..n], probe);
      LastProbe(p, probes);
      hide Measured;
      ForgetsMore(p, Measured(p, probes[..n]), n, probe);
    }
  }

  lemma ForgetsMore(p: Path, m: Path, k: nat, probe: Probe)
    requires Sane(m) && (probe.Answer? ==> probe.latency >= 0.0 && m.last.Some?)
    requires probe.Loss? ==> 1.0 - m.loss == Left(1.0 - p.loss, 0.95, k)
    requires probe.Answer? ==> m.loss == Left(p.loss, 0.95, k)
    requires probe.Answer? ==> m.latency - probe.latency == Left(p.latency - probe.latency, 0.8, k)
    ensures var t := if probe.Answer? then Probed(m, probe.latency) else Lost(m);
            && Sane(t) && t.last.Some? == m.last.Some?
            && (probe.Loss? ==> 1.0 - t.loss == Left(1.0 - p.loss, 0.95, k + 1))
            && (probe.Answer? ==> t.loss == Left(p.loss, 0.95, k + 1))
            && (probe.Answer? ==> t.latency - probe.latency == Left(p.latency - probe.latency, 0.8, k + 1))
  {
    StaysSane(m, probe);
    AverageMoves(m, if probe.Answer? then probe.latency else 0.0);
    hide Probed, Lost;
  }

  lemma StaysSane(p: Path, probe: Probe)
    requires Sane(p)
    ensures Sane(Lost(p)) && (probe.Answer? ==> Sane(Probed(p, probe.latency)))
  {
  }

  /** A route is out of use exactly while its last three probes were lost; it counts every probe, and it
      is measured exactly once it has answered. */
  lemma {:induction false} InactiveIff(id: string, probes: seq<Probe>)
    ensures var m := Measured(NewPath(id), probes);
            && m.id == id && m.samples == |probes|
            && (m.active <==> !LostRun(probes, 3))
            && (m.last.Some? <==> exists i :: 0 <= i < |probes| && probes[i].Answer?)
            && m.losses <= |probes| && LostRun(probes, m.losses)
            && (m.losses < |probes| ==> probes[|probes| - 1 - m.losses].Answer?)
  {
    if probes != [] {
      var n := |probes| - 1;
      InactiveIff(id, probes[..n]);
      LastProbe(NewPath(id), probes);
      var before := Measured(NewPath(id), probes[..n]);
      hide Measured;
      if probes[n].Loss? {
        assert LostRun(probes, before.losses + 1);
        assert !before.active ==> LostRun(probes, 3);
      } else {
        assert probes[n].Answer?;
      }
    }
  }

  /** A route that was never lost and never took much longer than usual is settled and shows no loss. */
  lemma {:induction false} NeverTroubled(id: string, probes: seq<Probe>)
    requires forall i :: 0 <= i < |probes| ==> !TroubleAt(NewPath(id), probes, i)
    ensures var m := Measured(NewPath(id), probes); Settled(m) && m.loss == 0.0
    ensures probes == [] ==> Measured(NewPath(id), probes).latency == 0.0
  {
    if probes != [] {
      var n := |probes| - 1;
      forall i | 0 <= i < n ensures !TroubleAt(NewPath(id), probes[..n], i) {
        TroublePrefix(NewPath(id), probes, i);
      }
      NeverTroubled(id, probes[..n]);
      assert !TroubleAt(NewPath(id), probes, n);
      LastProbe(NewPath(id), probes);
      hide Measured;
    }
  }
}
