/** How soon a packet is covered: no group outlives its deadline once `flush_due` has been called. */
module FecDeadline {
  import opened Bytes
  import opened FecFormat
  import opened FecEncoder

  predicate Timed(c: Call) {
    c.Push? || c.FlushDue?
  }

  /** A clock that does not run backwards, over the calls that read it. */
  predicate Monotone(calls: seq<Call>) {
    forall i, j :: 0 <= i <= j < |calls| && Timed(calls[i]) && Timed(calls[j]) ==> calls[i].now <= calls[j].now
  }

  /** A group is closed by `flush_due` exactly when five milliseconds have passed since it was opened. */
  lemma FlushCloses(s: State, now: int)
    requires Valid(s)
    ensures Emits(s, FlushDue(now)).Some? <==> s.open != [] && now >= s.openedAt.value + 5
    ensures var t := Step(s, FlushDue(now)); t.open != [] ==> t == s && now < t.openedAt.value + 5
  {
  }

  lemma PrefixCallable(calls: seq<Call>, n: nat)
    requires n <= |calls| && forall c <- calls :: Callable(c)
    ensures forall c <- calls[..n] :: Callable(c)
  {
  }

  /** Where the `i`th call stands among the protected ones. */
  lemma {:induction false} ProtectedPrefix(s: State, calls: seq<Call>, i: nat)
    requires i <= |calls|
    ensures Protected(s, calls[..i]) <= Protected(s, calls)
    decreases |calls|
  {
    hide Protects;
    if i < |calls| {
      var n := |calls| - 1;
      ProtectedPrefix(s, calls[..n], i);
      assert calls[..n][..i] == calls[..i];
    } else {
      assert calls[..i] == calls;
    }
  }

  lemma {:induction false} OpenedByPush(s: State, calls: seq<Call>)
    requires s.open == [] && s.openedAt.None?
    ensures After(s, calls).openedAt.Some? ==>
              exists i :: 0 <= i < |calls| && calls[i].Push? && calls[i].now == After(s, calls).openedAt.value
  {
    hide Closes, Protects;
    if calls != [] {
      var n := |calls| - 1;
      OpenedByPush(s, calls[..n]);
      if After(s, calls).openedAt.Some? && After(s, calls).openedAt == After(s, calls[..n]).openedAt {
        var i :| 0 <= i < n && calls[..n][i].Push? && calls[..n][i].now == After(s, calls[..n]).openedAt.value;
        assert calls[i].Push?;
      }
    }
  }

  lemma ProtectedLast(s: State, calls: seq<Call>)
    requires calls != []
    ensures var n := |calls| - 1;
            |Protected(s, calls)| == |Protected(s, calls[..n])|
              + if Protects(After(s, calls[..n]), calls[n]) then 1 else 0
  {
    hide Protects;
  }

  /** A protected packet is in an emitted repair, or waits in a group no younger than itself. */
  lemma {:induction false} CoveredOrWaiting(s: State, calls: seq<Call>, i: nat)
    requires Valid(s) && s.open == [] && (forall c <- calls :: Callable(c)) && Monotone(calls)
    requires i < |calls| && Protects(After(s, calls[..i]), calls[i])
    ensures |Protected(s, calls[..i + 1])| <= |Repaired(s, calls)|
            || (After(s, calls).openedAt.Some? && After(s, calls).openedAt.value <= calls[i].now)
    decreases |calls|
  {
    hide Protects, Repaired, Protected, Step, Valid, Callable, Monotone;
    var n := |calls| - 1;
    var init := calls[..n];
    PrefixCallable(calls, n);
    PrefixMonotone(calls, n);
    AfterValid(s, init);
    if i < n {
      assert init[..i] == calls[..i] && init[..i + 1] == calls[..i + 1] && init[i] == calls[i];
      CoveredOrWaiting(s, init, i);
      RepairedGrows(s, calls);
      OpenedStep(After(s, init), calls[n]);
      ProtectedPrefix(s, init, i + 1);
      ProtectedLast(s, calls);
      Conservation(s, calls);
    } else {
      NoClock(s);
      OpenedByPush(s, init);
      PushedStep(After(s, init), calls[n]);
      OpenedInTime(s, calls);
    }
  }

  lemma NoClock(s: State)
    requires Valid(s) && s.open == []
    ensures s.openedAt.None?
  {
  }

  lemma PrefixMonotone(calls: seq<Call>, n: nat)
    requires n <= |calls| && Monotone(calls)
    ensures Monotone(calls[..n])
  {
  }

  lemma OpenedInTime(s: State, calls: seq<Call>)
    requires calls != [] && Monotone(calls) && Timed(calls[|calls| - 1])
    requires var init := calls[..|calls| - 1];
             After(s, init).openedAt.Some? ==>
               exists i :: 0 <= i < |init| && init[i].Push? && init[i].now == After(s, init).openedAt.value
    ensures var t := After(s, calls[..|calls| - 1]); t.openedAt.Some? ==> t.openedAt.value <= calls[|calls| - 1].now
  {
    hide After;
    var init := calls[..|calls| - 1];
    if After(s, init).openedAt.Some? {
      var i :| 0 <= i < |init| && init[i].Push? && init[i].now == After(s, init).openedAt.value;
      assert calls[i] == init[i] && Timed(calls[i]);
    }
  }

  lemma RepairedGrows(s: State, calls: seq<Call>)
    requires Valid(s) && calls != [] && forall c <- calls :: Callable(c)
    ensures forall c <- calls[..|calls| - 1] :: Callable(c)
    ensures |Repaired(s, calls[..|calls| - 1])| <= |Repaired(s, calls)|
  {
    hide Parse, Emits, Valid;
  }

  /** A call either keeps the open group's clock, or leaves nothing of that group open. */
  lemma OpenedStep(s: State, c: Call)
    requires Valid(s) && Callable(c)
    ensures Step(s, c).openedAt == s.openedAt || |Step(s, c).open| <= (if Protects(s, c) then 1 else 0)
  {
    hide Group, CanJoin, Expired;
  }

  lemma PushedStep(s: State, c: Call)
    requires Valid(s) && Callable(c) && Protects(s, c)
    ensures Timed(c) && Step(s, c).openedAt.Some?
    ensures Step(s, c).openedAt == s.openedAt || Step(s, c).openedAt == Some(c.now)
  {
    hide Group, CanJoin, Expired;
  }

  /** Every packet protected at least five milliseconds before a call of `flush_due` is in a repair that
      has been emitted by the end of that call. */
  lemma FlushedInTime(s: State, calls: seq<Call>, i: nat, now: int)
    requires Valid(s) && s.open == [] && (forall c <- calls :: Callable(c))
    requires Monotone(calls + [FlushDue(now)]) && i < |calls| && Protects(After(s, calls[..i]), calls[i])
    requires calls[i].now + 5 <= now
    ensures forall c <- calls + [FlushDue(now)] :: Callable(c)
    ensures calls[i].sequence in Repaired(s, calls + [FlushDue(now)])
  {
    hide Protects, Repaired, Protected, Step, Valid, Monotone, Callable;
    var all := calls + [FlushDue(now)];
    assert all[..|calls|] == calls && all[..i] == calls[..i] && all[i] == calls[i] && all[..i + 1] == calls[..i + 1];
    FlushCallable(now);
    CoveredOrWaiting(s, all, i);
    AfterValid(s, calls);
    FlushLeaves(After(s, calls), now);
    Conservation(s, all);
    ProtectedPrefix(s, all, i + 1);
    LastProtected(s, calls, i);
  }

  lemma FlushCallable(now: int)
    ensures Callable(FlushDue(now))
  {
  }

  lemma FlushLeaves(s: State, now: int)
    requires Valid(s)
    ensures var t := Step(s, FlushDue(now)); t.openedAt.Some? ==> now < t.openedAt.value + 5
  {
  }

  lemma LastProtected(s: State, calls: seq<Call>, i: nat)
    requires i < |calls| && Protects(After(s, calls[..i]), calls[i])
    ensures calls[i].Push?
    ensures var p := Protected(s, calls[..i + 1]); p != [] && p[|p| - 1] == calls[i].sequence
  {
    assert calls[..i + 1][..i] == calls[..i];
  }
}
