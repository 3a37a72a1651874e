/** Which pushes share a repair: what joins the open group, what closes it, and what a steady stream
    of packets is cut into. */
module FecGroups {
  import opened Arithmetic
  import opened Bytes
  import opened FecFormat
  import opened FecEncoder

  /** A push is left out exactly when it is empty or over the limit. Otherwise it joins an open group
      that has room, was opened less than five milliseconds ago and ends below it within 255 of its
      first member; or else it closes what is open and starts a group of its own. */
  lemma PushIs(s: State, sequence: nat, packet: seq<byte>, now: int)
    requires Valid(s) && sequence < 0x1_0000_0000_0000_0000
    ensures var (c, m) := (Push(sequence, packet, now), Member(sequence, packet));
            var joins := s.open != [] && |s.open| < s.groupSize && s.open[|s.open| - 1].sequence < sequence
                         && sequence <= s.open[0].sequence + 255 && now < s.openedAt.value + 5;
            if |packet| == 0 || |packet| > s.maxPacket then Step(s, c) == s && Emits(s, c) == None
            else if joins then Step(s, c) == s.(open := s.open + [m]) && Emits(s, c) == None
            else
              && Step(s, c) == s.(open := [m], openedAt := Some(now))
              && Emits(s, c) == if s.open == [] then None else Some(RepairOf(s.open))
  {
    hide RepairOf, Group;
    assert [] + [Member(sequence, packet)] == [Member(sequence, packet)];
  }

  /** The group size lies between one and four, the limit within 65,535, and both are what was asked for
      as far as that allows. A changed group size closes the open group. */
  lemma SettingsAre(s: State, n: nat)
    requires Valid(s)
    ensures var t := Step(s, SetGroupSize(n));
            && t.groupSize == (if n == 0 then 1 else if n > 4 then 4 else n) && t.maxPacket == s.maxPacket
            && (t.groupSize == s.groupSize ==> t == s && Emits(s, SetGroupSize(n)) == None)
            && (t.groupSize != s.groupSize ==>
                  t.open == [] && Emits(s, SetGroupSize(n)) == if s.open == [] then None else Some(RepairOf(s.open)))
    ensures Step(s, SetMaxPacket(n)) == s.(maxPacket := if n > 65_535 then 65_535 else n)
    ensures Emits(s, SetMaxPacket(n)) == None
  {
    hide RepairOf, Group;
  }

  /** Pushes that come fast enough and in order, `n` by `n`. */
  predicate Steady(calls: seq<Call>, n: nat, limit: nat)
    requires n > 0
  {
    forall j :: 0 <= j < |calls| ==> SteadyAt(calls, n, limit, j)
  }

  predicate SteadyAt(calls: seq<Call>, n: nat, limit: nat, j: nat)
    requires n > 0 && j < |calls|
  {
    && calls[j].Push? && calls[j].sequence < 0x1_0000_0000_0000_0000 && 0 < |calls[j].packet| <= limit
    && (j % n != 0 ==>
          && calls[First(j, n)].Push? && calls[j - 1].Push?
          && calls[j - 1].sequence < calls[j].sequence <= calls[First(j, n)].sequence + 255
          && calls[j].now < calls[First(j, n)].now + 5)
  }

  /** The first of the `n` that `j` belongs to. */
  function First(j: nat, n: nat): (f: nat)
    requires n > 0
    ensures f <= j && (j % n != 0 ==> f < j)
  {
    j - j % n
  }

  predicate AllPushes(calls: seq<Call>) {
    forall c <- calls :: c.Push?
  }

  function Pushed(calls: seq<Call>): (g: seq<Member>)
    requires AllPushes(calls)
    ensures |g| == |calls|
    ensures forall i :: 0 <= i < |g| ==> g[i] == Member(calls[i].sequence, calls[i].packet)
  {
    seq(|calls|, i requires 0 <= i < |calls| => Member(calls[i].sequence, calls[i].packet))
  }

  /** The open group is the pushes from the `f`th on, and was opened by that one. */
  predicate OpenSince(s: State, calls: seq<Call>, f: nat) {
    f < |calls| && AllPushes(calls) && s.open == Pushed(calls[f..]) && s.openedAt == Some(calls[f].now)
  }

  lemma SteadyPrefix(calls: seq<Call>, n: nat, limit: nat, j: nat)
    requires n > 0 && j <= |calls| && Steady(calls, n, limit)
    ensures Steady(calls[..j], n, limit) && AllPushes(calls) && forall c <- calls :: Callable(c)
  {
    hide First;
    forall i | 0 <= i < j ensures SteadyAt(calls[..j], n, limit, i) {
      assert SteadyAt(calls, n, limit, i);
    }
    forall c | c in calls ensures c.Push? && Callable(c) {
      var i :| 0 <= i < |calls| && calls[i] == c;
      assert SteadyAt(calls, n, limit, i);
    }
  }

  lemma NextFirst(j: nat, n: nat)
    requires n > 0 && j > 0
    ensures j % n == 0 ==> First(j, n) == j && j - First(j - 1, n) == n
    ensures j % n != 0 ==> First(j, n) == First(j - 1, n) && j - First(j - 1, n) < n
  {
    var q := j / n;
    assert j == n * q + j % n;
    if j % n == 0 {
      assert n * q == n * (q - 1) + n;
      RemainderIs(j - 1, n, q - 1, n - 1);
    } else {
      RemainderIs(j - 1, n, q, j % n - 1);
    }
  }

  /** A steady stream is cut into groups of exactly the group size: what is open is the pushes since the
      last multiple of it. */
  lemma {:induction false} SteadyStream(s: State, calls: seq<Call>, n: nat, limit: nat)
    requires Valid(s) && s.open == [] && 0 < n == s.groupSize && s.maxPacket == limit && Steady(calls, n, limit)
    ensures Valid(After(s, calls)) && After(s, calls).groupSize == n && After(s, calls).maxPacket == limit
    ensures if calls == [] then After(s, calls) == s else OpenSince(After(s, calls), calls, First(|calls| - 1, n))
  {
    hide Valid, Step, Emits, First, Callable, OpenSince, Steady;
    if calls != [] {
      var j := |calls| - 1;
      var init := calls[..j];
      SteadyPrefix(calls, n, limit, j);
      SteadyStream(s, init, n, limit);
      SteadyStep(After(s, init), calls, n, limit);
      StepValid(After(s, init), calls[j]);
    }
  }

  /** The last push of a steady stream, with the pushes before it in their groups. */
  lemma SteadyStep(s: State, calls: seq<Call>, n: nat, limit: nat)
    requires n > 0 && calls != [] && Steady(calls, n, limit)
    requires Valid(s) && s.groupSize == n && s.maxPacket == limit
    requires var j := |calls| - 1; if j == 0 then s.open == [] else OpenSince(s, calls[..j], First(j - 1, n))
    ensures var (j, t) := (|calls| - 1, Step(s, calls[|calls| - 1]));
            && t.groupSize == n && t.maxPacket == limit && OpenSince(t, calls, First(j, n))
            && (Emits(s, calls[j]).Some? <==> j > 0 && j % n == 0)
            && (j > 0 && j % n == 0 ==> First(j - 1, n) == j - n && Emits(s, calls[j]) == Some(RepairOf(s.open)))
  {
    hide Step, Emits, RepairOf, Group, First;
    var j := |calls| - 1;
    var c := calls[j];
    assert SteadyAt(calls, n, limit, j);
    SteadyPrefix(calls, n, limit, j);
    PushIs(s, c.sequence, c.packet, c.now);
    if j > 0 {
      NextFirst(j, n);
      var f := First(j - 1, n);
      assert s.open[0] == Member(calls[f].sequence, calls[f].packet);
      assert s.open[|s.open| - 1] == Member(calls[j - 1].sequence, calls[j - 1].packet);
      assert calls[f..] == calls[..j][f..] + [c];
    } else {
      NoFirst(n);
    }
    assert calls[j..] == [c];
  }

  lemma NoFirst(n: nat)
    requires n > 0
    ensures First(0, n) == 0
  {
  }

  /** Every `n`th push after the first emits the repair of the `n` before it, and no other push emits. */
  lemma SteadyRepairs(s: State, calls: seq<Call>, n: nat, limit: nat, j: nat)
    requires Valid(s) && s.open == [] && 0 < n == s.groupSize && s.maxPacket == limit && Steady(calls, n, limit)
    requires j < |calls|
    ensures Valid(After(s, calls[..j]))
    ensures var (before, repair) := (After(s, calls[..j]), Emits(After(s, calls[..j]), calls[j]));
            && (repair.Some? <==> j > 0 && j % n == 0)
            && (repair.Some? ==>
                  j >= n && OpenSince(before, calls[..j], j - n) && repair.value == RepairOf(before.open))
  {
    hide Valid, Step, Emits, First, RepairOf, OpenSince, Steady;
    var upto := calls[..j + 1];
    SteadyPrefix(calls, n, limit, j + 1);
    SteadyPrefix(calls, n, limit, j);
    assert upto[..j] == calls[..j];
    SteadyStream(s, calls[..j], n, limit);
    SteadyStep(After(s, calls[..j]), upto, n, limit);
  }
}
