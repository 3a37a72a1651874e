/** How long the reassembler remembers: what it returns arrived within two seconds. */
module ReassemblyTimes {
  import opened Bytes
  import opened Ipv4Split
  import opened Reassembly
  import opened RoundTripRuns
  import opened ReassemblySafety

  /** After a call at `now` everything held was begun less than two seconds ago, and nothing younger
      than that was forgotten for its age. */
  lemma NothingOlder(s: State, e: Event)
    requires |e.packet| >= 4 && HeadersOk(s)
    ensures forall k :: k in Expire(s, e.now).partials <==> k in s.partials && e.now - s.partials[k].started < 2000
    ensures forall k :: k in Step(s, e.packet, e.now, e.victim).0.partials ==>
              e.now - Step(s, e.packet, e.now, e.victim).0.partials[k].started < 2000
  {
    hide WellFormed, Misplaced, Read;
    var live := Expire(s, e.now);
    assert forall k :: k in live.partials ==> e.now - live.partials[k].started < 2000;
    if WellFormed(e.packet) && !Misplaced(Read(e.packet)) {
      var r := Read(e.packet);
      var admitted := Admitted(s, r.key, e.now, e.victim);
      var partial := PartialAt(admitted, r.key, e.now);
      AdmittedOk(s, r.key, e.now, e.victim);
      AbsorbKeepsStart(partial, r);
      hide Absorb, Expire;
      assert forall k :: k in admitted.partials ==> e.now - admitted.partials[k].started < 2000;
    }
  }

  /** What the packets of a run said that arrived at `from` or later. */
  ghost function ReadingsSince(es: seq<Event>, from: int): set<Reading>
    requires Callable(es)
  {
    set e | e in es && e.now >= from && WellFormed(e.packet) :: Read(e.packet)
  }

  predicate Monotone(es: seq<Event>) {
    forall i, j :: 0 <= i <= j < |es| ==> es[i].now <= es[j].now
  }

  /** Everything held was sent since it was begun. */
  ghost predicate Timed(s: State, es: seq<Event>)
    requires Callable(es)
  {
    forall k :: k in s.partials ==> Grounded(s.partials[k], k, ReadingsSince(es, s.partials[k].started))
  }

  lemma SinceGrows(es: seq<Event>, e: Event, from: int)
    requires Callable(es) && |e.packet| >= 4
    ensures Callable(es + [e]) && ReadingsSince(es, from) <= ReadingsSince(es + [e], from)
    ensures e.now >= from && WellFormed(e.packet) ==> Read(e.packet) in ReadingsSince(es + [e], from)
  {
    hide WellFormed, Read;
    assert e in es + [e];
  }

  lemma TimedLater(s: State, es: seq<Event>, e: Event)
    requires Callable(es) && |e.packet| >= 4 && Timed(s, es)
    ensures Callable(es + [e]) && Timed(s, es + [e])
  {
    hide ReadingsSince, Grounded;
    SinceGrows(es, e, 0);
    forall k | k in s.partials ensures Grounded(s.partials[k], k, ReadingsSince(es + [e], s.partials[k].started)) {
      var from := s.partials[k].started;
      SinceGrows(es, e, from);
      GroundedMore(s.partials[k], k, ReadingsSince(es, from), ReadingsSince(es + [e], from));
    }
  }

  /** One call keeps it, and what the call returns was sent since its datagram was begun. */
  lemma StepTimed(s: State, es: seq<Event>, e: Event)
    returns (from: int, header: seq<byte>, tiles: seq<Piece>, end: nat)
    requires Callable(es) && |e.packet| >= 4 && HeadersOk(s) && Timed(s, es)
    requires forall k :: k in s.partials ==> s.partials[k].started <= e.now
    ensures Callable(es + [e]) && Timed(Step(s, e.packet, e.now, e.victim).0, es + [e])
    ensures Step(s, e.packet, e.now, e.victim).1.Some? ==>
              && from <= e.now < from + 2000 && WellFormed(e.packet)
              && Returnable(Read(e.packet).key, ReadingsSince(es + [e], from), header, tiles, end)
              && MadeOf(Step(s, e.packet, e.now, e.victim).1.value, header, tiles, end)
  {
    hide Grounded, Absorb, MadeOf, WordAt, KeyOf, Returnable, ReadingsSince, WellFormed, Read, Misplaced;
    from, header, tiles, end := 0, [], [], 0;
    TimedLater(s, es, e);
    if WellFormed(e.packet) && !Misplaced(Read(e.packet)) {
      var r := Read(e.packet);
      AdmittedOk(s, r.key, e.now, e.victim);
      var admitted := Admitted(s, r.key, e.now, e.victim);
      var partial := PartialAt(admitted, r.key, e.now);
      from := partial.started;
      PartialTimed(s, es, e, r.key);
      SinceGrows(es, e, from);
      AbsorbGrounded(partial, r.key, ReadingsSince(es + [e], from), r);
      AbsorbKeepsStart(partial, r);
      if Absorb(partial, r).Complete? {
        var extended := Extended(partial, r);
        header, tiles, end := extended.header.value, Sort(extended.pieces), extended.end.value;
        GroundedReturnable(extended, r.key, ReadingsSince(es + [e], from));
      }
    }
  }

  lemma PartialTimed(s: State, es: seq<Event>, e: Event, key: Key)
    requires Callable(es) && |e.packet| >= 4 && Callable(es + [e]) && Timed(s, es + [e])
    requires forall k :: k in s.partials ==> s.partials[k].started <= e.now
    ensures var partial := PartialAt(Admitted(s, key, e.now, e.victim), key, e.now);
            && partial.started <= e.now < partial.started + 2000
            && Grounded(partial, key, ReadingsSince(es + [e], partial.started))
  {
    hide Grounded, ReadingsSince;
    EmptyGrounded(Partial(e.now, None, [], None), key, ReadingsSince(es + [e], e.now));
  }

  lemma {:induction false} RunTimed(es: seq<Event>)
    requires Callable(es) && Monotone(es)
    ensures Timed(After(State(map[], 0), es), es)
    ensures forall k :: k in After(State(map[], 0), es).partials ==>
              exists e :: e in es && After(State(map[], 0), es).partials[k].started <= e.now
  {
    hide Timed, Step, WellFormed, Read;
    if es == [] {
      NothingTimed();
    } else {
      var j := |es| - 1;
      var init := es[..j];
      RunTimed(init);
      var s := After(State(map[], 0), init);
      assert es == init + [es[j]];
      StartedByNow(s, es, j);
      var f, h, t, n := StepTimed(s, init, es[j]);
      StartedBefore(s, es[j]);
      assert es[j] in es;
    }
  }

  lemma StartedByNow(s: State, es: seq<Event>, j: nat)
    requires Monotone(es) && j < |es|
    requires forall k :: k in s.partials ==> exists e :: e in es[..j] && s.partials[k].started <= e.now
    ensures forall k :: k in s.partials ==> s.partials[k].started <= es[j].now
  {
    forall k | k in s.partials ensures s.partials[k].started <= es[j].now {
      var e :| e in es[..j] && s.partials[k].started <= e.now;
      var i :| 0 <= i < j && es[..j][i] == e;
    }
  }

  lemma NothingTimed()
    ensures Timed(State(map[], 0), [])
  {
  }

  lemma StartedBefore(s: State, e: Event)
    requires |e.packet| >= 4 && HeadersOk(s) && forall k :: k in s.partials ==> s.partials[k].started <= e.now
    ensures var t := Step(s, e.packet, e.now, e.victim).0;
            forall k :: k in t.partials ==> t.partials[k].started <= e.now
  {
    hide WellFormed, Misplaced, Read;
    if WellFormed(e.packet) && !Misplaced(Read(e.packet)) {
      var r := Read(e.packet);
      var admitted := Admitted(s, r.key, e.now, e.victim);
      AdmittedOk(s, r.key, e.now, e.victim);
      AbsorbKeepsStart(PartialAt(admitted, r.key, e.now), r);
      hide Absorb;
    }
  }

  /** Over every run with a clock that does not run backwards, a returned datagram is made of pieces
      that all arrived within two seconds, the last of them now. */
  lemma ReturnedInTime(es: seq<Event>, j: nat)
    returns (from: int, key: Key, header: seq<byte>, tiles: seq<Piece>, end: nat)
    requires Callable(es) && Monotone(es) && j < |es| && ResultAt(State(map[], 0), es, j).Some?
    ensures from <= es[j].now < from + 2000
    ensures Returnable(key, ReadingsSince(es[..j + 1], from), header, tiles, end)
    ensures MadeOf(ResultAt(State(map[], 0), es, j).value, header, tiles, end)
  {
    hide Timed, Step, WellFormed, MadeOf, Returnable, Read, After;
    var init := es[..j];
    RunTimed(init);
    var s := After(State(map[], 0), init);
    StartedByNow(s, es, j);
    from, header, tiles, end := StepTimed(s, init, es[j]);
    assert init + [es[j]] == es[..j + 1];
    key := Read(es[j].packet).key;
  }
}
