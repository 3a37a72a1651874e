/** The round trip over whole runs of a reassembler that sees other traffic as well. */
module RoundTripRuns {
  import opened Bytes
  import opened Ipv4Split
  import opened Reassembly
  import opened ReassemblyTiles
  import opened RoundTrip

  /** One call of `push`; `victim` is what it evicts, if it evicts. */
  datatype Event = Event(packet: seq<byte>, now: int, victim: Key)

  predicate Callable(es: seq<Event>) {
    forall e <- es :: |e.packet| >= 4
  }

  ghost function After(s: State, es: seq<Event>): (r: State)
    requires HeadersOk(s) && Callable(es)
    ensures HeadersOk(r)
  {
    if es == [] then s
    else
      var before := After(s, es[..|es| - 1]);
      var e := es[|es| - 1];
      PushValid(before, e.packet, e.now, e.victim);
      Step(before, e.packet, e.now, e.victim).0
  }

  ghost function ResultAt(s: State, es: seq<Event>, j: nat): Option<seq<byte>>
    requires HeadersOk(s) && Callable(es) && j < |es|
  {
    Step(After(s, es[..j]), es[j].packet, es[j].now, es[j].victim).1
  }

  /** All within one timeout of each other. */
  predicate Timely(es: seq<Event>) {
    forall e <- es, f <- es :: e.now - f.now < 2000
  }

  /** Other traffic: another datagram's fragment or no fragment at all, not evicting `key`. */
  predicate Foreign(e: Event, key: Key)
    requires |e.packet| >= 4
  {
    e.victim != key && (WellFormed(e.packet) ==> Read(e.packet).key != key)
  }

  /** `origin[j]` numbers the fragment of `ps` that event `j` delivers, if it delivers one. */
  predicate Delivery(es: seq<Event>, origin: seq<Option<nat>>, ps: seq<seq<byte>>, key: Key)
    requires Callable(es)
  {
    && |origin| == |es|
    && forall j :: 0 <= j < |es| ==>
         if origin[j].Some? then origin[j].value < |ps| && es[j].packet == ps[origin[j].value]
         else Foreign(es[j], key)
  }

  function Arrived(origin: seq<Option<nat>>): set<nat> {
    set o | o in origin && o.Some? :: o.value
  }

  /** What the reassembler holds of `d` is the fragments numbered in `a`, for as long as `es` lasts. */
  ghost predicate Progress(s: State, d: seq<byte>, cuts: seq<nat>, n: nat, a: set<nat>, es: seq<Event>)
    requires Sized(d) && CutsOf(cuts, n, |Body(d)|) && Indices(a, n)
  {
    if a == {} then KeyOf(d) !in s.partials
    else
      && KeyOf(d) in s.partials
      && Holds(s.partials[KeyOf(d)], d, cuts, n, a)
      && forall e <- es :: Live(s.partials[KeyOf(d)], e.now)
  }

  /** Admission leaves the datagram as it was. */
  lemma AdmittedProgress(s: State, d: seq<byte>, cuts: seq<nat>, n: nat, a: set<nat>, es: seq<Event>, e: Event)
    requires Sized(d) && CutsOf(cuts, n, |Body(d)|) && Indices(a, n)
    requires Progress(s, d, cuts, n, a, es) && e in es && Timely(es)
    ensures var admitted := Admitted(s, KeyOf(d), e.now, e.victim);
            var partial := PartialAt(admitted, KeyOf(d), e.now);
            && (a != {} ==> KeyOf(d) in admitted.partials)
            && Holds(partial, d, cuts, n, a)
            && forall f <- es :: Live(partial, f.now)
  {
    hide Holds;
    if a == {} {
      EmptyHolds(Partial(e.now, None, [], None), d, cuts, n);
    }
  }

  lemma EmptyHolds(partial: Partial, d: seq<byte>, cuts: seq<nat>, n: nat)
    requires Sized(d) && CutsOf(cuts, n, |Body(d)|)
    requires partial.header.None? && partial.pieces == [] && partial.end.None?
    ensures Holds(partial, d, cuts, n, {})
  {
  }

  lemma OwnStep(s: State, ps: seq<seq<byte>>, cuts: seq<nat>, d: seq<byte>, a: set<nat>, i: nat, es: seq<Event>,
                e: Event)
    requires HeadersOk(s) && Sized(d) && Fragments(ps, cuts, d) && CutsOf(cuts, |ps|, |Body(d)|)
    requires Indices(a, |ps|) && i < |ps|
    requires Progress(s, d, cuts, |ps|, a, es) && e in es && Timely(es) && e.packet == ps[i] && |e.packet| >= 4
    requires !All(a, |ps|)
    ensures var (s', r) := Step(s, e.packet, e.now, e.victim);
            && (All(a + {i}, |ps|) ==> r == Some(d) && KeyOf(d) !in s'.partials)
            && (!All(a + {i}, |ps|) ==> r == None && Progress(s', d, cuts, |ps|, a + {i}, es))
  {
    hide Absorb, Holds, Admitted, Fragments, Represents, CutsOf;
    var key := KeyOf(d);
    OwnReading(ps, cuts, d, i);
    AdmittedProgress(s, d, cuts, |ps|, a, es, e);
    AdmittedOk(s, key, e.now, e.victim);
    var partial := PartialAt(Admitted(s, key, e.now, e.victim), key, e.now);
    AbsorbTile(partial, ps, cuts, d, a, i);
    AbsorbKeepsStart(partial, Read(ps[i]));
    if i in a {
      assert a + {i} == a;
    }
  }

  lemma OwnReading(ps: seq<seq<byte>>, cuts: seq<nat>, d: seq<byte>, i: nat)
    requires Fragments(ps, cuts, d) && i < |ps|
    ensures |ps[i]| > HEADER && WellFormed(ps[i]) && Read(ps[i]).key == KeyOf(d) && !Misplaced(Read(ps[i]))
  {
    hide FragmentOf, Misplaced, KeyOf, WordAt;
    ReadFragment(ps[i], d, cuts[i], cuts[i + 1]);
  }

  lemma AbsorbKeepsStart(partial: Partial, r: Reading)
    requires HeaderOk(partial) && |r.header| >= HEADER
    ensures Absorb(partial, r).Kept? ==> Absorb(partial, r).partial.started == partial.started
  {
    hide Find, Sort, Cover, Concat, WholeHeader;
  }

  lemma ForeignStep(s: State, d: seq<byte>, cuts: seq<nat>, n: nat, a: set<nat>, es: seq<Event>, e: Event)
    requires HeadersOk(s) && Sized(d) && CutsOf(cuts, n, |Body(d)|) && Indices(a, n)
    requires Progress(s, d, cuts, n, a, es) && e in es && |e.packet| >= 4 && Foreign(e, KeyOf(d))
    ensures Progress(Step(s, e.packet, e.now, e.victim).0, d, cuts, n, a, es)
  {
    hide Absorb, Holds, CutsOf, WordAt, Misplaced, WellFormed, Read;
  }

  /** The datagram's progress along a run that has not yet delivered all of it. */
  lemma {:induction false} RunProgress(s: State, ps: seq<seq<byte>>, cuts: seq<nat>, d: seq<byte>, es: seq<Event>,
                                       origin: seq<Option<nat>>, m: nat)
    requires HeadersOk(s) && Callable(es) && Timely(es)
    requires Sized(d) && Fragments(ps, cuts, d) && CutsOf(cuts, |ps|, |Body(d)|)
    requires Delivery(es, origin, ps, KeyOf(d)) && KeyOf(d) !in s.partials
    requires m <= |es| && !All(Arrived(origin[..m]), |ps|)
    ensures Indices(Arrived(origin[..m]), |ps|)
    ensures Progress(After(s, es[..m]), d, cuts, |ps|, Arrived(origin[..m]), es)
    ensures forall j :: 0 <= j < m && origin[j].Some? ==> ResultAt(s, es, j) == None
  {
    hide Progress, Fragments, All, Step, HeadersOk, Foreign, After, CutsOf, KeyOf, Arrived;
    if m == 0 {
      assert Arrived(origin[..0]) == {} by { NoneArrived(origin); }
      StartProgress(s, d, cuts, |ps|, es);
    } else {
      var j := m - 1;
      ArrivedStep(origin, j);
      AfterStep(s, es, j);
      var a, b := Arrived(origin[..j]), Arrived(origin[..m]);
      FewerArrived(a, b, |ps|);
      RunProgress(s, ps, cuts, d, es, origin, j);
      if origin[j].Some? {
        OwnStep(After(s, es[..j]), ps, cuts, d, a, origin[j].value, es, es[j]);
      } else {
        assert b == a;
        ForeignStep(After(s, es[..j]), d, cuts, |ps|, a, es, es[j]);
      }
    }
  }

  lemma NoneArrived(origin: seq<Option<nat>>)
    ensures Arrived(origin[..0]) == {}
  {
  }

  lemma AfterStep(s: State, es: seq<Event>, j: nat)
    requires HeadersOk(s) && Callable(es) && j < |es|
    ensures After(s, es[..j + 1]) == Step(After(s, es[..j]), es[j].packet, es[j].now, es[j].victim).0
  {
    hide Step;
    assert es[..j + 1][..j] == es[..j];
  }

  lemma StartProgress(s: State, d: seq<byte>, cuts: seq<nat>, n: nat, es: seq<Event>)
    requires HeadersOk(s) && Sized(d) && CutsOf(cuts, n, |Body(d)|) && KeyOf(d) !in s.partials
    requires Callable(es)
    ensures Indices({}, n) && Progress(After(s, es[..0]), d, cuts, n, {}, es)
  {
  }

  lemma ArrivedStep(origin: seq<Option<nat>>, j: nat)
    requires j < |origin|
    ensures Arrived(origin[..j + 1]) == Arrived(origin[..j]) + if origin[j].Some? then {origin[j].value} else {}
  {
    assert origin[..j + 1] == origin[..j] + [origin[j]];
  }

  lemma CompletedByOwn(origin: seq<Option<nat>>, j: nat, n: nat)
    requires |origin| == j + 1 && All(Arrived(origin), n) && !All(Arrived(origin[..j]), n)
    ensures origin[j].Some? && Arrived(origin) == Arrived(origin[..j]) + {origin[j].value}
  {
    hide Arrived;
    assert origin[..j + 1] == origin;
    ArrivedStep(origin, j);
    assert origin[j].Some?;
  }

  lemma FewerArrived(a: set<nat>, b: set<nat>, n: nat)
    requires a <= b && !All(b, n)
    ensures !All(a, n)
  {
  }

  /** Split then reassemble is the identity. The fragments of `d` - any tiling, so those of a split
      and of any further splits of its pieces - arrive in any order, any number of times each, mixed
      with other traffic; the call that delivers the last missing one returns `d`, no earlier call
      that delivers a fragment of `d` returns anything, and nothing of `d` is left behind. */
  lemma RoundTripTheorem(s: State, ps: seq<seq<byte>>, cuts: seq<nat>, d: seq<byte>, es: seq<Event>,
                         origin: seq<Option<nat>>)
    requires HeadersOk(s) && Callable(es) && Timely(es) && es != []
    requires Sized(d) && Fragments(ps, cuts, d)
    requires Delivery(es, origin, ps, KeyOf(d)) && KeyOf(d) !in s.partials
    requires All(Arrived(origin), |ps|) && !All(Arrived(origin[..|es| - 1]), |ps|)
    ensures ResultAt(s, es, |es| - 1) == Some(d)
    ensures forall j :: 0 <= j < |es| - 1 && origin[j].Some? ==> ResultAt(s, es, j) == None
    ensures KeyOf(d) !in After(s, es).partials
  {
    hide Progress, Fragments, All, Step, HeadersOk, CutsOf, KeyOf, Foreign, After, Arrived;
    var j := |es| - 1;
    FragmentsCut(ps, cuts, d);
    RunProgress(s, ps, cuts, d, es, origin, j);
    assert origin[..j + 1] == origin && es[..j + 1] == es;
    CompletedByOwn(origin, j, |ps|);
    AfterStep(s, es, j);
    OwnStep(After(s, es[..j]), ps, cuts, d, Arrived(origin[..j]), origin[j].value, es, es[j]);
  }

  lemma SplitFragments(d: seq<byte>, mtu: nat)
    requires Whole(d) && 28 <= mtu < |d| && |d| - HEADER <= 64 * ChunkSize(mtu)
    ensures SplitForTunnel(d, mtu).Some?
    ensures Fragments(SplitForTunnel(d, mtu).value, Cuts(0, |d| - HEADER, ChunkSize(mtu)), d)
  {
    hide Chunks, FragmentOf, Cuts, WordAt, SplitForTunnel;
    WholeIsFragment(d);
    SplitTiles(d, d, 0, |d| - HEADER, mtu);
    CutsCount(0, |d| - HEADER, ChunkSize(mtu), 64);
  }

  /** The theorem for what the splitter itself produces, Don't Fragment or not: every datagram too long
      for the link comes out again, if it takes no more than 64 pieces. */
  lemma SplitRoundTrip(s: State, d: seq<byte>, mtu: nat, es: seq<Event>, origin: seq<Option<nat>>)
    requires HeadersOk(s) && Callable(es) && Timely(es) && es != []
    requires Whole(d) && 28 <= mtu < |d| && |d| - HEADER <= 64 * ChunkSize(mtu)
    requires SplitForTunnel(d, mtu).Some? ==>
               var ps := SplitForTunnel(d, mtu).value;
               && Delivery(es, origin, ps, KeyOf(d)) && KeyOf(d) !in s.partials
               && All(Arrived(origin), |ps|) && !All(Arrived(origin[..|es| - 1]), |ps|)
    ensures SplitForTunnel(d, mtu).Some?
    ensures ResultAt(s, es, |es| - 1) == Some(d)
    ensures forall j :: 0 <= j < |es| - 1 && origin[j].Some? ==> ResultAt(s, es, j) == None
    ensures KeyOf(d) !in After(s, es).partials
  {
    SplitFragments(d, mtu);
    hide SplitForTunnel, Splits, Whole, Step, KeyOf, HeadersOk, After, Arrived, Timely, All, Fragments;
    var ps := SplitForTunnel(d, mtu).value;
    RoundTripTheorem(s, ps, Cuts(0, |d| - HEADER, ChunkSize(mtu)), d, es, origin);
  }
}
