/** The verdict of `finish` and the life of a datagram in the fragment router. */
module FragmentVerdicts {
  import opened Bytes
  import opened Ipv4Split
  import opened FragmentRouter
  import opened FragmentRouterRuns

  // ----- one call -----

  /** `finish` with a datagram's own ticket records the route it is given, whether or not anything
      waits, restarts its clock, and releases what waits, in order, unless it is to be dropped. */
  lemma FinishRecords(s: State, key: Key, g: nat, route: Route, now: int)
    requires Lives(s, key, g) && s.datagrams[key].route != Some(Drop)
    ensures var (t, reply) := Next(s, Finish(Ticket(key, g), route, now));
            && Lives(t, key, g) && t.datagrams[key] == Datagram(now, g, Some(route), [])
            && reply.released == if route == Drop then [] else s.datagrams[key].waiting
  {
    hide ByteSum;
  }

  /** Young enough: a tenth of a second without a verdict, five seconds from the verdict on. */
  predicate Young(d: Datagram, now: int) {
    if d.route.None? then now - d.started < 100 else now - d.started < 5000
  }

  /** The datagrams that a call at `now` finds. */
  function Found(s: State, now: int): set<Key> {
    set k | k in s.datagrams && Young(s.datagrams[k], now)
  }

  /** The call takes the place of `key` for a newcomer to a full table. */
  predicate Displaces(s: State, arriving: Key, now: int, victim: Key, key: Key) {
    arriving !in Found(s, now) && |Found(s, now)| >= 64 && victim == key
  }

  lemma FoundIs(s: State, now: int)
    ensures Found(s, now) == Expired(s, now).datagrams.Keys
    ensures forall k :: k in Found(s, now) ==> Expired(s, now).datagrams[k] == s.datagrams[k]
  {
    hide Size, Waiting;
  }

  lemma AdmittedIs(s: State, arriving: Key, now: int, victim: Key, key: Key)
    ensures var t := Admitted(s, arriving, now, victim);
            && t.generation == s.generation
            && (key in t.datagrams <==> key in Found(s, now) && !Displaces(s, arriving, now, victim, key))
            && (key in t.datagrams ==> key in s.datagrams && t.datagrams[key] == s.datagrams[key])
  {
    hide Size, Waiting, Live, Young, ByteSum;
    FoundIs(s, now);
    assert |Found(s, now)| == |Expired(s, now).datagrams.Keys| == |Expired(s, now).datagrams|;
    assert Expired(s, now).generation == s.generation;
    hide Expired, Found;
  }

  /** The call neither finds the datagram too old nor displaces it. */
  ghost predicate Spares(s: State, e: Event, key: Key)
    requires Callable(e)
  {
    match e
    case Begin(packet, now, victim) => key in Found(s, now) && !Displaces(s, KeyOf(packet), now, victim, key)
    case Later(packet, _, now, victim) => key in Found(s, now) && !Displaces(s, KeyOf(packet), now, victim, key)
    case Finish(_, _, _) => true
    case Expire(now) => key in Found(s, now)
  }

  /** A call that begins a datagram under the key. */
  predicate Replaces(e: Event, key: Key)
    requires Callable(e)
  {
    e.Begin? && KeyOf(e.packet) == key
  }

  /** A datagram that has begun lives on through a call if and only if it is young enough, the call does
      not displace it, and it is not another first fragment of the same key. */
  lemma LivesOnIff(s: State, e: Event, key: Key, g: nat)
    requires Callable(e) && Lives(s, key, g) && 0 < g <= s.generation < GENERATIONS - 1
    ensures Lives(Next(s, e).0, key, g) <==> Spares(s, e, key) && !Replaces(e, key)
  {
    hide Size, Waiting, Live, Admitted, KeyOf, Expired, Found, Displaces, ByteSum;
    match e {
      case Begin(packet, now, victim) => AdmittedIs(s, KeyOf(packet), now, victim, key);
      case Later(packet, _, now, victim) => AdmittedIs(s, KeyOf(packet), now, victim, key);
      case Finish(ticket, route, now) =>
      case Expire(now) => FoundIs(s, now);
    }
  }

  /** A later fragment goes where its datagram's verdict says; without one it is held, unless 64 pieces
      are held for its datagram already or more than a mebibyte would be held in all. */
  lemma LaterIs(s: State, e: Event)
    requires Callable(e) && e.Later? && Inv(s)
    ensures var t := Admitted(s, KeyOf(e.packet), e.now, e.victim);
            var key := KeyOf(e.packet);
            var d := if key in t.datagrams then t.datagrams[key] else Datagram(e.now, 0, None, []);
            Next(s, e).1.action == Some(
              if d.route.Some? then Routed(d.route.value)
              else if |d.waiting| < 64 && Size(Waiting(t.datagrams)) + |e.packet| <= 1_048_576 then Held
              else Routed(Drop))
  {
    hide Size, Waiting, Live, Admitted, KeyOf, ByteSum;
    AdmittedPending(s, KeyOf(e.packet), e.now, e.victim);
  }

  lemma AdmittedPending(s: State, key: Key, now: int, victim: Key)
    requires Inv(s)
    ensures Admitted(s, key, now, victim).pending == Size(Waiting(Admitted(s, key, now, victim).datagrams))
  {
    hide Size, Waiting, Live, ByteSum, Bounded;
    var t := Expired(s, now);
    var dropped := ExpiredBalanced(s, now);
    BalancedPending(s, t, multiset{}, multiset{}, dropped);
    var more := MadeRoomBalanced(t, key, victim);
    BalancedPending(t, MadeRoom(t, key, victim), multiset{}, multiset{}, more);
  }

  // ----- what waits for the verdict -----

  /** The pieces a run was told are held for `key` from event `b` on, before event `f`, in order. */
  ghost function HeldSince(run: seq<Event>, key: Key, b: nat, f: nat): seq<Piece>
    requires CallableRun(run) && b <= f <= |run|
    decreases f
  {
    if f == b then []
    else HeldSince(run, key, b, f - 1) + HeldBy(run, key, f - 1)
  }

  ghost function HeldBy(run: seq<Event>, key: Key, i: nat): seq<Piece>
    requires CallableRun(run) && i < |run|
  {
    if Concerns(run[i], key) && ReplyAt(run, i).action == Some(Held) then [Piece(run[i].packet, run[i].address)] else []
  }

  /** As long as there is no verdict, a call that spares the datagram adds to what waits exactly what it
      says it holds. */
  lemma WaitingStep(s: State, e: Event, key: Key, g: nat)
    requires Callable(e) && Lives(s, key, g) && Spares(s, e, key) && !Replaces(e, key) && !Finishes(e, key, g)
    ensures var t := Next(s, e).0;
            && Lives(t, key, g)
            && (t.datagrams[key].route.None? ==>
                  s.datagrams[key].route.None?
                  && t.datagrams[key].waiting == s.datagrams[key].waiting
                       + if Concerns(e, key) && Next(s, e).1.action == Some(Held)
                         then [Piece(e.packet, e.address)] else [])
  {
    hide Size, Waiting, Live, Admitted, KeyOf, Expired, Found, Displaces, ByteSum;
    match e {
      case Begin(packet, now, victim) => AdmittedIs(s, KeyOf(packet), now, victim, key);
      case Later(packet, _, now, victim) => AdmittedIs(s, KeyOf(packet), now, victim, key);
      case Finish(ticket, route, now) =>
      case Expire(now) => FoundIs(s, now);
    }
  }

  /** From event `i` on, before event `j`, the datagram under `key` is spared, not replaced, and given no
      verdict by its ticket. */
  ghost predicate Undecided(run: seq<Event>, key: Key, g: nat, i: nat, j: nat)
    requires CallableRun(run) && j <= |run|
  {
    forall m :: i <= m < j ==>
      Spares(After(run[..m]), run[m], key) && !Replaces(run[m], key) && !Finishes(run[m], key, g)
  }

  /** What waits for a datagram is what was there when it began and what was held since. */
  lemma {:induction false} WaitingIs(run: seq<Event>, key: Key, g: nat, i: nat, j: nat)
    requires CallableRun(run) && i <= j <= |run| && Lives(After(run[..i]), key, g) && Undecided(run, key, g, i, j)
    ensures Lives(After(run[..j]), key, g)
    ensures After(run[..j]).datagrams[key].route.None? ==>
              && After(run[..i]).datagrams[key].route.None?
              && After(run[..j]).datagrams[key].waiting
                 == After(run[..i]).datagrams[key].waiting + HeldSince(run, key, i, j)
    decreases j
  {
    hide Next, After, Spares, Replaces, Finishes, Concerns;
    if i < j {
      WaitingIs(run, key, g, i, j - 1);
      AfterStep(run, j - 1);
      WaitingStep(After(run[..j - 1]), run[j - 1], key, g);
      HeldByIs(run, key, j - 1);
    }
  }

  lemma HeldByIs(run: seq<Event>, key: Key, i: nat)
    requires CallableRun(run) && i < |run|
    ensures var e := run[i];
            HeldBy(run, key, i) ==
              if Concerns(e, key) && Next(After(run[..i]), e).1.action == Some(Held)
              then [Piece(e.packet, e.address)] else []
  {
    hide Next, After, Concerns;
  }

  /** The pieces that came before their first fragment, from event `a` on, when nothing was known of the
      datagram: they are what `begin` takes over. */
  lemma EarlyPieces(run: seq<Event>, key: Key, a: nat, b: nat)
    requires CallableRun(run) && a < b < |run| < GENERATIONS && Concerns(run[a], key) && Replaces(run[b], key)
    requires key !in After(run[..a]).datagrams && ReplyAt(run, a).action == Some(Held)
    requires Undecided(run, key, 0, a + 1, b) && Spares(After(run[..b]), run[b], key)
    requires key in After(run[..b]).datagrams ==> After(run[..b]).datagrams[key].route.None?
    ensures key in After(run[..b + 1]).datagrams
    ensures After(run[..b + 1]).datagrams[key].waiting == HeldSince(run, key, a, b)
  {
    hide Next, After, Spares, Replaces, Finishes, Concerns, Undecided;
    AfterStep(run, a);
    AfterStep(run, b);
    FirstHeld(After(run[..a]), run[a], key);
    WaitingIs(run, key, 0, a + 1, b);
    HeldByIs(run, key, a);
    HeldJoin(run, key, a, a + 1, b);
    BeginTakesOver(After(run[..b]), run[b], key);
  }

  lemma FirstHeld(s: State, e: Event, key: Key)
    requires Callable(e) && Concerns(e, key) && key !in s.datagrams && Next(s, e).1.action == Some(Held)
    ensures Lives(Next(s, e).0, key, 0)
    ensures Next(s, e).0.datagrams[key] == Datagram(e.now, 0, None, [Piece(e.packet, e.address)])
  {
    hide Size, Waiting, Live, Admitted, KeyOf, Expired, Found, Displaces, ByteSum;
    AdmittedIs(s, key, e.now, e.victim, key);
    NotFound(s, key, e.now);
  }

  lemma NotFound(s: State, key: Key, now: int)
    requires key !in s.datagrams
    ensures key !in Found(s, now)
  {
  }

  /** What `begin` leaves: an undecided datagram with what waited for it before it had begun. */
  lemma BeginTakesOver(s: State, e: Event, key: Key)
    requires Callable(e) && Replaces(e, key)
    ensures var t := Next(s, e).0;
            && key in t.datagrams && t.datagrams[key].generation == t.generation
            && t.datagrams[key].route.None? && t.datagrams[key].started == e.now
            && t.datagrams[key].waiting ==
                 if Lives(s, key, 0) && Spares(s, e, key) then s.datagrams[key].waiting else []
  {
    hide Size, Waiting, Live, Admitted, KeyOf, Expired, Found, Displaces, ByteSum;
    AdmittedIs(s, key, e.now, e.victim, key);
    FoundHere(s, key, e.now);
  }

  lemma FoundHere(s: State, key: Key, now: int)
    ensures key in Found(s, now) ==> key in s.datagrams
  {
  }

  lemma {:induction false} HeldJoin(run: seq<Event>, key: Key, a: nat, b: nat, f: nat)
    requires CallableRun(run) && a <= b <= f <= |run|
    ensures HeldSince(run, key, a, f) == HeldSince(run, key, a, b) + HeldSince(run, key, b, f)
    decreases f
  {
    hide HeldBy;
    if b < f {
      HeldJoin(run, key, a, b, f - 1);
    }
  }

  // ----- the whole verdict -----

  /** No piece of the datagram has been routed between events `i` and `j`. */
  ghost predicate NoneRouted(run: seq<Event>, key: Key, i: nat, j: nat)
    requires CallableRun(run) && j <= |run|
  {
    forall m :: i <= m < j && Concerns(run[m], key) ==> ReplyAt(run, m).action == Some(Held)
  }

  lemma {:induction false} StaysUndecided(run: seq<Event>, key: Key, g: nat, i: nat, j: nat)
    requires CallableRun(run) && i <= j <= |run| && Lives(After(run[..i]), key, g) && Undecided(run, key, g, i, j)
    requires After(run[..i]).datagrams[key].route.None? && NoneRouted(run, key, i, j)
    ensures Lives(After(run[..j]), key, g) && After(run[..j]).datagrams[key].route.None?
    decreases j
  {
    hide Next, After, Spares, Replaces, Finishes, Concerns;
    if i < j {
      StaysUndecided(run, key, g, i, j - 1);
      AfterStep(run, j - 1);
      WaitingStep(After(run[..j - 1]), run[j - 1], key, g);
      UndecidedStep(After(run[..j - 1]), run[j - 1], key, g);
    }
  }

  lemma UndecidedStep(s: State, e: Event, key: Key, g: nat)
    requires Callable(e) && Lives(s, key, g) && Spares(s, e, key) && !Replaces(e, key) && !Finishes(e, key, g)
    requires s.datagrams[key].route.None? && (Concerns(e, key) ==> Next(s, e).1.action == Some(Held))
    ensures key in Next(s, e).0.datagrams && Next(s, e).0.datagrams[key].route.None?
  {
    hide Size, Waiting, Live, Admitted, KeyOf, Expired, Found, Displaces, ByteSum;
    match e {
      case Begin(packet, now, victim) => AdmittedIs(s, KeyOf(packet), now, victim, key);
      case Later(packet, _, now, victim) => AdmittedIs(s, KeyOf(packet), now, victim, key);
      case Finish(ticket, route, now) =>
      case Expire(now) => FoundIs(s, now);
    }
  }

  /** The verdict of a datagram that begins at event `b` and is finished with its ticket at event `f`,
      living in between with no piece routed: the verdict is the route `finish` is given; all the pieces
      it has are released then, in the order they came, unless it is to be dropped; and every later piece
      gets that route for as long as the datagram lives. */
  lemma FinishDecides(run: seq<Event>, key: Key, g: nat, b: nat, f: nat, j: nat)
    requires CallableRun(run) && |run| < GENERATIONS && TicketsOnce(run) && b < f < |run| && f < j <= |run|
    requires Replaces(run[b], key) && ReplyAt(run, b).ticket == Some(Ticket(key, g)) && Finishes(run[f], key, g)
    requires Undecided(run, key, g, b + 1, f) && NoneRouted(run, key, b + 1, f)
    requires Life(run, key, g, f + 1, j)
    ensures key in After(run[..b + 1]).datagrams
    ensures After(run[..j]).datagrams[key].route == Some(run[f].route)
    ensures ReplyAt(run, f).released == if run[f].route == Drop then []
                                        else After(run[..b + 1]).datagrams[key].waiting + HeldSince(run, key, b + 1, f)
    ensures forall m :: f < m < j && Concerns(run[m], key) ==> ReplyAt(run, m).action == Some(Routed(run[f].route))
  {
    hide Next, After, Spares, Replaces, Concerns, Undecided, NoneRouted, KeyOf;
    AfterStep(run, b);
    AfterStep(run, f);
    BeginTakesOver(After(run[..b]), run[b], key);
    TicketNumbered(run, b, key, g);
    StaysUndecided(run, key, g, b + 1, f);
    WaitingIs(run, key, g, b + 1, f);
    FinishRecords(After(run[..f]), key, g, run[f].route, run[f].now);
    OnlyOnce(run, key, g, f, f + 1, j);
    VerdictLasts(run, key, g, f + 1, j, run[f].route);
  }

  lemma TicketNumbered(run: seq<Event>, b: nat, key: Key, g: nat)
    requires CallableRun(run) && b < |run| < GENERATIONS && Replaces(run[b], key)
    requires ReplyAt(run, b).ticket == Some(Ticket(key, g))
    ensures g > 0 && After(run[..b + 1]).generation == g
  {
    hide After;
    TicketIs(run, b);
  }
}
