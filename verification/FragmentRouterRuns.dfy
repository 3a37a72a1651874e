/** What every run of the fragment router keeps: its bounds, every held piece accounted for, and one
    route per datagram. */
module FragmentRouterRuns {
  import opened Bytes
  import opened Ipv4Split
  import opened FragmentRouter

  // ----- bounds and accounting -----

  predicate Fits(d: Datagram) {
    |d.waiting| <= 64 && (d.route.Some? ==> d.waiting == [])
  }

  ghost predicate Bounded(s: State) {
    && |s.datagrams| <= 64 && s.pending <= 1_048_576
    && forall k :: k in s.datagrams ==> Fits(s.datagrams[k])
  }

  ghost predicate Inv(s: State) {
    s.pending == Size(Waiting(s.datagrams)) && Bounded(s)
  }

  /** From `s` to `s'` the pieces `taken` came in, `released` went out and `dropped` were given up, and
      the counters say so. */
  ghost predicate Balanced(s: State, s': State, taken: multiset<Piece>, released: multiset<Piece>,
                           dropped: multiset<Piece>)
  {
    && Waiting(s.datagrams) + taken == Waiting(s'.datagrams) + released + dropped
    && s'.discarded == s.discarded + |dropped|
    && s'.pending == s.pending + Size(taken) - Size(released) - Size(dropped)
  }

  lemma BalancedPending(s: State, s': State, taken: multiset<Piece>, released: multiset<Piece>,
                        dropped: multiset<Piece>)
    requires Balanced(s, s', taken, released, dropped) && s.pending == Size(Waiting(s.datagrams))
    ensures s'.pending == Size(Waiting(s'.datagrams))
  {
    hide Size, Waiting;
    SizeUnion(Waiting(s.datagrams), taken);
    SizeUnion(Waiting(s'.datagrams) + released, dropped);
    SizeUnion(Waiting(s'.datagrams), released);
  }

  lemma BalancedChain(s: State, t: State, u: State, dropped: multiset<Piece>, taken: multiset<Piece>,
                      released: multiset<Piece>, more: multiset<Piece>)
    requires Balanced(s, t, multiset{}, multiset{}, dropped) && Balanced(t, u, taken, released, more)
    ensures Balanced(s, u, taken, released, dropped + more)
  {
    hide Size, Waiting;
    NothingWaits();
    SizeUnion(dropped, more);
    assert Waiting(s.datagrams) + multiset{} == Waiting(s.datagrams);
    assert Waiting(s.datagrams) + taken == (Waiting(t.datagrams) + taken) + dropped;
  }

  lemma ExpiredBalanced(s: State, now: int) returns (dropped: multiset<Piece>)
    ensures Balanced(s, Expired(s, now), multiset{}, multiset{}, dropped)
    ensures Bounded(s) ==> Bounded(Expired(s, now))
  {
    hide Size, Waiting, Live, Fits;
    dropped := Waiting(DeadOnes(s.datagrams, now));
    WaitingPartition(s.datagrams, now);
    NothingWaits();
    assert LiveOnes(s.datagrams, now).Keys <= s.datagrams.Keys;
    SubsetSize(LiveOnes(s.datagrams, now).Keys, s.datagrams.Keys);
  }

  lemma MadeRoomBalanced(s: State, key: Key, victim: Key) returns (dropped: multiset<Piece>)
    ensures Balanced(s, MadeRoom(s, key, victim), multiset{}, multiset{}, dropped)
    ensures Bounded(s) ==> Bounded(MadeRoom(s, key, victim))
    ensures Full(s, key) && victim in s.datagrams && Bounded(s) ==> |MadeRoom(s, key, victim).datagrams| < MAX_DATAGRAMS
  {
    hide Size, Waiting, Fits;
    NothingWaits();
    dropped := multiset{};
    if Full(s, key) && victim in s.datagrams {
      dropped := multiset(s.datagrams[victim].waiting);
      WaitingRemove(s.datagrams, victim);
      SizeIsByteSum(s.datagrams[victim].waiting);
      assert (s.datagrams - {victim}).Keys == s.datagrams.Keys - {victim};
    }
  }

  lemma AdmittedBalanced(s: State, key: Key, now: int, victim: Key) returns (dropped: multiset<Piece>)
    requires Full(Expired(s, now), key) ==> victim in Expired(s, now).datagrams
    ensures Balanced(s, Admitted(s, key, now, victim), multiset{}, multiset{}, dropped)
    ensures Bounded(s) ==> Bounded(Admitted(s, key, now, victim)) && !Full(Admitted(s, key, now, victim), key)
  {
    hide Balanced, Expired, Fits;
    var first := ExpiredBalanced(s, now);
    var second := MadeRoomBalanced(Expired(s, now), key, victim);
    dropped := first + second;
    BalancedChain(s, Expired(s, now), Admitted(s, key, now, victim), first, multiset{}, multiset{}, second);
  }

  lemma PutSize(m: map<Key, Datagram>, k: Key, d: Datagram)
    ensures |m[k := d]| == if k in m then |m| else |m| + 1
  {
    assert m[k := d].Keys == m.Keys + {k};
  }

  lemma Replaced(m: map<Key, Datagram>, k: Key, d: Datagram)
    ensures Waiting(m[k := d]) == multiset(d.waiting) + Waiting(m - {k})
    ensures Waiting(m) == (if k in m then multiset(m[k].waiting) else multiset{}) + Waiting(m - {k})
  {
    hide Waiting;
    WaitingPut(m, k, d);
    if k in m {
      WaitingRemove(m, k);
    } else {
      assert m - {k} == m;
    }
  }

  lemma BegunBalanced(s: State, key: Key, now: int) returns (dropped: multiset<Piece>)
    requires !Full(s, key)
    ensures Balanced(s, Begun(s, key, now), multiset{}, multiset{}, dropped)
    ensures Bounded(s) ==> Bounded(Begun(s, key, now))
  {
    hide Size, Waiting, NextGeneration;
    var s' := Begun(s, key, now);
    var d := s'.datagrams[key];
    NothingWaits();
    Replaced(s.datagrams, key, d);
    PutSize(s.datagrams, key, d);
    assert s'.datagrams == s.datagrams[key := d];
    dropped := multiset{};
    if key in s.datagrams && s.datagrams[key].generation != 0 {
      dropped := multiset(s.datagrams[key].waiting);
      SizeIsByteSum(s.datagrams[key].waiting);
    }
  }

  function HeldBag(action: Action, piece: Piece): multiset<Piece> {
    if action.Held? then multiset{piece} else multiset{}
  }

  lemma JoinedBalanced(s: State, key: Key, piece: Piece, now: int) returns (dropped: multiset<Piece>)
    requires !Full(s, key) && Bounded(s)
    ensures var (s', action) := Joined(s, key, piece, now);
            Balanced(s, s', HeldBag(action, piece), multiset{}, dropped) && Bounded(s')
  {
    hide Size, Waiting, Balanced, Bounded;
    var (s', action) := Joined(s, key, piece, now);
    var d := if key in s.datagrams then s.datagrams[key] else Datagram(now, 0, None, []);
    JoinedBounded(s, key, piece, now);
    if d.route.Some? {
      dropped := multiset{};
      NothingMoved(s);
    } else if action.Held? {
      dropped := multiset{};
      HeldBalanced(s, key, d, piece);
    } else {
      dropped := multiset(d.waiting);
      OverflowBalanced(s, key, d);
    }
  }

  lemma NothingMoved(s: State)
    ensures Balanced(s, s, multiset{}, multiset{}, multiset{})
  {
    NothingWaits();
  }

  lemma JoinedBounded(s: State, key: Key, piece: Piece, now: int)
    requires !Full(s, key) && Bounded(s)
    ensures Bounded(Joined(s, key, piece, now).0)
  {
    hide ByteSum;
    var s' := Joined(s, key, piece, now).0;
    if s' != s {
      PutSize(s.datagrams, key, s'.datagrams[key]);
    }
  }

  lemma HeldBalanced(s: State, key: Key, d: Datagram, piece: Piece)
    requires if key in s.datagrams then d == s.datagrams[key] else d.waiting == []
    ensures Balanced(s, s.(pending := s.pending + |piece.packet|,
                           datagrams := s.datagrams[key := d.(waiting := d.waiting + [piece])]),
                     multiset{piece}, multiset{}, multiset{})
  {
    hide Size, Waiting;
    Replaced(s.datagrams, key, d.(waiting := d.waiting + [piece]));
    SizeOne(piece);
    NothingWaits();
    assert multiset(d.waiting + [piece]) == multiset(d.waiting) + multiset{piece};
  }

  lemma OverflowBalanced(s: State, key: Key, d: Datagram)
    requires if key in s.datagrams then d == s.datagrams[key] else d.waiting == []
    ensures Balanced(s, GivenUp(s, d.waiting).(datagrams := s.datagrams[key := d.(waiting := [], route := Some(Drop))]),
                     multiset{}, multiset{}, multiset(d.waiting))
  {
    hide Size, Waiting;
    Replaced(s.datagrams, key, d.(waiting := [], route := Some(Drop)));
    SizeIsByteSum(d.waiting);
    NothingWaits();
  }

  lemma SizeOne(piece: Piece)
    ensures Size(multiset{piece}) == |piece.packet|
  {
    SizeAdd(multiset{}, piece);
    assert multiset{} + multiset{piece} == multiset{piece};
    NothingWaits();
  }

  lemma FinishedBalanced(s: State, ticket: Ticket, route: Route, now: int) returns (dropped: multiset<Piece>)
    ensures var (s', released) := Finished(s, ticket, route, now);
            Balanced(s, s', multiset{}, multiset(released), dropped) && (Bounded(s) ==> Bounded(s'))
  {
    hide Size, Waiting;
    var (s', released) := Finished(s, ticket, route, now);
    NothingWaits();
    dropped := multiset{};
    if ticket.key in s.datagrams && s.datagrams[ticket.key].generation == ticket.generation {
      var d := s.datagrams[ticket.key];
      var next := s'.datagrams[ticket.key];
      assert s'.datagrams == s.datagrams[ticket.key := next];
      Replaced(s.datagrams, ticket.key, next);
      PutSize(s.datagrams, ticket.key, next);
      SizeIsByteSum(d.waiting);
      if next.route == Some(Drop) {
        dropped := multiset(d.waiting);
      }
    }
  }

  /** Evictions hit a datagram that is there, as the class chooses them. */
  ghost predicate Possible(s: State, e: Event)
    requires Callable(e)
  {
    && (e.Begin? && Full(Expired(s, e.now), KeyOf(e.packet)) ==> e.victim in Expired(s, e.now).datagrams)
    && (e.Later? && Full(Expired(s, e.now), KeyOf(e.packet)) ==> e.victim in Expired(s, e.now).datagrams)
  }

  ghost function TakenBy(s: State, e: Event): multiset<Piece>
    requires Callable(e)
  {
    if e.Later? && Next(s, e).1.action == Some(Held) then multiset{Piece(e.packet, e.address)} else multiset{}
  }

  /** Every call keeps the bounds and loses no piece without counting it. */
  lemma StepKeeps(s: State, e: Event) returns (dropped: multiset<Piece>)
    requires Callable(e) && Possible(s, e) && Inv(s)
    ensures Inv(Next(s, e).0)
    ensures Balanced(s, Next(s, e).0, TakenBy(s, e), multiset(Next(s, e).1.released), dropped)
  {
    hide Balanced, Bounded, Expired, Size, Waiting, Begun, Joined, Finished, KeyOf, Full, Admitted;
    match e {
      case Begin(packet, now, victim) =>
        var first := AdmittedBalanced(s, KeyOf(packet), now, victim);
        var t := Admitted(s, KeyOf(packet), now, victim);
        var second := BegunBalanced(t, KeyOf(packet), now);
        dropped := first + second;
        BalancedChain(s, t, Next(s, e).0, first, multiset{}, multiset{}, second);
      case Later(packet, address, now, victim) =>
        var first := AdmittedBalanced(s, KeyOf(packet), now, victim);
        var t := Admitted(s, KeyOf(packet), now, victim);
        var second := JoinedBalanced(t, KeyOf(packet), Piece(packet, address), now);
        dropped := first + second;
        BalancedChain(s, t, Next(s, e).0, first, TakenBy(s, e), multiset{}, second);
      case Finish(ticket, route, now) =>
        dropped := FinishedBalanced(s, ticket, route, now);
      case Expire(now) =>
        dropped := ExpiredBalanced(s, now);
    }
    BalancedPending(s, Next(s, e).0, TakenBy(s, e), multiset(Next(s, e).1.released), dropped);
  }

  // ----- runs -----

  ghost predicate CallableRun(run: seq<Event>) {
    forall i :: 0 <= i < |run| ==> Callable(run[i])
  }

  ghost function After(run: seq<Event>): State
    requires CallableRun(run)
  {
    if run == [] then INITIAL else Next(After(run[..|run| - 1]), run[|run| - 1]).0
  }

  ghost predicate PossibleRun(run: seq<Event>)
    requires CallableRun(run)
  {
    forall i :: 0 <= i < |run| ==> Possible(After(run[..i]), run[i])
  }

  ghost function ReplyAt(run: seq<Event>, i: nat): Reply
    requires CallableRun(run) && i < |run|
  {
    Next(After(run[..i]), run[i]).1
  }

  /** The pieces a run was told are held. */
  ghost function AllTaken(run: seq<Event>): multiset<Piece>
    requires CallableRun(run)
  {
    if run == [] then multiset{} else AllTaken(run[..|run| - 1]) + TakenBy(After(run[..|run| - 1]), run[|run| - 1])
  }

  /** The pieces a run released. */
  ghost function AllReleased(run: seq<Event>): multiset<Piece>
    requires CallableRun(run)
  {
    if run == [] then multiset{} else AllReleased(run[..|run| - 1]) + multiset(ReplyAt(run, |run| - 1).released)
  }

  /** Over every run each held piece is still held, was released once, or was counted as discarded. */
  lemma {:induction false} Accounting(run: seq<Event>) returns (dropped: multiset<Piece>)
    requires CallableRun(run) && PossibleRun(run)
    ensures Inv(After(run))
    ensures AllTaken(run) == Waiting(After(run).datagrams) + AllReleased(run) + dropped
    ensures After(run).discarded == |dropped|
  {
    hide Next, Inv, Size, Waiting, Possible, Callable, TakenBy;
    if run == [] {
      dropped := multiset{};
      StartInv();
    } else {
      var n := |run| - 1;
      var init, e := run[..n], run[n];
      assert forall i :: 0 <= i < n ==> init[..i] == run[..i];
      var before := Accounting(init);
      var now := StepKeeps(After(init), e);
      dropped := before + now;
      assert ReplyAt(run, n) == Next(After(init), e).1;
      Combine(Waiting(After(init).datagrams), Waiting(After(run).datagrams), AllTaken(init), TakenBy(After(init), e),
              AllReleased(init), multiset(ReplyAt(run, n).released), before, now);
    }
  }

  lemma Combine(w: multiset<Piece>, w': multiset<Piece>, taken: multiset<Piece>, t: multiset<Piece>,
                released: multiset<Piece>, r: multiset<Piece>, dropped: multiset<Piece>, d: multiset<Piece>)
    requires taken == w + released + dropped && w + t == w' + r + d
    ensures taken + t == w' + (released + r) + (dropped + d)
  {
    assert taken + t == (w + t) + released + dropped;
  }

  lemma StartInv()
    ensures Inv(INITIAL) && Waiting(INITIAL.datagrams) == multiset{}
  {
    NothingWaits();
  }

  // ----- generations -----

  ghost predicate Numbered(s: State) {
    forall k :: k in s.datagrams ==> s.datagrams[k].generation <= s.generation
  }

  lemma AdmittedKeepsEntries(s: State, key: Key, now: int, victim: Key)
    ensures var t := Admitted(s, key, now, victim);
            && t.generation == s.generation
            && forall k :: k in t.datagrams ==> k in s.datagrams && t.datagrams[k] == s.datagrams[k]
  {
    hide Size, Waiting, Live;
  }

  lemma StepNumbered(s: State, e: Event)
    requires Callable(e) && Numbered(s) && s.generation < GENERATIONS - 1
    ensures Numbered(Next(s, e).0)
    ensures s.generation <= Next(s, e).0.generation <= s.generation + 1
    ensures e.Begin? ==> Next(s, e).0.generation == s.generation + 1
  {
    hide Size, Waiting, Live, Admitted, KeyOf;
    match e {
      case Begin(packet, now, victim) => AdmittedKeepsEntries(s, KeyOf(packet), now, victim);
      case Later(packet, address, now, victim) => AdmittedKeepsEntries(s, KeyOf(packet), now, victim);
      case Finish(ticket, route, now) =>
      case Expire(now) =>
    }
  }

  lemma AfterStep(run: seq<Event>, i: nat)
    requires CallableRun(run) && i < |run|
    ensures CallableRun(run[..i]) && CallableRun(run[..i + 1])
    ensures After(run[..i + 1]) == Next(After(run[..i]), run[i]).0
  {
    hide Next, Callable;
    assert run[..i + 1][..i] == run[..i];
  }

  lemma {:induction false} RunNumbered(run: seq<Event>, i: nat)
    requires CallableRun(run) && i <= |run| < GENERATIONS
    ensures Numbered(After(run[..i])) && After(run[..i]).generation <= i
  {
    hide Next, Numbered, After;
    if i == 0 {
      StartNumbered(run);
    } else {
      RunNumbered(run, i - 1);
      AfterStep(run, i - 1);
      StepNumbered(After(run[..i - 1]), run[i - 1]);
    }
  }

  lemma StartNumbered(run: seq<Event>)
    requires CallableRun(run)
    ensures Numbered(After(run[..0])) && After(run[..0]).generation == 0
  {
  }

  lemma {:induction false} GenerationsGrow(run: seq<Event>, i: nat, j: nat)
    requires CallableRun(run) && i <= j <= |run| < GENERATIONS
    ensures After(run[..i]).generation <= After(run[..j]).generation
  {
    hide Next, After;
    if i < j {
      GenerationsGrow(run, i, j - 1);
      RunNumbered(run, j - 1);
      AfterStep(run, j - 1);
      StepNumbered(After(run[..j - 1]), run[j - 1]);
    }
  }

  /** Two calls of `begin` never hand out the same ticket, so a ticket overtaken by a newer datagram
      with the same key is stale for good. */
  lemma TicketsDiffer(run: seq<Event>, i: nat, j: nat)
    requires CallableRun(run) && |run| < GENERATIONS && i < j < |run| && run[i].Begin? && run[j].Begin?
    ensures ReplyAt(run, i).ticket.Some? && ReplyAt(run, j).ticket.Some?
    ensures ReplyAt(run, i).ticket.value.generation < ReplyAt(run, j).ticket.value.generation
  {
    hide After, Numbered, Admitted, Begun, KeyOf;
    RunNumbered(run, i);
    RunNumbered(run, j);
    AfterStep(run, i);
    StepNumbered(After(run[..i]), run[i]);
    StepNumbered(After(run[..j]), run[j]);
    GenerationsGrow(run, i + 1, j);
  }

  /** The datagram that `begin` numbered `g` is still the one under `key`. */
  ghost predicate Lives(s: State, key: Key, g: nat) {
    key in s.datagrams && s.datagrams[key].generation == g
  }

  /** A datagram that has been replaced, has expired or was evicted never comes back under its number. */
  lemma StaysGone(s: State, e: Event, key: Key, g: nat)
    requires Callable(e) && !Lives(s, key, g) && 0 < g <= s.generation < GENERATIONS - 1
    ensures !Lives(Next(s, e).0, key, g)
  {
    hide Size, Waiting, Live, Admitted, KeyOf;
    match e {
      case Begin(packet, now, victim) => AdmittedKeepsEntries(s, KeyOf(packet), now, victim);
      case Later(packet, address, now, victim) => AdmittedKeepsEntries(s, KeyOf(packet), now, victim);
      case Finish(ticket, route, now) =>
      case Expire(now) => ExpiredKeepsEntries(s, now);
    }
  }

  lemma {:induction false} GoneForGood(run: seq<Event>, key: Key, g: nat, m: nat, k: nat)
    requires CallableRun(run) && m <= k <= |run| < GENERATIONS && 0 < g <= After(run[..m]).generation
    requires !Lives(After(run[..m]), key, g)
    ensures !Lives(After(run[..k]), key, g)
  {
    hide Next, Lives, After;
    if m < k {
      GoneForGood(run, key, g, m, k - 1);
      GenerationsGrow(run, m, k - 1);
      RunNumbered(run, k - 1);
      AfterStep(run, k - 1);
      StaysGone(After(run[..k - 1]), run[k - 1], key, g);
    }
  }

  lemma TicketIs(run: seq<Event>, b: nat)
    requires CallableRun(run) && b < |run| < GENERATIONS && run[b].Begin?
    ensures ReplyAt(run, b).ticket == Some(Ticket(KeyOf(run[b].packet), After(run[..b + 1]).generation))
    ensures After(run[..b + 1]).generation > 0
  {
    hide After, Numbered, Admitted, KeyOf;
    RunNumbered(run, b);
    AfterStep(run, b);
    StepNumbered(After(run[..b]), run[b]);
  }

  /** A ticket whose datagram was at any time after its `begin` replaced, expired or evicted releases
      nothing and changes nothing, in every run. */
  lemma OvertakenTicket(run: seq<Event>, b: nat, m: nat, k: nat)
    requires CallableRun(run) && |run| < GENERATIONS && b < m <= k < |run| && run[b].Begin?
    requires var ticket := ReplyAt(run, b).ticket;
             && ticket.Some? && !Lives(After(run[..m]), ticket.value.key, ticket.value.generation)
             && run[k].Finish? && run[k].ticket == ticket.value
    ensures ReplyAt(run, k).released == [] && After(run[..k + 1]) == After(run[..k])
  {
    hide After;
    var ticket := ReplyAt(run, b).ticket.value;
    TicketIs(run, b);
    GenerationsGrow(run, b + 1, m);
    GoneForGood(run, ticket.key, ticket.generation, m, k);
    AfterStep(run, k);
  }

  // ----- one route per datagram -----

  predicate Finishes(e: Event, key: Key, g: nat) {
    e.Finish? && e.ticket == Ticket(key, g)
  }

  predicate Concerns(e: Event, key: Key)
    requires Callable(e)
  {
    e.Later? && KeyOf(e.packet) == key
  }

  /** A verdict stands while the datagram lives, unless its own ticket overrides it; Drop always stands. */
  lemma VerdictStands(s: State, e: Event, key: Key, g: nat, route: Route)
    requires Callable(e) && Lives(s, key, g) && s.datagrams[key].route == Some(route) &&
             0 < g <= s.generation < GENERATIONS - 1
    requires Lives(Next(s, e).0, key, g)
    requires Finishes(e, key, g) ==> route == Drop
    ensures Next(s, e).0.datagrams[key].route == Some(route)
    ensures Concerns(e, key) ==> Next(s, e).1.action == Some(Routed(route))
  {
    hide Size, Waiting, Live, Admitted, KeyOf;
    match e {
      case Begin(packet, now, victim) => AdmittedKeepsEntries(s, KeyOf(packet), now, victim);
      case Later(packet, address, now, victim) =>
        AdmittedKeepsEntries(s, KeyOf(packet), now, victim);
        var t := Admitted(s, KeyOf(packet), now, victim);
        JoinedKeepsVerdict(t, KeyOf(packet), Piece(packet, address), now, key, g, s.datagrams[key]);
      case Finish(ticket, r, now) =>
      case Expire(now) =>
        ExpiredKeepsEntries(s, now);
    }
  }

  lemma ExpiredKeepsEntries(s: State, now: int)
    ensures var t := Expired(s, now);
            forall k :: k in t.datagrams ==> k in s.datagrams && t.datagrams[k] == s.datagrams[k]
  {
    hide Size, Waiting, Live;
  }

  lemma JoinedKeepsVerdict(t: State, at: Key, piece: Piece, now: int, key: Key, g: nat, d: Datagram)
    requires g > 0 && d.generation == g && d.route.Some? && (key in t.datagrams ==> t.datagrams[key] == d)
    requires Lives(Joined(t, at, piece, now).0, key, g)
    ensures Joined(t, at, piece, now).0.datagrams[key].route == d.route
    ensures at == key ==> Joined(t, at, piece, now).1 == Routed(d.route.value)
  {
    hide ByteSum;
  }

  /** A verdict other than Drop is only ever given by the datagram's own ticket. */
  lemma VerdictGiven(s: State, e: Event, key: Key, g: nat)
    requires Callable(e) && Lives(s, key, g) && Lives(Next(s, e).0, key, g) && g > 0
    requires s.datagrams[key].route.None? || s.datagrams[key].route == Some(Drop)
    requires g <= s.generation < GENERATIONS - 1
    requires !Finishes(e, key, g)
    ensures var r := Next(s, e).0.datagrams[key].route; r.None? || r == Some(Drop)
  {
    hide Size, Waiting, Live, Admitted, KeyOf;
    match e {
      case Begin(packet, now, victim) => AdmittedKeepsEntries(s, KeyOf(packet), now, victim);
      case Later(packet, address, now, victim) => AdmittedKeepsEntries(s, KeyOf(packet), now, victim);
      case Finish(ticket, r, now) =>
      case Expire(now) => ExpiredKeepsEntries(s, now);
    }
  }

  /** From event `i` to event `j` the datagram numbered `g` lives under `key`. */
  ghost predicate Life(run: seq<Event>, key: Key, g: nat, i: nat, j: nat)
    requires CallableRun(run) && j <= |run|
  {
    forall m :: i <= m <= j ==> Lives(After(run[..m]), key, g)
  }

  /** A ticket is consumed by the call that takes it. */
  predicate TicketsOnce(run: seq<Event>) {
    forall i, j :: 0 <= i < j < |run| && run[i].Finish? && run[j].Finish? ==> run[i].ticket != run[j].ticket
  }

  /** Once given, the verdict is what every later piece gets for as long as the datagram lives. */
  lemma {:induction false} VerdictLasts(run: seq<Event>, key: Key, g: nat, i: nat, j: nat, route: Route)
    requires CallableRun(run) && |run| < GENERATIONS && g > 0 && i <= j <= |run|
    requires Life(run, key, g, i, j) && After(run[..i]).datagrams[key].route == Some(route)
    requires route == Drop || forall m :: i <= m < j ==> !Finishes(run[m], key, g)
    ensures After(run[..j]).datagrams[key].route == Some(route)
    ensures forall m :: i <= m < j && Concerns(run[m], key) ==> ReplyAt(run, m).action == Some(Routed(route))
  {
    hide Next, After, Finishes, Concerns;
    if i < j {
      VerdictLasts(run, key, g, i, j - 1, route);
      RunNumbered(run, j - 1);
      AfterStep(run, j - 1);
      assert Lives(After(run[..j - 1]), key, g) && Lives(After(run[..j]), key, g);
      VerdictStands(After(run[..j - 1]), run[j - 1], key, g, route);
    }
  }

  /** A verdict other than Drop was given by the ticket, since the datagram began. */
  lemma VerdictSource(run: seq<Event>, key: Key, g: nat, b: nat, i: nat)
    requires CallableRun(run) && |run| < GENERATIONS && g > 0 && b <= i <= |run|
    requires Life(run, key, g, b, i) && After(run[..b]).datagrams[key].route.None?
    requires After(run[..i]).datagrams[key].route.Some? && After(run[..i]).datagrams[key].route != Some(Drop)
    ensures exists f :: b <= f < i && Finishes(run[f], key, g)
  {
    hide Next, After, Finishes;
    var none := forall f :: b <= f < i ==> !Finishes(run[f], key, g);
    if none {
      NoVerdict(run, key, g, b, i);
    }
  }

  lemma {:induction false} NoVerdict(run: seq<Event>, key: Key, g: nat, b: nat, i: nat)
    requires CallableRun(run) && |run| < GENERATIONS && g > 0 && b <= i <= |run|
    requires Life(run, key, g, b, i) && After(run[..b]).datagrams[key].route.None?
    requires forall f :: b <= f < i ==> !Finishes(run[f], key, g)
    ensures var r := After(run[..i]).datagrams[key].route; r.None? || r == Some(Drop)
  {
    hide Next, After, Finishes;
    if b < i {
      NoVerdict(run, key, g, b, i - 1);
      RunNumbered(run, i - 1);
      AfterStep(run, i - 1);
      assert Lives(After(run[..i - 1]), key, g) && Lives(After(run[..i]), key, g);
      VerdictGiven(After(run[..i - 1]), run[i - 1], key, g);
    }
  }

  /** One route per datagram. Between a `begin` and the datagram's replacement, expiry or eviction, all
      the pieces that are routed get one and the same route; an overflow makes it Drop for the rest. */
  lemma OneRoute(run: seq<Event>, key: Key, g: nat, b: nat, i: nat, j: nat, route: Route)
    requires CallableRun(run) && |run| < GENERATIONS && TicketsOnce(run) && g > 0
    requires b <= i < j < |run| && Life(run, key, g, b, j + 1) && After(run[..b]).datagrams[key].route.None?
    requires Concerns(run[i], key) && Concerns(run[j], key)
    requires ReplyAt(run, i).action == Some(Routed(route))
    ensures ReplyAt(run, j).action == Some(Routed(route))
  {
    hide After, Finishes, KeyOf, Expired;
    AfterStep(run, i);
    RoutedIsStored(After(run[..i]), run[i], key, route);
    assert Lives(After(run[..i + 1]), key, g);
    if route != Drop {
      VerdictSource(run, key, g, b, i + 1);
      var f :| b <= f < i + 1 && Finishes(run[f], key, g);
      OnlyOnce(run, key, g, f, i + 1, j);
    }
    VerdictLasts(run, key, g, i + 1, j, route);
    assert Lives(After(run[..j + 1]), key, g) && Lives(After(run[..j]), key, g);
    NextRouted(run, key, g, j, route);
  }

  lemma OnlyOnce(run: seq<Event>, key: Key, g: nat, f: nat, i: nat, j: nat)
    requires TicketsOnce(run) && f < i <= j <= |run| && f < |run| && Finishes(run[f], key, g)
    ensures forall m :: i <= m < j ==> !Finishes(run[m], key, g)
  {
  }

  lemma RoutedIsStored(s: State, e: Event, key: Key, route: Route)
    requires Callable(e) && Concerns(e, key) && Next(s, e).1.action == Some(Routed(route))
    ensures key in Next(s, e).0.datagrams && Next(s, e).0.datagrams[key].route == Some(route)
  {
    hide Size, Waiting, Live, Admitted, KeyOf;
  }

  lemma NextRouted(run: seq<Event>, key: Key, g: nat, j: nat, route: Route)
    requires CallableRun(run) && j < |run| < GENERATIONS && Concerns(run[j], key) && g > 0
    requires Lives(After(run[..j]), key, g) && After(run[..j]).datagrams[key].route == Some(route)
    ensures Lives(After(run[..j + 1]), key, g) ==> ReplyAt(run, j).action == Some(Routed(route))
  {
    hide After, Finishes, KeyOf, Next;
    AfterStep(run, j);
    RunNumbered(run, j);
    if Lives(After(run[..j + 1]), key, g) {
      FinishesNot(run[j], key, g);
      VerdictStands(After(run[..j]), run[j], key, g, route);
    }
  }

  lemma FinishesNot(e: Event, key: Key, g: nat)
    requires e.Later?
    ensures !Finishes(e, key, g)
  {
  }

  /** What `finish` releases travels with every other piece: none was routed before, and every later
      one gets the route it was released with. */
  lemma ReleasedTogether(run: seq<Event>, key: Key, g: nat, b: nat, f: nat, j: nat)
    requires CallableRun(run) && |run| < GENERATIONS && TicketsOnce(run) && g > 0
    requires b <= f < |run| && b <= j < |run| && f != j && Concerns(run[j], key)
    requires Life(run, key, g, b, Max(f, j) + 1) && After(run[..b]).datagrams[key].route.None?
    requires Finishes(run[f], key, g) && ReplyAt(run, f).released != []
    ensures j > f ==> ReplyAt(run, j).action == Some(Routed(run[f].route))
    ensures j < f ==> ReplyAt(run, j).action == Some(Held)
  {
    hide After, KeyOf, Expired, Concerns;
    AfterStep(run, f);
    assert Lives(After(run[..f]), key, g);
    ReleaseGivesVerdict(After(run[..f]), run[f], key, g);
    if j > f {
      OnlyOnce(run, key, g, f, f + 1, j);
      VerdictLasts(run, key, g, f + 1, j, run[f].route);
      assert Lives(After(run[..j]), key, g) && Lives(After(run[..j + 1]), key, g);
      NextRouted(run, key, g, j, run[f].route);
    } else if ReplyAt(run, j).action != Some(Held) {
      RepliesToLater(After(run[..j]), run[j], key);
      var route := ReplyAt(run, j).action.value.route;
      AfterStep(run, j);
      RoutedIsStored(After(run[..j]), run[j], key, route);
      NotYet(run, key, g, b, f);
      NoVerdict(run, key, g, b, j + 1);
      VerdictLasts(run, key, g, j + 1, f, route);
      assert false;
    }
  }

  lemma NotYet(run: seq<Event>, key: Key, g: nat, b: nat, f: nat)
    requires TicketsOnce(run) && b <= f < |run| && Finishes(run[f], key, g)
    ensures forall m :: b <= m < f ==> !Finishes(run[m], key, g)
  {
  }

  lemma RepliesToLater(s: State, e: Event, key: Key)
    requires Callable(e) && Concerns(e, key)
    ensures Next(s, e).1.action.Some?
  {
    hide Size, Waiting, Live, Admitted, KeyOf;
  }

  lemma ReleaseGivesVerdict(s: State, e: Event, key: Key, g: nat)
    requires Callable(e) && Lives(s, key, g) && Finishes(e, key, g) && Next(s, e).1.released != []
    ensures s.datagrams[key].route != Some(Drop) && e.route != Drop
    ensures Next(s, e).0.datagrams[key].route == Some(e.route)
  {
    hide ByteSum;
  }
}
