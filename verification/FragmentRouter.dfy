/** The fragment router of `engine/src/fragment_router.rs`: later fragments wait for the verdict on
    their first one and share it. */
module FragmentRouter {
  import opened Bytes
  import opened Ipv4Split

  /** Milliseconds. */
  const PENDING_TTL := 100
  const VERDICT_TTL := 5000
  const MAX_DATAGRAMS := 64
  const MAX_PIECES := 64
  const MAX_PENDING_BYTES := 1024 * 1024
  const GENERATIONS := 0x1_0000_0000_0000_0000

  datatype Route = Tunnel(redirect: Option<nat>, node: nat) | Bypass | Drop

  /** A held fragment and the capture address it came with. */
  datatype Piece = Piece(packet: seq<byte>, address: nat)

  datatype Datagram = Datagram(started: int, generation: nat, route: Option<Route>, waiting: seq<Piece>)

  datatype Ticket = Ticket(key: Key, generation: nat)

  datatype State = State(datagrams: map<Key, Datagram>, generation: nat, pending: int, discarded: nat)

  const INITIAL := State(map[], 0, 0, 0)

  // ----- what is held -----

  function ByteSum(waiting: seq<Piece>): nat {
    if waiting == [] then 0 else ByteSum(waiting[..|waiting| - 1]) + |waiting[|waiting| - 1].packet|
  }

  /** The octets of a bag of pieces. */
  ghost function Size(bag: multiset<Piece>): nat {
    if bag == multiset{} then 0 else var p :| p in bag; |p.packet| + Size(bag - multiset{p})
  }

  /** All the pieces that wait, whatever datagram they wait for. */
  ghost function Waiting(m: map<Key, Datagram>): multiset<Piece>
    decreases |m|
  {
    if m == map[] then multiset{} else var k :| k in m; multiset(m[k].waiting) + Waiting(m - {k})
  }

  lemma {:induction false} SizeRemove(bag: multiset<Piece>, p: Piece)
    requires p in bag
    ensures Size(bag) == |p.packet| + Size(bag - multiset{p})
    decreases |bag|
  {
    var q :| q in bag && Size(bag) == |q.packet| + Size(bag - multiset{q});
    if q != p {
      SizeRemove(bag - multiset{q}, p);
      SizeRemove(bag - multiset{p}, q);
      assert bag - multiset{q} - multiset{p} == bag - multiset{p} - multiset{q};
    }
  }

  lemma SizeAdd(bag: multiset<Piece>, p: Piece)
    ensures Size(bag + multiset{p}) == Size(bag) + |p.packet|
  {
    SizeRemove(bag + multiset{p}, p);
    assert bag + multiset{p} - multiset{p} == bag;
  }

  lemma {:induction false} SizeUnion(a: multiset<Piece>, b: multiset<Piece>)
    ensures Size(a + b) == Size(a) + Size(b)
    decreases |b|
  {
    if b == multiset{} {
      assert a + b == a;
    } else {
      var p :| p in b;
      SizeUnion(a, b - multiset{p});
      SizeAdd(a + (b - multiset{p}), p);
      SizeAdd(b - multiset{p}, p);
      assert a + (b - multiset{p}) + multiset{p} == a + b && b - multiset{p} + multiset{p} == b;
    }
  }

  lemma {:induction false} SizeIsByteSum(waiting: seq<Piece>)
    ensures Size(multiset(waiting)) == ByteSum(waiting)
  {
    if waiting != [] {
      var init, last := waiting[..|waiting| - 1], waiting[|waiting| - 1];
      SizeIsByteSum(init);
      SizeAdd(multiset(init), last);
      assert waiting == init + [last];
    }
  }

  lemma {:induction false} WaitingRemove(m: map<Key, Datagram>, k: Key)
    requires k in m
    ensures Waiting(m) == multiset(m[k].waiting) + Waiting(m - {k})
    decreases |m|
  {
    var j :| j in m && Waiting(m) == multiset(m[j].waiting) + Waiting(m - {j});
    if j != k {
      assert (m - {j}).Keys == m.Keys - {j} && (m - {k}).Keys == m.Keys - {k};
      WaitingRemove(m - {j}, k);
      WaitingRemove(m - {k}, j);
      assert m - {j} - {k} == m - {k} - {j};
    }
  }

  lemma WaitingPut(m: map<Key, Datagram>, k: Key, d: Datagram)
    ensures Waiting(m[k := d]) == multiset(d.waiting) + Waiting(m - {k})
  {
    WaitingRemove(m[k := d], k);
    assert m[k := d] - {k} == m - {k};
  }

  // ----- the operations -----

  predicate Live(d: Datagram, now: int) {
    now - d.started < if d.route.Some? then VERDICT_TTL else PENDING_TTL
  }

  function LiveOnes(m: map<Key, Datagram>, now: int): map<Key, Datagram> {
    map k | k in m && Live(m[k], now) :: m[k]
  }

  function DeadOnes(m: map<Key, Datagram>, now: int): map<Key, Datagram> {
    map k | k in m && !Live(m[k], now) :: m[k]
  }

  /** What waits is what waits for the living and what waits for the dead. */
  lemma {:induction false} WaitingPartition(m: map<Key, Datagram>, now: int)
    ensures Waiting(m) == Waiting(LiveOnes(m, now)) + Waiting(DeadOnes(m, now))
    decreases |m|
  {
    hide Live;
    if m == map[] {
      assert LiveOnes(m, now) == map[] && DeadOnes(m, now) == map[];
    } else {
      var k :| k in m;
      assert (m - {k}).Keys == m.Keys - {k};
      WaitingPartition(m - {k}, now);
      hide Waiting;
      WaitingRemove(m, k);
      PartitionWithout(m, k, now);
      if Live(m[k], now) {
        WaitingRemove(LiveOnes(m, now), k);
      } else {
        WaitingRemove(DeadOnes(m, now), k);
      }
    }
  }

  lemma PartitionWithout(m: map<Key, Datagram>, k: Key, now: int)
    requires k in m
    ensures LiveOnes(m - {k}, now) == LiveOnes(m, now) - {k} && DeadOnes(m - {k}, now) == DeadOnes(m, now) - {k}
    ensures Live(m[k], now) ==> DeadOnes(m, now) - {k} == DeadOnes(m, now)
    ensures !Live(m[k], now) ==> LiveOnes(m, now) - {k} == LiveOnes(m, now)
  {
    hide Live;
  }

  ghost function Expired(s: State, now: int): State {
    var dead := Waiting(DeadOnes(s.datagrams, now));
    State(LiveOnes(s.datagrams, now), s.generation, s.pending - Size(dead), s.discarded + |dead|)
  }

  /** The pieces of one datagram given up and counted. */
  function GivenUp(s: State, waiting: seq<Piece>): State {
    s.(pending := s.pending - ByteSum(waiting), discarded := s.discarded + |waiting|)
  }

  predicate Full(s: State, key: Key) {
    key !in s.datagrams && |s.datagrams| >= MAX_DATAGRAMS
  }

  predicate Oldest(m: map<Key, Datagram>, key: Key) {
    key in m && forall k :: k in m ==> m[key].started <= m[k].started
  }

  function MadeRoom(s: State, key: Key, victim: Key): State {
    if Full(s, key) && victim in s.datagrams
    then GivenUp(s, s.datagrams[victim].waiting).(datagrams := s.datagrams - {victim})
    else s
  }

  ghost function Admitted(s: State, key: Key, now: int, victim: Key): State {
    MadeRoom(Expired(s, now), key, victim)
  }

  function NextGeneration(g: nat): nat {
    Max((g + 1) % GENERATIONS, 1)
  }

  function Begun(s: State, key: Key, now: int): State {
    var g := NextGeneration(s.generation);
    var former := if key in s.datagrams then s.datagrams[key].waiting else [];
    var keeps := key in s.datagrams && s.datagrams[key].generation == 0;
    var next := if key in s.datagrams && !keeps then GivenUp(s, former) else s;
    next.(generation := g, datagrams := s.datagrams[key := Datagram(now, g, None, if keeps then former else [])])
  }

  datatype Action = Routed(route: Route) | Held

  function Joined(s: State, key: Key, piece: Piece, now: int): (State, Action) {
    var d := if key in s.datagrams then s.datagrams[key] else Datagram(now, 0, None, []);
    if d.route.Some? then (s, Routed(d.route.value))
    else if |d.waiting| >= MAX_PIECES || s.pending + |piece.packet| > MAX_PENDING_BYTES then
      (GivenUp(s, d.waiting).(datagrams := s.datagrams[key := d.(waiting := [], route := Some(Drop))]), Routed(Drop))
    else
      (s.(pending := s.pending + |piece.packet|, datagrams := s.datagrams[key := d.(waiting := d.waiting +
          [piece])]), Held)
  }

  function Finished(s: State, ticket: Ticket, route: Route, now: int): (State, seq<Piece>) {
    if ticket.key !in s.datagrams || s.datagrams[ticket.key].generation != ticket.generation then (s, [])
    else
      var d := s.datagrams[ticket.key];
      var verdict := if d.route == Some(Drop) then Drop else route;
      var done := s.datagrams[ticket.key := d.(route := Some(verdict), started := now, waiting := [])];
      if verdict == Drop then (GivenUp(s, d.waiting).(datagrams := done), [])
      else (s.(pending := s.pending - ByteSum(d.waiting), datagrams := done), d.waiting)
  }

  datatype Event =
    | Begin(packet: seq<byte>, now: int, victim: Key)
    | Later(packet: seq<byte>, address: nat, now: int, victim: Key)
    | Finish(ticket: Ticket, route: Route, now: int)
    | Expire(now: int)

  predicate Callable(e: Event) {
    (e.Begin? || e.Later?) ==> |e.packet| >= HEADER
  }

  /** What a call gives its caller. */
  datatype Reply = Reply(ticket: Option<Ticket>, action: Option<Action>, released: seq<Piece>)

  ghost function Next(s: State, e: Event): (State, Reply)
    requires Callable(e)
  {
    match e
    case Begin(packet, now, victim) =>
      var s' := Begun(Admitted(s, KeyOf(packet), now, victim), KeyOf(packet), now);
      (s', Reply(Some(Ticket(KeyOf(packet), s'.generation)), None, []))
    case Later(packet, address, now, victim) =>
      var (s', action) := Joined(Admitted(s, KeyOf(packet), now, victim), KeyOf(packet), Piece(packet, address), now);
      (s', Reply(None, Some(action), []))
    case Finish(ticket, route, now) =>
      var (s', released) := Finished(s, ticket, route, now);
      (s', Reply(None, None, released))
    case Expire(now) => (Expired(s, now), Reply(None, None, []))
  }

  // ----- the class -----

  class Router {
    var datagrams: map<Key, Datagram>
    var generation: nat
    var pending: int
    var discarded: nat

    ghost function Contents(): State
      reads this
    {
      State(datagrams, generation, pending, discarded)
    }

    constructor ()
      ensures Contents() == INITIAL
    {
      datagrams, generation, pending, discarded := map[], 0, 0, 0;
    }

    /** Drops each datagram that has outlived its time, one after another. */
    method ExpireOld(now: int)
      modifies this
      ensures Contents() == Expired(old(Contents()), now)
    {
      hide Size, Waiting, Live;
      GiveUpDatagrams(DeadOnes(datagrams, now));
      datagrams := LiveOnes(datagrams, now);
    }

    method GiveUpDatagrams(dead: map<Key, Datagram>)
      modifies this`pending, this`discarded
      ensures pending == old(pending) - Size(Waiting(dead)) && discarded == old(discarded) + |Waiting(dead)|
    {
      hide Size, Waiting;
      var left := dead;
      while left != map[]
        invariant pending - Size(Waiting(left)) == old(pending) - Size(Waiting(dead))
        invariant discarded + |Waiting(left)| == old(discarded) + |Waiting(dead)|
        decreases |left|
      {
        var k :| k in left;
        GiveUpWaiting(left[k].waiting);
        WaitingRemove(left, k);
        SizeIsByteSum(left[k].waiting);
        SizeUnion(multiset(left[k].waiting), Waiting(left - {k}));
        assert (left - {k}).Keys == left.Keys - {k};
        left := left - {k};
      }
      NothingWaits();
    }

    method GiveUpWaiting(waiting: seq<Piece>)
      modifies this`pending, this`discarded
      ensures pending == old(pending) - ByteSum(waiting) && discarded == old(discarded) + |waiting|
    {
      pending := pending - ByteSum(waiting);
      discarded := discarded + |waiting|;
    }

    method MakeRoom(key: Key) returns (victim: Key)
      modifies this
      ensures Contents() == MadeRoom(old(Contents()), key, victim)
      ensures key !in old(datagrams) && |old(datagrams)| >= 64 ==>
                victim in old(datagrams)
                && forall k :: k in old(datagrams) ==> old(datagrams)[victim].started <= old(datagrams)[k].started
    {
      victim := key;
      if key !in datagrams && |datagrams| >= MAX_DATAGRAMS {
        OldestExists(datagrams);
        victim :| Oldest(datagrams, victim);
        GiveUpWaiting(datagrams[victim].waiting);
        datagrams := datagrams - {victim};
      }
    }

    method BeginFirst(packet: seq<byte>, now: int) returns (ticket: Ticket, victim: Key)
      requires |packet| >= HEADER
      modifies this
      ensures (Contents(), Reply(Some(ticket), None, [])) == Next(old(Contents()), Begin(packet, now, victim))
      ensures var live := Expired(old(Contents()), now).datagrams;
              KeyOf(packet) !in live && |live| >= 64 ==>
                victim in live && forall k :: k in live ==> live[victim].started <= live[k].started
    {
      hide KeyOf, Expired;
      ExpireOld(now);
      var key := KeyOf(packet);
      victim := MakeRoom(key);
      generation := Max((generation + 1) % GENERATIONS, 1);
      var waiting: seq<Piece> := [];
      if key in datagrams {
        var former := datagrams[key];
        if former.generation == 0 {
          waiting := former.waiting;
        } else {
          GiveUpWaiting(former.waiting);
        }
      }
      datagrams := datagrams[key := Datagram(now, generation, None, waiting)];
      ticket := Ticket(key, generation);
    }

    method LaterPiece(packet: seq<byte>, address: nat, now: int) returns (action: Action, victim: Key)
      requires |packet| >= HEADER
      modifies this
      ensures (Contents(), Reply(None, Some(action), [])) == Next(old(Contents()), Later(packet, address, now, victim))
      ensures var live := Expired(old(Contents()), now).datagrams;
              KeyOf(packet) !in live && |live| >= 64 ==>
                victim in live && forall k :: k in live ==> live[victim].started <= live[k].started
    {
      hide KeyOf, Expired;
      ExpireOld(now);
      var key := KeyOf(packet);
      victim := MakeRoom(key);
      var d := if key in datagrams then datagrams[key] else Datagram(now, 0, None, []);
      if d.route.Some? {
        return Routed(d.route.value), victim;
      }
      if |d.waiting| >= MAX_PIECES || pending + |packet| > MAX_PENDING_BYTES {
        GiveUpWaiting(d.waiting);
        datagrams := datagrams[key := d.(waiting := [], route := Some(Drop))];
        return Routed(Drop), victim;
      }
      pending := pending + |packet|;
      datagrams := datagrams[key := d.(waiting := d.waiting + [Piece(packet, address)])];
      return Held, victim;
    }

    method FinishFirst(ticket: Ticket, route: Route, now: int) returns (released: seq<Piece>)
      modifies this
      ensures (Contents(), Reply(None, None, released)) == Next(old(Contents()), Finish(ticket, route, now))
    {
      if ticket.key !in datagrams || datagrams[ticket.key].generation != ticket.generation {
        return [];
      }
      var d := datagrams[ticket.key];
      var verdict := if d.route == Some(Drop) then Drop else route;
      datagrams := datagrams[ticket.key := d.(route := Some(verdict), started := now, waiting := [])];
      pending := pending - ByteSum(d.waiting);
      if verdict == Drop {
        discarded := discarded + |d.waiting|;
        return [];
      }
      return d.waiting;
    }
  }

  lemma NothingWaits()
    ensures Waiting(map[]) == multiset{} && Size(multiset{}) == 0
  {
  }

  lemma OldestExists(m: map<Key, Datagram>)
    requires |m| > 0
    ensures exists k :: Oldest(m, k)
  {
    var k := Earliest(m, (d: Datagram) => d.started);
    assert Oldest(m, k);
  }
}
