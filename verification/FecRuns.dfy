/** Loss repair over whole runs: what is rebuilt is what was sent, and what can be rebuilt is. */
module FecRuns {
  import opened Bytes
  import opened Parity
  import opened FecFormat
  import opened FecDecoder

  /** The packet sent under each sequence. */
  type Truth = nat -> seq<byte>

  function Truths(members: seq<nat>, t: Truth): (ps: seq<seq<byte>>)
    ensures |ps| == |members| && forall i :: 0 <= i < |ps| ==> ps[i] == t(members[i])
  {
    seq(|members|, i requires 0 <= i < |members| => t(members[i]))
  }

  ghost predicate TrueMembers(members: seq<nat>, t: Truth) {
    forall m <- members :: 0 < |t(m)| <= MAX_PACKET
  }

  lemma TruthsSized(members: seq<nat>, t: Truth)
    requires TrueMembers(members, t)
    ensures Sized(Truths(members, t))
  {
    forall p | p in Truths(members, t) ensures |p| <= MAX_PACKET {
      var i :| 0 <= i < |members| && Truths(members, t)[i] == p;
      assert members[i] in members;
    }
  }

  predicate Distinct(members: seq<nat>) {
    forall i, j :: 0 <= i < j < |members| ==> members[i] != members[j]
  }

  /** The repair of packets that were sent. */
  ghost predicate Made(r: Repair, t: Truth) {
    && ShapedRepair(r) && Distinct(r.members) && TrueMembers(r.members, t)
    && Sized(Truths(r.members, t)) && r.parity == ParityOf(Truths(r.members, t))
  }

  /** Everything the decoder holds is true. */
  ghost predicate Truthful(s: State, t: Truth) {
    && Shaped(s)
    && (forall slot <- s.recent :: slot.packet != [] ==> slot.packet == t(slot.sequence))
    && (forall r <- s.pending :: Made(r, t))
  }

  function Others(members: seq<nat>, lost: nat): (o: seq<nat>)
    ensures forall m <- o :: m in members && m != lost
  {
    if members == [] then [] else (if members[0] == lost then [] else [members[0]]) + Others(members[1..], lost)
  }

  lemma {:induction false} OthersOf(members: seq<nat>, lost: nat)
    requires lost !in members
    ensures Others(members, lost) == members
  {
    if members != [] {
      OthersOf(members[1..], lost);
    }
  }

  lemma {:induction false} OthersIsWithout(members: seq<nat>, k: nat)
    requires Distinct(members) && k < |members|
    ensures Others(members, members[k]) == Without(members, k)
  {
    if k == 0 {
      OthersOf(members[1..], members[0]);
    } else {
      OthersIsWithout(members[1..], k - 1);
      assert Without(members, k) == [members[0]] + Without(members[1..], k - 1);
    }
  }

  /** Folding in what is stored folds in what was sent. */
  lemma {:induction false} FoldStoredIs(s: State, members: seq<nat>, lost: nat, parity: seq<byte>, t: Truth)
    requires Truthful(s, t) && Sized(Truths(Others(members, lost), t)) && FoldStored(s, members, lost, parity).Some?
    ensures FoldStored(s, members, lost, parity).value == FoldIn(parity, Truths(Others(members, lost), t))
  {
    hide XorPad, Frame, Truthful, FoldIn, Stored, Shaped;
    if members == [] {
      FoldInNothing(parity);
    } else if members[0] == lost {
      assert Others(members, lost) == Others(members[1..], lost);
      FoldStoredIs(s, members[1..], lost, parity, t);
    } else {
      var rest := Others(members[1..], lost);
      StoredIsTrue(s, members[0], t);
      TruthsFirst(members[0], rest, t);
      FoldStoredIs(s, members[1..], lost, XorPad(parity, Frame(t(members[0]))), t);
      FoldInFirst(parity, t(members[0]), Truths(rest, t));
    }
  }

  lemma FoldInNothing(parity: seq<byte>)
    ensures FoldIn(parity, []) == parity
  {
  }

  lemma TruthsFirst(first: nat, rest: seq<nat>, t: Truth)
    requires Sized(Truths([first] + rest, t))
    ensures Truths([first] + rest, t) == [t(first)] + Truths(rest, t) && |t(first)| <= MAX_PACKET &&
            Sized(Truths(rest, t))
  {
    var all := Truths([first] + rest, t);
    assert all == [t(first)] + Truths(rest, t);
    assert all[0] in all;
    assert forall p <- Truths(rest, t) :: p in all;
  }

  /** Whatever the repair, folding fails exactly for want of a stored packet or room for it. */
  lemma {:induction false} FoldStoredIff(s: State, members: seq<nat>, lost: nat, parity: seq<byte>)
    requires Shaped(s)
    ensures FoldStored(s, members, lost, parity).Some?
            <==> forall m <- members :: m != lost ==> Stored(s, m).Some? && 2 + |Stored(s, m).value| <= |parity|
  {
    hide XorPad, Frame, Stored, Shaped;
    if members != [] {
      if members[0] == lost {
        FoldStoredIff(s, members[1..], lost, parity);
      } else if Stored(s, members[0]).Some? && 2 + |Stored(s, members[0]).value| <= |parity| {
        var packet := Stored(s, members[0]).value;
        XorPadLength(parity, Frame(packet));
        FoldStoredIff(s, members[1..], lost, XorPad(parity, Frame(packet)));
      } else {
        assert members[0] in members;
      }
    }
  }

  lemma XorPadLength(a: seq<byte>, b: seq<byte>)
    ensures |XorPad(a, b)| >= |a| && (|b| <= |a| ==> |XorPad(a, b)| == |a|)
  {
  }

  lemma StoredIsTrue(s: State, m: nat, t: Truth)
    requires Truthful(s, t)
    ensures Shaped(s)
    ensures Stored(s, m).Some? ==> Stored(s, m).value == t(m)
  {
  }

  /** Rebuilding the `k`th member yields the packet sent under its sequence, and succeeds whenever
      the others are stored. */
  lemma RebuildIs(s: State, r: Repair, k: nat, t: Truth)
    requires Truthful(s, t) && Made(r, t) && k < |r.members|
    ensures Rebuild(s, r, r.members[k]).Some? ==> Rebuild(s, r, r.members[k]).value == t(r.members[k])
    ensures (forall m <- r.members :: m != r.members[k] ==> Stored(s, m).Some?)
            ==> Rebuild(s, r, r.members[k]).Some?
  {
    hide FoldStored, FoldIn, ParityOf, Stored, Shaped, Unframe, Truthful;
    var lost, packets := r.members[k], Truths(r.members, t);
    OthersTruths(r.members, k, t);
    FoldOthers(packets, k);
    UnframeFrame(FoldIn(r.parity, Without(packets, k)), t(lost));
    StoredIsTrue(s, lost, t);
    if FoldStored(s, r.members, lost, r.parity).Some? {
      FoldStoredIs(s, r.members, lost, r.parity, t);
    }
    if forall m <- r.members :: m != lost ==> Stored(s, m).Some? {
      MembersFit(r, t);
      forall m | m in r.members && m != lost ensures 2 + |Stored(s, m).value| <= |r.parity| {
        StoredIsTrue(s, m, t);
      }
      FoldStoredIff(s, r.members, lost, r.parity);
    }
  }

  lemma OthersTruths(members: seq<nat>, k: nat, t: Truth)
    requires Distinct(members) && k < |members| && TrueMembers(members, t)
    ensures var others := Truths(Others(members, members[k]), t);
            others == Without(Truths(members, t), k) && Sized(others)
    ensures 0 < |t(members[k])| <= MAX_PACKET
  {
    assert members[k] in members;
    OthersIsWithout(members, k);
    hide Others, Distinct;
    TruthsWithout(members, k, t);
    assert forall m <- Without(members, k) :: m in members;
    TruthsSized(Without(members, k), t);
  }

  lemma TruthsWithout(members: seq<nat>, k: nat, t: Truth)
    requires k < |members|
    ensures Truths(Without(members, k), t) == Without(Truths(members, t), k)
  {
    var l, r := Truths(Without(members, k), t), Without(Truths(members, t), k);
    assert |l| == |r| && forall i :: 0 <= i < |l| ==> l[i] == r[i];
  }

  lemma MembersFit(r: Repair, t: Truth)
    requires Made(r, t)
    ensures forall m <- r.members :: LENGTH_PREFIX + |t(m)| <= |r.parity|
  {
    hide ParityOf;
    var packets := Truths(r.members, t);
    ParityLength(packets);
    forall m | m in r.members ensures LENGTH_PREFIX + |t(m)| <= |r.parity| {
      var i :| 0 <= i < |r.members| && r.members[i] == m;
      assert packets[i] in packets;
    }
  }

  lemma UnframeFrame(left: seq<byte>, packet: seq<byte>)
    requires 0 < |packet| <= MAX_PACKET && |left| >= LENGTH_PREFIX + |packet|
    requires left[..LENGTH_PREFIX + |packet|] == Frame(packet)
    ensures Unframe(left) == Some(packet)
  {
    var front := left[..LENGTH_PREFIX + |packet|];
    assert WordAt(left, 0) == WordAt(front, 0);
    assert left[LENGTH_PREFIX..LENGTH_PREFIX + |packet|] == front[LENGTH_PREFIX..];
  }

  /** Resolving a true repair against a true cache. */
  lemma ResolveSound(s: State, r: Repair, delivered: Delivered, t: Truth)
    requires Truthful(s, t) && Made(r, t)
    ensures var (s', result) := Resolve(s, r, delivered);
            && Truthful(s', t)
            && (result.Some? ==> result.value.0 in r.members && !delivered(result.value.0)
                                 && result.value.1 == t(result.value.0))
  {
    hide Rebuild, Made;
    var missing := Missing(r.members, delivered);
    if |missing| == 1 {
      assert missing[0] in missing;
      var k :| 0 <= k < |r.members| && r.members[k] == missing[0];
      assert Made(r, t);
      RebuildIs(s, r, k, t);
    }
    assert Made(r, t) ==> ShapedRepair(r) by { MadeShaped(r, t); }
    assert forall q <- s.pending[..] :: q in s.pending;
  }

  lemma MadeShaped(r: Repair, t: Truth)
    ensures Made(r, t) ==> ShapedRepair(r)
  {
  }

  // ----- runs -----

  datatype Event =
    | Remembered(sequence: nat, packet: seq<byte>)
    | Repaired(group: seq<Member>, now: int, delivered: Delivered)
    | Retried(now: int, delivered: Delivered)

  /** Packets are remembered as they were sent, and repairs are made by the encoder of what was sent. */
  ghost predicate Honest(e: Event, t: Truth) {
    match e
    case Remembered(sequence, packet) => packet == t(sequence) && |packet| <= MAX_PACKET
    case Repaired(group, _, _) => Group(group) && forall m <- group :: m.packet == t(m.sequence)
    case Retried(_, _) => true
  }

  ghost function Next(s: State, e: Event, t: Truth): (State, Result)
    requires Shaped(s) && Honest(e, t)
  {
    match e
    case Remembered(sequence, packet) => (Remember(s, sequence, packet), None)
    case Repaired(group, now, delivered) => AcceptRepair(s, RepairOf(group), now, delivered)
    case Retried(now, delivered) => RetryPending(s, now, delivered)
  }

  lemma GroupMade(g: seq<Member>, now: int, t: Truth)
    requires Group(g) && forall m <- g :: m.packet == t(m.sequence)
    ensures Parse(RepairOf(g), now).Some? && Made(Parse(RepairOf(g), now).value, t)
    ensures Parse(RepairOf(g), now).value.members == Sequences(g)
  {
    hide Parse, RepairOf, ParityOf, Group, ShapedRepair, Distinct, Packets, Sequences, Truths;
    GroupSized(g);
    ParseRepairOf(g, now);
    ParsedIsShaped(RepairOf(g), now);
    GroupTruths(g, t);
  }

  lemma GroupTruths(g: seq<Member>, t: Truth)
    requires Group(g) && forall m <- g :: m.packet == t(m.sequence)
    ensures Truths(Sequences(g), t) == Packets(g) && Distinct(Sequences(g)) && TrueMembers(Sequences(g), t)
  {
    assert forall i :: 0 <= i < |g| ==> g[i] in g;
    forall m | m in Sequences(g) ensures 0 < |t(m)| <= MAX_PACKET {
      var i :| 0 <= i < |g| && Sequences(g)[i] == m;
    }
  }

  /** One honest event keeps the decoder truthful, and a packet it returns is the one that was sent. */
  lemma StepSound(s: State, e: Event, t: Truth)
    requires Truthful(s, t) && Honest(e, t)
    ensures var (s', result) := Next(s, e, t);
            Truthful(s', t) && (result.Some? ==> result.value.1 == t(result.value.0))
  {
    hide Made, Resolve, Parse, RepairOf, Group, Missing, KeepFresh, KeepMissing, Ready, ShapedRepair;
    match e
    case Remembered(sequence, packet) =>
    case Repaired(group, now, delivered) =>
      GroupMade(group, now, t);
      var r := Parse(RepairOf(group), now).value;
      ResolveSound(s.(received := s.received + 1, storing := s.storing || |r.members| > 1), r, delivered, t);
    case Retried(now, delivered) =>
      RetrySound(s, now, delivered, t);
  }

  lemma RetrySound(s: State, now: int, delivered: Delivered, t: Truth)
    requires Truthful(s, t)
    ensures var (s', result) := RetryPending(s, now, delivered);
            Truthful(s', t) && (result.Some? ==> result.value.1 == t(result.value.0))
  {
    hide Made, Resolve, Missing, KeepFresh, KeepMissing, Ready, ShapedRepair, SwapRemove;
    var young := KeepFresh(s.pending, now, delivered);
    var kept := KeepMissing(young, delivered);
    var next := s.(pending := kept, unrecoverable := s.unrecoverable + |s.pending| - |young|);
    var i := Ready(kept, delivered);
    if i < |kept| {
      ResolveSound(next.(pending := SwapRemove(kept, i)), kept[i], delivered, t);
    }
  }

  ghost predicate HonestRun(run: seq<Event>, t: Truth) {
    forall e <- run :: Honest(e, t)
  }

  /** The decoder after a run, which stays truthful. */
  ghost function After(run: seq<Event>, t: Truth): (s: State)
    requires HonestRun(run, t)
    ensures Truthful(s, t)
  {
    if run == [] then INITIAL
    else
      var before := After(run[..|run| - 1], t);
      StepSound(before, run[|run| - 1], t);
      Next(before, run[|run| - 1], t).0
  }

  ghost function ResultAt(run: seq<Event>, j: nat, t: Truth): Result
    requires HonestRun(run, t) && j < |run|
  {
    Next(After(run[..j], t), run[j], t).1
  }

  /** Soundness: whatever is lost, repeated, reordered or believed delivered, every packet the decoder
      returns is the packet that was sent under the sequence it is returned with. */
  lemma Soundness(run: seq<Event>, j: nat, t: Truth)
    requires HonestRun(run, t) && j < |run|
    ensures ResultAt(run, j, t).Some? ==> ResultAt(run, j, t).value.1 == t(ResultAt(run, j, t).value.0)
  {
    hide Next, Truthful;
    StepSound(After(run[..j], t), run[j], t);
  }

  // ----- when the decoder stores -----

  /** A repair of a group with several members: the sign that packets are worth storing. */
  predicate AsksToStore(e: Event) {
    e.Repaired? && |e.group| >= 2
  }

  lemma StepStores(s: State, e: Event, t: Truth)
    requires Truthful(s, t) && Shaped(s) && Honest(e, t)
    ensures Next(s, e, t).0.storing <==> s.storing || AsksToStore(e)
  {
    hide Parse, RepairOf, ParityOf, Group, Missing, Rebuild, Made, KeepFresh, KeepMissing, Ready, SwapRemove,
      ShapedRepair;
    if e.Repaired? {
      GroupSized(e.group);
      ParseRepairOf(e.group, e.now);
    }
  }

  /** The decoder stores packets from the first repair of a group with several members on, and not
      before. */
  lemma {:induction false} StoresFromFirstRepair(run: seq<Event>, t: Truth)
    requires HonestRun(run, t)
    ensures After(run, t).storing <==> exists i :: 0 <= i < |run| && AsksToStore(run[i])
  {
    hide Next, Honest, Truthful, AsksToStore;
    if run != [] {
      var n := |run| - 1;
      var init := run[..n];
      StoresFromFirstRepair(init, t);
      assert run[n] in run;
      TruthfulShaped(After(init, t), t);
      StepStores(After(init, t), run[n], t);
      assert forall i :: 0 <= i < n ==> init[i] == run[i];
    }
  }

  // ----- what is still stored -----

  /** Event `j` stores a packet under `m`, an earlier one having asked for it, and no later event
      overwrites it. */
  predicate Retained(run: seq<Event>, m: nat, j: nat) {
    && j < |run| && run[j].Remembered? && run[j].sequence == m
    && (exists i :: 0 <= i < j && AsksToStore(run[i]))
    && forall k :: j < k < |run| && run[k].Remembered? && run[k].sequence % 512 == m % 512
                   ==> run[k].sequence == m
  }

  lemma RepairsKeepCache(s: State, e: Event, t: Truth)
    requires Truthful(s, t) && Honest(e, t) && !e.Remembered?
    ensures Next(s, e, t).0.recent == s.recent && (s.storing ==> Next(s, e, t).0.storing)
  {
    hide Rebuild, Parse, RepairOf, Group, KeepFresh, KeepMissing, Ready, Missing;
  }

  /** The cache is the last writer of each slot: what is retained is stored. */
  lemma {:induction false} RetainedIsStored(run: seq<Event>, m: nat, j: nat, t: Truth)
    requires HonestRun(run, t) && 0 < |t(m)| && Retained(run, m, j)
    ensures After(run, t).storing && Stored(After(run, t), m) == Some(t(m))
  {
    hide Truthful, Parse, RepairOf, Group, RetryPending, AcceptRepair, Honest;
    var n := |run| - 1;
    var init, e := run[..n], run[n];
    var before := After(init, t);
    if j < n {
      RetainedIsStored(init, m, j, t);
    } else {
      StoresFromFirstRepair(init, t);
    }
    TruthfulShaped(before, t);
    if e.Remembered? {
      HonestRemembered(e, t);
      RememberStores(before, m, e.sequence, e.packet, t);
    } else {
      RepairsKeepCache(before, e, t);
    }
  }

  lemma TruthfulShaped(s: State, t: Truth)
    requires Truthful(s, t)
    ensures Shaped(s)
  {
  }

  lemma HonestRemembered(e: Event, t: Truth)
    requires Honest(e, t) && e.Remembered?
    ensures e.packet == t(e.sequence) && |e.packet| <= MAX_PACKET
  {
  }

  lemma RememberStores(s: State, m: nat, sequence: nat, packet: seq<byte>, t: Truth)
    requires Shaped(s) && s.storing && packet == t(sequence) && 0 < |t(m)| && |packet| <= MAX_PACKET
    ensures var s' := Remember(s, sequence, packet);
            && Shaped(s') && s'.storing
            && (sequence == m ==> Stored(s', m) == Some(t(m)))
            && (sequence % RECENT_CAPACITY != m % RECENT_CAPACITY && Stored(s, m) == Some(t(m)) ==>
                Stored(s', m) == Some(t(m)))
  {
  }

  /** Completeness: when exactly the `k`th member of a group is missing and the others are retained,
      the group's repair brings it back at once. */
  lemma Completeness(run: seq<Event>, g: seq<Member>, k: nat, sources: seq<nat>, now: int, delivered: Delivered,
                     t: Truth)
    requires HonestRun(run, t) && Honest(Repaired(g, now, delivered), t)
    requires k < |g| == |sources|
    requires forall i :: 0 <= i < |g| ==> (delivered(g[i].sequence) <==> i != k)
    requires forall i :: 0 <= i < |g| && i != k ==> Retained(run, g[i].sequence, sources[i])
    ensures Next(After(run, t), Repaired(g, now, delivered), t).1 == Some((g[k].sequence, g[k].packet))
  {
    hide Parse, RepairOf, Truthful, Retained, After, Rebuild, Made, Group, HonestRun;
    var s := After(run, t);
    GroupMade(g, now, t);
    var r := Parse(RepairOf(g), now).value;
    MadeShaped(r, t);
    var s' := s.(received := s.received + 1, storing := s.storing || |r.members| > 1);
    TruthfulCounters(s, s', t);
    GroupNonempty(g);
    OneMissing(r.members, delivered, k);
    forall m | m in r.members && m != r.members[k] ensures Stored(s', m).Some? {
      var i :| 0 <= i < |g| && Sequences(g)[i] == m;
      RetainedIsStored(run, m, sources[i], t);
      SameCache(s, s', m);
    }
    RebuildIs(s', r, k, t);
    assert g[k] in g;
  }

  lemma GroupNonempty(g: seq<Member>)
    requires Group(g)
    ensures Distinct(Sequences(g)) && forall m <- g :: 0 < |m.packet|
  {
  }

  lemma TruthfulCounters(s: State, s': State, t: Truth)
    requires Truthful(s, t) && s'.recent == s.recent && s'.pending == s.pending
    ensures Truthful(s', t) && Shaped(s) && Shaped(s')
  {
  }

  lemma SameCache(s: State, s': State, m: nat)
    requires Shaped(s) && Shaped(s') && s'.recent == s.recent
    ensures Stored(s, m) == Stored(s', m)
  {
  }

  lemma {:induction false} OneMissing(members: seq<nat>, delivered: Delivered, k: nat)
    requires k < |members| && forall i :: 0 <= i < |members| ==> (delivered(members[i]) <==> i != k)
    ensures Missing(members, delivered) == [members[k]]
  {
    if k == 0 {
      NoneMissing(members[1..], delivered);
    } else {
      assert members[1..][k - 1] == members[k];
      OneMissing(members[1..], delivered, k - 1);
    }
  }

  lemma NoneMissing(members: seq<nat>, delivered: Delivered)
    requires forall i :: 0 <= i < |members| ==> delivered(members[i])
    ensures Missing(members, delivered) == []
  {
    if Missing(members, delivered) != [] {
      assert Missing(members, delivered)[0] in Missing(members, delivered);
      assert false;
    }
  }
}
