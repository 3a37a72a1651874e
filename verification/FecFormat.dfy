/** The repair frame of `engine/src/fec.rs`: what the encoder writes and the decoder parses. */
module FecFormat {
  import opened Bytes
  import opened Parity

  const MAX_GROUP := 4
  const MAX_SPAN := 255
  const VERSION: byte := 1
  const REPAIR_HEADER_MAX := 1 + 8 + 1 + (MAX_GROUP - 1) + 2
  const SEQUENCES := 0x1_0000_0000_0000_0000

  datatype Member = Member(sequence: nat, packet: seq<byte>)

  // ----- 64-bit integers, big-endian -----

  function Pow256(k: nat): (p: nat)
    ensures p > 0
  {
    if k == 0 then 1 else 256 * Pow256(k - 1)
  }

  function ToBytes(n: nat, k: nat): (b: seq<byte>)
    ensures |b| == k
  {
    if k == 0 then [] else ToBytes(n / 256, k - 1) + [n % 256]
  }

  function FromBytes(b: seq<byte>): nat {
    if b == [] then 0 else 256 * FromBytes(b[..|b| - 1]) + b[|b| - 1]
  }

  lemma {:induction false} BytesRoundTrip(n: nat, k: nat)
    requires n < Pow256(k)
    ensures FromBytes(ToBytes(n, k)) == n
  {
    if k > 0 {
      BytesRoundTrip(n / 256, k - 1);
      assert ToBytes(n, k)[..k - 1] == ToBytes(n / 256, k - 1);
    }
  }

  lemma SequenceRoundTrip(n: nat)
    requires n < SEQUENCES
    ensures FromBytes(ToBytes(n, 8)) == n
  {
    assert Pow256(4) == 0x1_0000_0000;
    assert Pow256(8) == SEQUENCES;
    BytesRoundTrip(n, 8);
  }

  // ----- groups -----

  /** A group an encoder can hold: sequences that ascend within one octet's reach of the first. */
  predicate Group(g: seq<Member>) {
    && 0 < |g| <= MAX_GROUP
    && (forall i, j :: 0 <= i < j < |g| ==> g[i].sequence < g[j].sequence)
    && (forall m <- g :: g[0].sequence <= m.sequence <= g[0].sequence + MAX_SPAN && m.sequence < SEQUENCES)
    && (forall m <- g :: 0 < |m.packet| <= MAX_PACKET)
  }

  function Packets(g: seq<Member>): (ps: seq<seq<byte>>)
    ensures |ps| == |g| && forall i :: 0 <= i < |g| ==> ps[i] == g[i].packet
  {
    seq(|g|, i requires 0 <= i < |g| => g[i].packet)
  }

  function Sequences(g: seq<Member>): (ss: seq<nat>)
    ensures |ss| == |g| && forall i :: 0 <= i < |g| ==> ss[i] == g[i].sequence
  {
    seq(|g|, i requires 0 <= i < |g| => g[i].sequence)
  }

  function Offsets(g: seq<Member>): (os: seq<byte>)
    requires Group(g)
    ensures |os| == |g| && forall i :: 0 <= i < |g| ==> os[i] == g[i].sequence - g[0].sequence
  {
    seq(|g|, i requires 0 <= i < |g| => var m := g[i]; m.sequence - g[0].sequence)
  }

  lemma GroupSized(g: seq<Member>)
    requires Group(g)
    ensures Sized(Packets(g))
  {
    forall p | p in Packets(g) ensures |p| <= MAX_PACKET {
      var i :| 0 <= i < |g| && Packets(g)[i] == p;
      assert g[i] in g;
    }
  }

  /** The repair for a group. */
  function RepairOf(g: seq<Member>): seq<byte>
    requires Group(g)
  {
    GroupSized(g);
    [VERSION] + ToBytes(g[0].sequence, 8) + [|g|] + Offsets(g)[1..] + ParityOf(Packets(g))
  }

  /** A parsed repair. */
  datatype Repair = Repair(members: seq<nat>, parity: seq<byte>, receivedAt: int)

  /** The members behind the offsets; none when one is out of order or out of range. */
  function Members(base: nat, last: nat, offsets: seq<byte>): Option<seq<nat>>
    decreases |offsets|
  {
    if offsets == [] then Some([])
    else
      var member := base + offsets[0];
      if member >= SEQUENCES || member <= last then None
      else
        match Members(base, member, offsets[1..])
        case None => None
        case Some(rest) => Some([member] + rest)
  }

  function Parse(payload: seq<byte>, now: int): Option<Repair> {
    if |payload| < 10 || payload[0] != VERSION then None
    else
      var base, count := FromBytes(payload[1..9]), payload[9];
      if count == 0 || count > MAX_GROUP || |payload| < 10 + count - 1 then None
      else
        var parity := payload[10 + count - 1..];
        if |parity| <= LENGTH_PREFIX then None
        else
          match Members(base, base, payload[10..10 + count - 1])
          case None => None
          case Some(rest) => Some(Repair([base] + rest, parity, now))
  }

  /** The parsing loop. */
  method ParseRepair(payload: seq<byte>, now: int) returns (r: Option<Repair>)
    ensures r == Parse(payload, now)
  {
    if |payload| == 0 || payload[0] != VERSION || |payload| < 10 {
      return None;
    }
    var base := FromBytes(payload[1..9]);
    var count := payload[9];
    if count == 0 || count > MAX_GROUP || |payload| < 10 + count - 1 {
      return None;
    }
    var offsets, parity := payload[10..10 + count - 1], payload[10 + count - 1..];
    if |parity| <= LENGTH_PREFIX {
      return None;
    }
    var members := ReadMembers(base, offsets);
    if members.None? {
      return None;
    }
    return Some(Repair(members.value, parity, now));
  }

  method ReadMembers(base: nat, offsets: seq<byte>) returns (r: Option<seq<nat>>)
    ensures r == var rest := Members(base, base, offsets); if rest.None? then None else Some([base] + rest.value)
  {
    var rest: seq<nat>, last: nat := [], base;
    ghost var all := Members(base, base, offsets);
    assert offsets[0..] == offsets && Prefixed(rest, all) == all;
    for i := 0 to |offsets|
      invariant all == Prefixed(rest, Members(base, last, offsets[i..]))
    {
      var member := base + offsets[i];
      assert offsets[i..][1..] == offsets[i + 1..];
      if member >= SEQUENCES || member <= last {
        return None;
      }
      ghost var more := Members(base, member, offsets[i + 1..]);
      assert more.Some? ==> (rest + [member]) + more.value == rest + ([member] + more.value);
      rest, last := rest + [member], member;
    }
    assert rest + [] == rest;
    return Some([base] + rest);
  }

  ghost function Prefixed(front: seq<nat>, rest: Option<seq<nat>>): (r: Option<seq<nat>>)
    ensures front == [] ==> r == rest
  {
    if rest.None? then None else (assert front == [] ==> front + rest.value == rest.value; Some(front + rest.value))
  }

  lemma {:induction false} MembersOfGroup(g: seq<Member>, k: nat)
    requires Group(g) && 0 < k <= |g|
    ensures Members(g[0].sequence, g[k - 1].sequence, Offsets(g)[k..]) == Some(Sequences(g)[k..])
    decreases |g| - k
  {
    if k < |g| {
      MembersOfGroup(g, k + 1);
      assert g[k] in g;
      assert Offsets(g)[k..][1..] == Offsets(g)[k + 1..];
      assert Sequences(g)[k..] == [g[k].sequence] + Sequences(g)[k + 1..];
    }
  }

  /** What the encoder wrote is what the decoder reads: the members in order, and their parity. */
  lemma ParseRepairOf(g: seq<Member>, now: int)
    requires Group(g) && Sized(Packets(g))
    ensures Parse(RepairOf(g), now) == Some(Repair(Sequences(g), ParityOf(Packets(g)), now))
  {
    var ss := Sequences(g);
    assert g[0] in g;
    SequenceRoundTrip(g[0].sequence);
    MembersOfGroup(g, 1);
    ParityLength(Packets(g));
    assert Packets(g)[0] in Packets(g) && |Packets(g)[0]| > 0;
    assert ss == [g[0].sequence] + ss[1..];
    hide ParityOf, ToBytes, FromBytes, Members, Parse, Group, Packets, Sequences, Offsets;
    ParseFrame(RepairOf(g), ToBytes(g[0].sequence, 8), |g|, Offsets(g)[1..], ParityOf(Packets(g)), now);
  }

  lemma ParseFrame(p: seq<byte>, b: seq<byte>, n: byte, os: seq<byte>, parity: seq<byte>, now: int)
    requires p == [VERSION] + b + [n] + os + parity
    requires |b| == 8 && 0 < n <= MAX_GROUP && |os| == n - 1 && |parity| > LENGTH_PREFIX
    ensures var rest := Members(FromBytes(b), FromBytes(b), os);
            Parse(p, now) == if rest.None? then None else Some(Repair([FromBytes(b)] + rest.value, parity, now))
  {
    hide FromBytes, Members;
    FrameParts([VERSION], b, [n], os, parity);
  }

  lemma FrameParts(v: seq<byte>, b: seq<byte>, n: seq<byte>, os: seq<byte>, parity: seq<byte>)
    requires |v| == 1 && |b| == 8 && |n| == 1
    ensures var p := v + b + n + os + parity;
            && |p| == 10 + |os| + |parity| && p[0] == v[0] && p[1..9] == b && p[9] == n[0]
            && p[10..10 + |os|] == os && p[10 + |os|..] == parity
  {
  }

  /** Offsets that can be read: each above the one before, the first above `first`, and none past the
      largest sequence. */
  predicate Readable(base: nat, first: byte, offsets: seq<byte>) {
    && (forall i :: 0 <= i < |offsets| ==> base + offsets[i] <= 0xffff_ffff_ffff_ffff)
    && (offsets != [] ==> first < offsets[0])
    && (forall i :: 1 <= i < |offsets| ==> offsets[i - 1] < offsets[i])
  }

  lemma ReadableStep(base: nat, first: byte, offsets: seq<byte>)
    requires offsets != []
    ensures Readable(base, first, offsets) <==>
              && first < offsets[0] && base + offsets[0] <= 0xffff_ffff_ffff_ffff
              && Readable(base, offsets[0], offsets[1..])
  {
    var rest := offsets[1..];
    assert forall i :: 1 <= i < |offsets| ==> offsets[i] == rest[i - 1];
    if Readable(base, offsets[0], rest) && first < offsets[0] {
      forall i | 1 <= i < |offsets| ensures offsets[i - 1] < offsets[i] {
        assert i > 1 ==> rest[i - 2] < rest[i - 1];
      }
    }
    if Readable(base, first, offsets) {
      assert forall i :: 0 <= i < |rest| ==> rest[i] == offsets[i + 1];
    }
  }

  lemma {:induction false} MembersIff(base: nat, first: byte, offsets: seq<byte>)
    ensures Members(base, base + first, offsets).Some? <==> Readable(base, first, offsets)
    ensures Members(base, base + first, offsets).Some? ==>
              var rest := Members(base, base + first, offsets).value;
              |rest| == |offsets| && forall i :: 0 <= i < |rest| ==> rest[i] == base + offsets[i]
    decreases |offsets|
  {
    if offsets != [] {
      ReadableStep(base, first, offsets);
      MembersIff(base, offsets[0], offsets[1..]);
      hide Readable;
    }
  }

  /** A repair is read exactly when it has this version, one to four members whose offsets can be read,
      and more parity than a length; and what is read is what it says. */
  lemma ParseIff(p: seq<byte>, now: int)
    ensures |p| < 10 ==> Parse(p, now) == None
    ensures |p| >= 10 ==>
              var (base, n) := (FromBytes(p[1..9]), p[9]);
              && (Parse(p, now).Some? <==> p[0] == 1 && 1 <= n <= 4 && |p| >= 12 + n && Readable(base, 0, p[10..9 + n]))
              && (Parse(p, now).Some? ==>
                    var r := Parse(p, now).value;
                    && r.receivedAt == now && r.parity == p[9 + n..] && |r.members| == n && r.members[0] == base
                    && forall i :: 1 <= i < |r.members| ==> r.members[i] == base + p[9 + i])
  {
    hide FromBytes, Readable;
    if |p| >= 10 && 1 <= p[9] <= 4 && |p| >= 12 + p[9] {
      var base := FromBytes(p[1..9]);
      MembersIff(base, 0, p[10..9 + p[9]]);
      hide Members;
    }
  }

  /** A repair exceeds the longest packet it covers by at most its header. */
  lemma RepairLength(g: seq<Member>, limit: nat)
    requires Group(g) && forall m <- g :: |m.packet| <= limit
    ensures |RepairOf(g)| <= limit + REPAIR_HEADER_MAX
  {
    hide ParityOf;
    GroupSized(g);
    ParityLength(Packets(g));
    var p :| p in Packets(g) && LENGTH_PREFIX + |p| == |ParityOf(Packets(g))|;
    var i :| 0 <= i < |g| && Packets(g)[i] == p;
    assert g[i] in g;
  }
}
