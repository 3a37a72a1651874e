/** The packet budgets of `engine/src/mtu.rs`, and that repairs sized by them fit the link. */
module Mtu {
  import opened Bytes
  import opened FecFormat
  import FecEncoder

  const LINK_MTU := 1500
  const MIN_TUNNEL_MTU := 1280
  const MIN_SIGNALLED_MTU := 1228
  const HEADER_LEN := 40
  const AEAD_TAG := 16
  const OUTER_IPV4_UDP := 20 + 8
  const WIREGUARD_DATA := 16 + 16
  const OPENVPN_DATA := 4 + 20 + 16 + 4 + 16 + 2
  const OUTER_IPV4_TCP := 20 + 32
  const SOCKS5_UDP_REQUEST := 10
  const L2TP_IPSEC_DATA := 116
  const RELAY_OVERLAY := 20 + 8 + HEADER_LEN + 16 + REPAIR_HEADER_MAX

  datatype Mode = Relay | Direct

  function NormalizeLink(reported: nat): (m: nat)
    ensures 1280 <= m <= 1500 && (1280 <= reported <= 1500 ==> m == reported)
  {
    Max(MIN_TUNNEL_MTU, Min(reported, LINK_MTU))
  }

  function SaturatingSub(a: nat, b: nat): nat {
    if a < b then 0 else a - b
  }

  function Overlay(mode: Mode): nat {
    if mode == Relay then RELAY_OVERLAY else 0
  }

  function PathOverhead(mode: Mode, kind: string): (bytes: nat)
    ensures bytes <= 215
  {
    var (transport, outer) :=
      if kind == "wireguard" then (WIREGUARD_DATA, OUTER_IPV4_UDP)
      else if kind == "socks5" then (SOCKS5_UDP_REQUEST, OUTER_IPV4_UDP)
      else if kind == "openvpn" then (OPENVPN_DATA, OUTER_IPV4_TCP)
      else if kind == "l2tp" then (L2TP_IPSEC_DATA, 0)
      else if kind == "adapter" then (L2TP_IPSEC_DATA - OUTER_IPV4_UDP, OUTER_IPV4_UDP)
      else (L2TP_IPSEC_DATA, 0);
    outer + transport + Overlay(mode)
  }

  function PathBudget(mode: Mode, kind: string, link: nat): nat {
    if kind != "wireguard" then SaturatingSub(link, PathOverhead(mode, kind))
    else SaturatingSub(SaturatingSub(link, OUTER_IPV4_UDP + WIREGUARD_DATA) / 16 * 16, Overlay(mode))
  }

  datatype EffectiveMtu = EffectiveMtu(mtu: nat, overhead: nat, belowLinkBudget: bool, budget: nat)

  /** The dearest overhead and the smallest budget among the paths. */
  function Worst(mode: Mode, kinds: seq<string>, link: nat): (nat, nat)
    requires kinds != []
  {
    var first := (PathOverhead(mode, kinds[0]), PathBudget(mode, kinds[0], link));
    if |kinds| == 1 then first
    else
      var rest := Worst(mode, kinds[1..], link);
      (Max(first.0, rest.0), Min(first.1, rest.1))
  }

  function ForSession(mode: Mode, kinds: seq<string>, reported: nat): EffectiveMtu {
    var (overhead, budget) := Worst(mode, if kinds == [] then [""] else kinds, NormalizeLink(reported));
    var mtu := Max(budget, MIN_TUNNEL_MTU);
    EffectiveMtu(mtu, overhead, mtu > budget, budget)
  }

  function WithTunnelLimit(e: EffectiveMtu, configured: Option<nat>): EffectiveMtu {
    var reported := if configured.Some? then configured.value else LINK_MTU;
    if MIN_TUNNEL_MTU <= reported <= LINK_MTU
    then e.(mtu := Max(Min(e.mtu, reported), MIN_TUNNEL_MTU), budget := Min(e.budget, reported))
    else e.(mtu := Max(e.mtu, MIN_TUNNEL_MTU))
  }

  /** Clamping between bounds in the wrong order would panic; here they never are. */
  function Unfragmented(e: EffectiveMtu): (m: nat)
    requires e.mtu >= MIN_TUNNEL_MTU
    ensures 1228 <= m <= e.mtu
  {
    Max(MIN_SIGNALLED_MTU, Min(e.budget, e.mtu))
  }

  // ----- what really leaves the machine -----

  function PadTo16(n: nat): (p: nat)
    ensures n <= p < n + 16 && p % 16 == 0
  {
    (n + 15) / 16 * 16
  }

  /** The datagram around `length` octets. Under a relay they are sealed: 28 octets of IPv4 and UDP,
      a 40-octet header and a 16-octet tag. The transport then adds its own: WireGuard pads to 16 octets
      and adds 60, SOCKS 38, OpenVPN over TCP 114, and L2TP over IPsec, the dearest, 116. */
  function WireSize(mode: Mode, kind: string, length: nat): nat {
    var inner := if mode == Relay then 84 + length else length;
    if kind == "wireguard" then 60 + PadTo16(inner)
    else if kind == "socks5" then 38 + inner
    else if kind == "openvpn" then 114 + inner
    else 116 + inner
  }

  /** The longest frame a packet gives rise to: under a relay, a repair covering it. */
  function LongestFrame(mode: Mode, packet: nat): nat {
    if mode == Relay then packet + 15 else packet
  }

  /** A path's budget is exactly what its link carries whole. */
  lemma PathBudgetExact(mode: Mode, kind: string, link: nat, packet: nat)
    requires 1280 <= link <= 1500
    ensures WireSize(mode, kind, LongestFrame(mode, packet)) <= link <==> packet <= PathBudget(mode, kind, link)
  {
    if kind == "wireguard" {
      var room := link - OUTER_IPV4_UDP - WIREGUARD_DATA;
      PadFits(packet + Overlay(mode), room);
      assert room / 16 * 16 >= 1200;
    }
  }

  /** A path's overhead is exactly what it adds to a packet's longest frame, padding aside. */
  lemma OverheadExact(mode: Mode, kind: string, packet: nat)
    ensures var added := WireSize(mode, kind, LongestFrame(mode, packet)) - packet;
            && PathOverhead(mode, kind) <= added < PathOverhead(mode, kind) + 16
            && (kind != "wireguard" ==> added == PathOverhead(mode, kind))
            && (LongestFrame(mode, packet) % 16 == (if mode == Relay then 12 else 0) ==>
                  added == PathOverhead(mode, kind))
  {
  }

  lemma PadFits(n: nat, room: nat)
    ensures PadTo16(n) <= room <==> n <= room / 16 * 16
  {
  }

  lemma {:induction false} WorstIs(mode: Mode, kinds: seq<string>, link: nat)
    requires kinds != []
    ensures forall k <- kinds :: PathOverhead(mode, k) <= Worst(mode, kinds, link).0
    ensures forall k <- kinds :: Worst(mode, kinds, link).1 <= PathBudget(mode, k, link)
    ensures exists k :: k in kinds && Worst(mode, kinds, link).0 == PathOverhead(mode, k)
    ensures exists k :: k in kinds && Worst(mode, kinds, link).1 == PathBudget(mode, k, link)
  {
    hide PathBudget, PathOverhead;
    if |kinds| == 1 {
      assert kinds[0] in kinds;
    } else {
      WorstIs(mode, kinds[1..], link);
      assert forall k <- kinds :: k == kinds[0] || k in kinds[1..];
      var k :| k in kinds[1..] && Worst(mode, kinds[1..], link).1 == PathBudget(mode, k, link);
      var l :| l in kinds[1..] && Worst(mode, kinds[1..], link).0 == PathOverhead(mode, l);
      assert kinds[0] in kinds && k in kinds && l in kinds;
    }
  }

  /** A session's budget is exactly the largest packet whose longest frame crosses every one of its
      paths whole, padding included. */
  lemma SessionBudgetExact(mode: Mode, kinds: seq<string>, reported: nat, packet: nat)
    requires kinds != []
    ensures packet <= ForSession(mode, kinds, reported).budget
            <==> forall k <- kinds :: WireSize(mode, k, LongestFrame(mode, packet)) <= NormalizeLink(reported)
  {
    hide PathBudget, WireSize, Worst;
    var link := NormalizeLink(reported);
    WorstIs(mode, kinds, link);
    forall k | k in kinds
      ensures WireSize(mode, k, LongestFrame(mode, packet)) <= link <==> packet <= PathBudget(mode, k, link)
    {
      PathBudgetExact(mode, k, link, packet);
    }
  }

  /** The limit a provider's configuration sets, if it is one a tunnel can have. */
  predicate Limits(configured: Option<nat>, limit: nat) {
    configured == Some(limit) && 1280 <= limit <= 1500
  }

  /** A provider's limit within bounds caps the budget and the interface; one out of bounds changes
      nothing. The interface has the larger of the budget and 1280, and the flag says which. */
  lemma LimitKeepsBudget(mode: Mode, kinds: seq<string>, reported: nat, configured: Option<nat>, size: nat)
    ensures var (e, limited) := (ForSession(mode, kinds, reported),
                                 WithTunnelLimit(ForSession(mode, kinds, reported), configured));
            && (size <= limited.budget
                <==> size <= e.budget && forall limit :: Limits(configured, limit) ==> size <= limit)
            && (size <= limited.mtu
                <==> size <= e.mtu && forall limit :: Limits(configured, limit) ==> size <= limit)
            && (size <= e.mtu <==> size <= e.budget || size <= 1280)
            && (e.belowLinkBudget <==> e.budget < 1280)
            && limited.overhead == e.overhead && limited.belowLinkBudget == e.belowLinkBudget
            && limited.mtu >= 1280
  {
    hide Worst;
    BudgetWithinLink(mode, if kinds == [] then [""] else kinds, NormalizeLink(reported));
    if configured.Some? && 1280 <= configured.value <= 1500 {
      assert Limits(configured, configured.value);
    }
  }

  lemma BudgetWithinLink(mode: Mode, kinds: seq<string>, link: nat)
    requires kinds != []
    ensures Worst(mode, kinds, link).1 <= link
  {
    WorstIs(mode, kinds, link);
    hide Worst;
    assert kinds[0] in kinds;
    assert Worst(mode, kinds, link).1 <= PathBudget(mode, kinds[0], link);
  }

  /** What senders are told never exceeds the interface, nor the budget unless that is under 1228; and it
      is not below what they could send. */
  lemma SignalledIs(e: EffectiveMtu, size: nat)
    requires e.mtu >= 1280
    ensures size <= Unfragmented(e) <==> size <= e.mtu && (size <= e.budget || size <= 1228)
  {
  }

  /** Every repair of an encoder limited to the session's budget crosses every path of it whole. */
  lemma RepairsFitTheLink(kinds: seq<string>, reported: nat, configured: Option<nat>, kind: string,
                          s: FecEncoder.State, calls: seq<FecEncoder.Call>, c: FecEncoder.Call)
    requires kind in kinds
    requires FecEncoder.Valid(s) && s.open == []
    requires var budget := WithTunnelLimit(ForSession(Relay, kinds, reported), configured).budget;
             s.maxPacket <= budget
             && forall d <- calls :: FecEncoder.Callable(d) && (d.SetMaxPacket? ==> d.maxPacket <= budget)
    ensures FecEncoder.Valid(FecEncoder.After(s, calls))
    ensures var repair := FecEncoder.Emits(FecEncoder.After(s, calls), c);
            repair.Some? ==> WireSize(Relay, kind, |repair.value|) <= NormalizeLink(reported)
  {
    hide PathBudget, ForSession, WithTunnelLimit, FecEncoder.Valid, FecEncoder.After, FecEncoder.Emits;
    var budget := WithTunnelLimit(ForSession(Relay, kinds, reported), configured).budget;
    FecEncoder.RepairsFit(s, calls, budget);
    LimitKeepsBudget(Relay, kinds, reported, configured, budget);
    SessionBudgetExact(Relay, kinds, reported, budget);
    var repair := FecEncoder.Emits(FecEncoder.After(s, calls), c);
    if repair.Some? {
      WireGrows(kind, |repair.value|, budget + 15);
    }
  }

  lemma WireGrows(kind: string, length: nat, longer: nat)
    requires length <= longer
    ensures WireSize(Relay, kind, length) <= WireSize(Relay, kind, longer)
  {
  }
}
