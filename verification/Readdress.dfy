/** `readdress_transport_checksum` of `engine/src/ipv4_fragments.rs`: the transport checksum of a
    datagram whose later octets are not at hand, corrected for changed IPv4 addresses. */
module Readdress {
  import opened Bytes
  import opened Checksum

  const TCP: byte := 6
  const UDP: byte := 17

  /** Where the checksum sits in a transport header. */
  function FieldOffset(protocol: byte): nat
    requires protocol == TCP || protocol == UDP
  {
    if protocol == TCP then 16 else 6
  }

  /** The pseudo-header a TCP or UDP checksum covers in front of its segment. */
  function PseudoHeader(addresses: seq<byte>, protocol: byte, length: nat): (p: seq<byte>)
    requires |addresses| == 8 && length < 0x1_0000
    ensures |p| == 12
  {
    addresses + [0, protocol, length / 256, length % 256]
  }

  /** What a receiver of the whole datagram checks. */
  predicate Verifies(addresses: seq<byte>, protocol: byte, segment: seq<byte>)
    requires |addresses| == 8 && |segment| < 0x1_0000
  {
    InternetChecksum(PseudoHeader(addresses, protocol, |segment|) + segment) == 0
  }

  /** What the sender of the whole datagram writes, given the segment with a zeroed field. */
  function Fresh(addresses: seq<byte>, protocol: byte, segment: seq<byte>): nat
    requires |addresses| == 8 && |segment| < 0x1_0000
  {
    var c := InternetChecksum(PseudoHeader(addresses, protocol, |segment|) + segment);
    if protocol == UDP && c == 0 then 0xffff else c
  }

  /** The sum of the one's complements of the words of `b`. */
  function ComplementSum(b: seq<byte>): nat
    requires |b| % 2 == 0
  {
    if |b| == 0 then 0 else 0xffff - WordAt(b, 0) + ComplementSum(b[2..])
  }

  /** The unfolded sum of equation 3 of RFC 1624. */
  function UpdateSum(checksum: nat, before: seq<byte>, after: seq<byte>): nat
    requires checksum < 0x1_0000 && |before| == 8 && |after| == 8
  {
    0xffff - checksum + ComplementSum(before) + WordSum(after)
  }

  function Updated(protocol: byte, checksum: nat, before: seq<byte>, after: seq<byte>): (u: nat)
    requires checksum < 0x1_0000 && |before| == 8 && |after| == 8
    ensures u < 0x1_0000 && (protocol == UDP ==> u != 0)
  {
    var u := 0xffff - OnesSum(UpdateSum(checksum, before, after));
    if protocol == UDP && u == 0 then 0xffff else u
  }

  lemma {:induction false} ComplementSumIs(b: seq<byte>)
    requires |b| % 2 == 0
    ensures ComplementSum(b) + WordSum(b) == |b| / 2 * 0xffff
  {
    hide WordAt;
    if |b| > 0 {
      ComplementSumIs(b[2..]);
    }
  }

  lemma PseudoSum(addresses: seq<byte>, protocol: byte, segment: seq<byte>)
    requires |addresses| == 8 && |segment| < 0x1_0000
    ensures WordSum(PseudoHeader(addresses, protocol, |segment|) + segment)
         == WordSum(addresses) + protocol + |segment| + WordSum(segment)
  {
    hide WordSum;
    WordSumConcat(PseudoHeader(addresses, protocol, |segment|), segment);
    WordSumConcat(addresses, [0, protocol, |segment| / 256, |segment| % 256]);
    TailSum(protocol, |segment|);
  }

  lemma TailSum(protocol: byte, length: nat)
    requires length < 0x1_0000
    ensures WordSum([0, protocol, length / 256, length % 256]) == protocol + length
  {
    WordSumConcat([0, protocol], [length / 256, length % 256]);
    assert [0, protocol] + [length / 256, length % 256] == [0, protocol, length / 256, length % 256];
    WordPairSum(0, protocol);
    WordPairSum(length / 256, length % 256);
  }

  lemma WordPairSum(hi: byte, lo: byte)
    ensures WordSum([hi, lo]) == 256 * (hi as int) + lo as int
  {
    assert [hi, lo][2..] == [];
  }

  /** The incremental update is correct: a checksum that verified the whole datagram under the old
      addresses, updated from the first fragment alone, verifies it under the new ones. */
  lemma UpdatedVerifies(protocol: byte, before: seq<byte>, after: seq<byte>, segment: seq<byte>)
    requires protocol == TCP || protocol == UDP
    requires |before| == 8 && |after| == 8
    requires FieldOffset(protocol) + 2 <= |segment| < 0x1_0000
    requires Verifies(before, protocol, segment)
    ensures var field := FieldOffset(protocol);
            var u := Updated(protocol, WordAt(segment, field), before, after);
            Verifies(after, protocol, PutWord(segment, field, u))
  {
    hide WordSum, WordAt, PutWord, PseudoHeader, OnesSum, ComplementSum;
    var field := FieldOffset(protocol);
    var c := WordAt(segment, field);
    var u := Updated(protocol, c, before, after);
    var former, present := WordSum(before), WordSum(after);
    var rest := protocol + |segment| + WordSum(segment) - c;
    PseudoSum(before, protocol, segment);
    PseudoSum(after, protocol, PutWord(segment, field, u));
    WordSumPut(segment, field, u);
    ComplementSumIs(before);
    UpdateCongruence(former + rest + c, UpdateSum(c, before, after), u, present + rest + u);
  }

  /** The congruence behind the update, modulo 65535. */
  lemma UpdateCongruence(verified: nat, sum: nat, u: nat, result: int)
    requires verified % 0xffff == 0 && u <= 0xffff
    requires u % 0xffff == (0xffff - OnesSum(sum)) % 0xffff
    requires result == verified + sum - 5 * 0xffff + u
    ensures result % 0xffff == 0
  {
    var k := verified / 0xffff;
    ModDifference(sum, OnesSum(sum));
    var m := (sum + 0xffff - OnesSum(sum)) / 0xffff;
    var d := 0xffff - OnesSum(sum) - u;
    assert d == 0 || d == 0xffff || d == -0xffff;
    assert result == 0xffff * (k + m - 5) - d;
  }

  /** The updated value is the very one a sender would compute afresh for the readdressed datagram,
      except that TCP gets the other form of zero when the update sum itself vanishes. */
  lemma UpdatedIsFresh(protocol: byte, before: seq<byte>, after: seq<byte>, segment: seq<byte>)
    requires protocol == TCP || protocol == UDP
    requires |before| == 8 && |after| == 8
    requires FieldOffset(protocol) + 2 <= |segment| < 0x1_0000
    requires Verifies(before, protocol, segment)
    ensures var field := FieldOffset(protocol);
            var c := WordAt(segment, field);
            Updated(protocol, c, before, after) == Fresh(after, protocol, PutWord(segment, field, 0))
            <==> protocol == UDP || UpdateSum(c, before, after) > 0
  {
    hide WordSum, WordAt, PutWord, PseudoHeader, OnesSum, ComplementSum;
    var field := FieldOffset(protocol);
    var c := WordAt(segment, field);
    var sum := UpdateSum(c, before, after);
    var rest := protocol + |segment| + WordSum(segment) - c;
    PseudoSum(before, protocol, segment);
    PseudoSum(after, protocol, PutWord(segment, field, 0));
    WordSumPut(segment, field, 0);
    WordSumSplit(segment, field);
    ComplementSumIs(before);
    var recomputed := WordSum(after) + rest;
    var k := (WordSum(before) + rest + c) / 0xffff;
    assert recomputed == sum + 0xffff * (k - 5);
    SameResidue(sum, recomputed, k - 5);
  }

  lemma SameResidue(a: nat, b: nat, k: int)
    requires b == a + 0xffff * k && b > 0
    ensures a > 0 ==> OnesSum(a) == OnesSum(b)
    ensures a == 0 ==> OnesSum(b) == 0xffff
  {
    if a > 0 {
      assert b - 1 == a - 1 + 0xffff * k;
    }
  }

  /** The value of the field after the call, when it is touched at all. */
  function Corrected(packet: seq<byte>, original: seq<byte>): Option<seq<byte>>
    requires |packet| >= 20 && |original| >= 20
  {
    var header := packet[0] % 16 * 4;
    var protocol := packet[9];
    if protocol != TCP && protocol != UDP then Some(packet)
    else
      var offset := header + FieldOffset(protocol);
      if |packet| < offset + 2 then None
      else if protocol == UDP && WordAt(packet, offset) == 0 then Some(packet)
      else Some(PutWord(packet, offset,
                        Updated(protocol, WordAt(packet, offset), original[12..20], packet[12..20])))
  }

  /** The call gives up only on a TCP or UDP packet that ends before its checksum field does; it leaves
      other protocols and a UDP packet without a checksum alone; and it changes nothing but the field. */
  lemma CorrectedIff(packet: seq<byte>, original: seq<byte>)
    requires |packet| >= 20 && |original| >= 20
    ensures var fixed := Corrected(packet, original);
            var field := packet[0] % 16 * 4 + (if packet[9] == 6 then 16 else 6);
            && (fixed.None? <==> (packet[9] == 6 || packet[9] == 17) && |packet| < field + 2)
            && (packet[9] != 6 && packet[9] != 17 ==> fixed == Some(packet))
            && (packet[9] == 17 && field + 2 <= |packet| && packet[field] == 0 && packet[field + 1] == 0 ==>
                  fixed == Some(packet))
            && (fixed.Some? ==>
                  && |fixed.value| == |packet|
                  && forall i :: 0 <= i < |packet| && i != field && i != field + 1 ==> fixed.value[i] == packet[i])
  {
    hide Updated, UpdateSum;
  }

  /** The eight additions of the update, one address word at a time. */
  method SumAddresses(rewritten: array<byte>, original: seq<byte>, checksum: nat) returns (sum: nat)
    requires rewritten.Length >= 20 && |original| >= 20 && checksum < 0x1_0000
    ensures sum == UpdateSum(checksum, original[12..20], rewritten[..][12..20])
  {
    hide WordAt;
    ghost var packet := rewritten[..];
    sum := 0xffff - checksum;
    var word := 12;
    while word < 20
      invariant 12 <= word <= 20 && word % 2 == 0
      invariant sum + ComplementSum(original[word..20]) + WordSum(packet[word..20])
             == UpdateSum(checksum, original[12..20], packet[12..20])
    {
      NextWord(original, word);
      NextWord(packet, word);
      sum := sum + 0xffff - WordAt(original, word);
      sum := sum + WordAt(rewritten[..], word);
      word := word + 2;
    }
  }

  lemma NextWord(b: seq<byte>, word: nat)
    requires word + 2 <= 20 <= |b| && word % 2 == 0
    ensures WordSum(b[word..20]) == WordAt(b, word) + WordSum(b[word + 2..20])
    ensures ComplementSum(b[word..20]) == 0xffff - WordAt(b, word) + ComplementSum(b[word + 2..20])
  {
    assert b[word..20][2..] == b[word + 2..20];
  }

  /** Corrects in place the checksum of `rewritten`, a first fragment whose addresses were changed from
      `original`'s; false when the checksum field is not in it. */
  method ReaddressTransportChecksum(rewritten: array<byte>, original: seq<byte>) returns (ok: bool)
    requires rewritten.Length >= 20 && |original| >= 20
    modifies rewritten
    ensures ok <==> Corrected(old(rewritten[..]), original).Some?
    ensures rewritten[..] == if ok then Corrected(old(rewritten[..]), original).value else old(rewritten[..])
  {
    hide WordSum, OnesSum;
    var header := rewritten[0] % 16 * 4;
    var protocol := rewritten[9];
    if protocol != TCP && protocol != UDP {
      return true;
    }
    var offset := if protocol == TCP then header + 16 else header + 6;
    if rewritten.Length < offset + 2 {
      return false;
    }
    var checksum := 256 * (rewritten[offset] as int) + rewritten[offset + 1] as int;
    if protocol == UDP && checksum == 0 {
      return true;
    }
    ghost var packet := rewritten[..];
    var sum := SumAddresses(rewritten, original, checksum);
    sum := Fold(sum);
    var updated := 0xffff - sum;
    if protocol == UDP && updated == 0 {
      updated := 0xffff;
    }
    rewritten[offset], rewritten[offset + 1] := updated / 256, updated % 256;
    return true;
  }

  /** What the call achieves for a first fragment: whatever octets follow it, if the datagram
      verified under the original addresses it verifies under the new ones. */
  lemma FirstFragmentVerifies(packet: seq<byte>, original: seq<byte>, rest: seq<byte>)
    requires |packet| >= 20 && |original| >= 20
    requires packet[9] == 6 || packet[9] == 17
    requires packet[0] % 16 >= 5 && packet[0] % 16 * 4 + (if packet[9] == 6 then 18 else 8) <= |packet|
    requires |packet| + |rest| < 0x1_0000
    requires Verifies(original[12..20], packet[9], packet[packet[0] % 16 * 4..] + rest)
    requires packet[9] == 17 ==> WordAt(packet, packet[0] % 16 * 4 + 6) != 0
    ensures Corrected(packet, original).Some?
    ensures var fixed := Corrected(packet, original).value;
            |fixed| == |packet| && fixed[12..20] == packet[12..20]
            && Verifies(fixed[12..20], packet[9], fixed[packet[0] % 16 * 4..] + rest)
            && (packet[9] == 17 ==> WordAt(fixed, packet[0] % 16 * 4 + 6) != 0)
  {
    hide Verifies, Updated, UpdateSum;
    var header := packet[0] % 16 * 4;
    var field := FieldOffset(packet[9]);
    var segment := packet[header..] + rest;
    var fixed := Corrected(packet, original).value;
    var u := Updated(packet[9], WordAt(segment, field), original[12..20], packet[12..20]);
    UpdatedVerifies(packet[9], original[12..20], packet[12..20], segment);
    assert fixed == PutWord(packet, header + field, u);
    assert fixed[header..] + rest == PutWord(segment, field, u);
    assert fixed[12..20] == packet[12..20];
  }
}
