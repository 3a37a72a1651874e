/** The Internet checksum (RFC 1071) of `engine/src/icmp.rs`. */
module Checksum {
  import opened Bytes

  /** The sum of the big-endian words of `b`; a last odd octet counts as the high half of a word. */
  function WordSum(b: seq<byte>): nat {
    if |b| == 0 then 0
    else if |b| == 1 then 256 * (b[0] as int)
    else WordAt(b, 0) + WordSum(b[2..])
  }

  /** The one's-complement sum: the representative of `s` modulo 65535 that is zero only for zero. */
  function OnesSum(s: nat): (r: nat)
    ensures r <= 0xffff && r % 0xffff == s % 0xffff && (r == 0 <==> s == 0)
  {
    if s == 0 then 0 else 1 + (s - 1) % 0xffff
  }

  function InternetChecksum(b: seq<byte>): (c: nat)
    ensures c <= 0xffff
    ensures c == 0 <==> WordSum(b) > 0 && WordSum(b) % 0xffff == 0
  {
    0xffff - OnesSum(WordSum(b))
  }

  /** Folding the carries back in computes the one's-complement sum. */
  method Fold(start: nat) returns (sum: nat)
    ensures sum == OnesSum(start)
  {
    sum := start;
    while sum > 0xffff
      invariant OnesSum(sum) == OnesSum(start)
    {
      FoldStep(sum);
      sum := sum % 0x1_0000 + sum / 0x1_0000;
    }
  }

  lemma FoldStep(sum: nat)
    requires sum > 0xffff
    ensures OnesSum(sum % 0x1_0000 + sum / 0x1_0000) == OnesSum(sum)
  {
    var q, r := sum / 0x1_0000, sum % 0x1_0000;
    assert sum == 0xffff * q + (q + r);
    ModShift(q + r - 1, q);
  }

  lemma ModShift(a: nat, k: nat)
    ensures (0xffff * k + a) % 0xffff == a % 0xffff
  {
  }

  /** The accumulation loop with its 32-bit accumulator, which cannot wrap for any IPv4 packet. */
  method ComputeChecksum(b: seq<byte>) returns (c: nat)
    requires |b| <= 0x2_0000
    ensures c == InternetChecksum(b)
  {
    var sum, i := 0, 0;
    while i + 2 <= |b|
      invariant 0 <= i <= |b| && i % 2 == 0
      invariant sum + WordSum(b[i..]) == WordSum(b)
      invariant sum <= i / 2 * 0xffff
    {
      assert b[i..][2..] == b[i + 2..];
      sum := sum + WordAt(b, i);
      i := i + 2;
    }
    if i < |b| {
      sum := sum + 256 * (b[i] as int);
    }
    assert sum < 0x1_0000_0000;
    var folded := Fold(sum);
    c := 0xffff - folded;
  }

  lemma {:induction false} WordSumConcat(a: seq<byte>, b: seq<byte>)
    requires |a| % 2 == 0
    ensures WordSum(a + b) == WordSum(a) + WordSum(b)
  {
    if |a| == 0 {
      assert a + b == b;
    } else {
      assert (a + b)[2..] == a[2..] + b;
      WordSumConcat(a[2..], b);
    }
  }

  /** Overwriting an aligned word changes the sum by exactly the difference of the two words. */
  lemma WordSumPut(b: seq<byte>, i: nat, w: nat)
    requires i % 2 == 0 && i + 2 <= |b| && w < 0x1_0000
    ensures WordSum(PutWord(b, i, w)) == WordSum(b) - WordAt(b, i) + w
  {
    var r := PutWord(b, i, w);
    WordSumSplit(b, i);
    WordSumSplit(r, i);
    assert r[..i] == b[..i];
    assert r[i + 2..] == b[i + 2..];
  }

  lemma WordSumSplit(b: seq<byte>, i: nat)
    requires i % 2 == 0 && i + 2 <= |b|
    ensures WordSum(b) == WordSum(b[..i]) + WordAt(b, i) + WordSum(b[i + 2..])
  {
    assert b == b[..i] + b[i..];
    WordSumConcat(b[..i], b[i..]);
    assert b[i..][2..] == b[i + 2..];
  }

  /** A checksum written over a zeroed aligned field makes the whole verify: the receiver computes 0. */
  lemma WrittenChecksumVerifies(b: seq<byte>, i: nat)
    requires i % 2 == 0 && i + 2 <= |b| && WordAt(b, i) == 0
    ensures InternetChecksum(PutWord(b, i, InternetChecksum(b))) == 0
  {
    var c := InternetChecksum(b);
    WordSumPut(b, i, c);
    var s := WordSum(b);
    assert (s + c) % 0xffff == 0 by {
      assert s + c - 0xffff == s - OnesSum(s);
      ModDifference(s, OnesSum(s));
    }
  }

  lemma ModDifference(a: nat, b: nat)
    requires a % 0xffff == b % 0xffff && b <= 0xffff
    ensures (a + 0xffff - b) % 0xffff == 0
  {
    var k := a / 0xffff - b / 0xffff + 1;
    assert a + 0xffff - b == 0xffff * k;
  }
}
