/** The hand-built ICMP echoes of `engine/src/icmp.rs`. */
module Echo {
  import opened Bytes
  import opened Checksum

  /** "gamepath-data-plane" in ASCII. */
  const PAYLOAD: seq<byte> := [103, 97, 109, 101, 112, 97, 116, 104, 45, 100, 97, 116, 97, 45, 112, 108, 97, 110, 101]

  const TOTAL_LENGTH := 47

  lemma PayloadIs()
    ensures |PAYLOAD| == |"gamepath-data-plane"|
    ensures forall i :: 0 <= i < |PAYLOAD| ==> PAYLOAD[i] == "gamepath-data-plane"[i] as int
  {
  }

  /** The octets of `bytes` written over `packet` from offset `at`. */
  function Splice(packet: seq<byte>, at: nat, bytes: seq<byte>): (r: seq<byte>)
    requires at + |bytes| <= |packet|
    ensures |r| == |packet|
    ensures forall j :: 0 <= j < |packet| && (j < at || at + |bytes| <= j) ==> r[j] == packet[j]
    ensures r[at..at + |bytes|] == bytes
  {
    packet[..at] + bytes + packet[at + |bytes|..]
  }

  /** The sequence of an echo reply that answers `identifier`, as the parser reads it. */
  function ReplySequence(packet: seq<byte>, source: seq<byte>, destination: seq<byte>, identifier: nat): Option<nat>
  {
    if |packet| < 28 || packet[0] / 16 != 4 then None
    else
      var headerLength := packet[0] % 16 * 4;
      var totalLength := WordAt(packet, 2);
      if headerLength < 20 || totalLength < headerLength + 8 || totalLength > |packet| || packet[9] != 1
         || packet[12..16] != source || packet[16..20] != destination || WordAt(packet, 6) % 0x4000 != 0
      then None
      else
        var echo := packet[headerLength..totalLength];
        if echo[0] == 0 && echo[1] == 0 && WordAt(echo, 4) == identifier && InternetChecksum(echo) == 0
        then Some(WordAt(echo, 6))
        else None
  }

  /** The parser accepts exactly the whole, unfragmented IPv4 packets that carry an ICMP echo reply from
      `source` to `destination` with the identifier and a verifying checksum, options or not. */
  lemma ReplyIff(p: seq<byte>, source: seq<byte>, destination: seq<byte>, identifier: nat, sequence: nat)
    ensures |p| < 28 ==> ReplySequence(p, source, destination, identifier) == None
    ensures |p| >= 28 ==>
            var (h, t) := (p[0] % 16 * 4, 256 * (p[2] as int) + p[3] as int);
            ReplySequence(p, source, destination, identifier) == Some(sequence)
            <==>
            && p[0] / 16 == 4 && 20 <= h && h + 8 <= t <= |p| && p[9] == 1 && p[6] % 64 == 0 && p[7] == 0
            && p[12..16] == source && p[16..20] == destination
            && p[h] == 0 && p[h + 1] == 0 && 256 * (p[h + 4] as int) + p[h + 5] as int == identifier
            && 256 * (p[h + 6] as int) + p[h + 7] as int == sequence && InternetChecksum(p[h..t]) == 0
  {
    if |p| >= 28 {
      var (h, t) := (p[0] % 16 * 4, WordAt(p, 2));
      if 20 <= h && h + 8 <= t <= |p| {
        var echo := p[h..t];
        assert echo[0] == p[h] && echo[1] == p[h + 1] && WordAt(echo, 4) == WordAt(p, h + 4)
               && WordAt(echo, 6) == WordAt(p, h + 6);
      }
    }
  }

  method EchoHeader(source: seq<byte>, destination: seq<byte>) returns (header: seq<byte>)
    requires |source| == 4 && |destination| == 4
    ensures |header| == 20 && header[0] == 0x45 && header[9] == 1
    ensures WordAt(header, 2) == 47 && WordAt(header, 6) == 0x4000
    ensures header[12..16] == source && header[16..20] == destination
    ensures InternetChecksum(header) == 0
  {
    header := seq(20, _ => 0);
    header := header[0 := 0x45][8 := 64][9 := 1];
    header := PutWord(header, 2, TOTAL_LENGTH);
    header := PutWord(header, 6, 0x4000);
    header := Splice(header, 12, source);
    header := Splice(header, 16, destination);
    assert header[10] == 0 && header[11] == 0;
    var checksum := ComputeChecksum(header);
    WrittenChecksumVerifies(header, 10);
    header := PutWord(header, 10, checksum);
  }

  method EchoMessage(identifier: nat, sequence: nat, reply: bool) returns (echo: seq<byte>)
    requires identifier < 0x1_0000 && sequence < 0x1_0000
    ensures |echo| == 27 && echo[0] == (if reply then 0 else 8) && echo[1] == 0
    ensures WordAt(echo, 4) == identifier && WordAt(echo, 6) == sequence && echo[8..] == PAYLOAD
    ensures InternetChecksum(echo) == 0
  {
    echo := seq(8, _ => 0);
    echo := echo[0 := if reply then 0 else 8];
    echo := PutWord(echo, 4, identifier);
    echo := PutWord(echo, 6, sequence);
    echo := echo + PAYLOAD;
    assert echo[2] == 0 && echo[3] == 0;
    var checksum := ComputeChecksum(echo);
    WrittenChecksumVerifies(echo, 2);
    echo := PutWord(echo, 2, checksum);
  }

  /** Builds an echo. Its two checksums verify, and the parser reads the sequence back out of it for
      exactly the addresses and the identifier it was built with, and only from a reply. */
  method EchoPacket(source: seq<byte>, destination: seq<byte>, identifier: nat, sequence: nat, reply: bool)
    returns (packet: seq<byte>)
    requires |source| == 4 && |destination| == 4
    requires identifier < 0x1_0000 && sequence < 0x1_0000
    ensures |packet| == 47 && WordAt(packet, 2) == 47
    ensures InternetChecksum(packet[..20]) == 0 && InternetChecksum(packet[20..]) == 0
    ensures packet[28..] == PAYLOAD
    ensures forall s, d, i :: ReplySequence(packet, s, d, i) ==
                              if reply && s == source && d == destination && i == identifier
                              then Some(sequence) else None
  {
    var header := EchoHeader(source, destination);
    var echo := EchoMessage(identifier, sequence, reply);
    packet := header + echo;
    assert packet[..20] == header && packet[20..] == echo;
    assert packet[20..TOTAL_LENGTH] == echo;
    assert packet[12..16] == source && packet[16..20] == destination;
  }
}
