/** DNS names: the query printer and question reader of `engine/src/dns.rs`. Strings are their UTF-8
    octets. */
module Dns {
  import opened Bytes

  const HEADER_LEN := 12
  const DOT: byte := 46
  const TAIL: seq<byte> := [0, 0, 1, 0, 1]  // the root label, type A, class IN

  type Text = seq<byte>

  function LowerByte(b: byte): byte {
    if 65 <= b <= 90 then b + 32 else b
  }

  function Lower(s: Text): (r: Text)
    ensures |r| == |s| && forall i :: 0 <= i < |s| ==> r[i] == LowerByte(s[i])
  {
    seq(|s|, i requires 0 <= i < |s| => LowerByte(s[i]))
  }

  /** The same octet, or the same ASCII letter in the other case. */
  predicate SameLetter(b: byte, c: byte) {
    b == c || (65 <= b <= 90 && c == b + 32) || (65 <= c <= 90 && b == c + 32)
  }

  /** Lower case leaves no capital, and makes equal exactly what differs in case alone. */
  lemma LowerIff(s: Text, t: Text)
    ensures Lower(s) == Lower(t) <==> |s| == |t| && forall i :: 0 <= i < |s| ==> SameLetter(s[i], t[i])
    ensures forall i :: 0 <= i < |s| ==> !(65 <= Lower(s)[i] <= 90)
  {
    var l, r := Lower(s), Lower(t);
    if |s| == |t| {
      assert forall i :: 0 <= i < |s| ==> (l[i] == r[i] <==> SameLetter(s[i], t[i]));
    }
  }

  // ----- labels -----

  /** The pieces between the dots, empty ones included. */
  function Split(h: Text): (r: seq<Text>)
    ensures r != [] && forall p <- r :: DOT !in p
  {
    if h == [] then [[]]
    else
      var rest := Split(h[1..]);
      assert rest[0] in rest && forall p <- rest[1..] :: p in rest;
      if h[0] == DOT then [[]] + rest else [[h[0]] + rest[0]] + rest[1..]
  }

  function NonEmpty(pieces: seq<Text>): (r: seq<Text>)
    ensures forall p :: p in r <==> p in pieces && p != []
  {
    if pieces == [] then [] else (if pieces[0] == [] then [] else [pieces[0]]) + NonEmpty(pieces[1..])
  }

  function Labels(h: Text): seq<Text> {
    NonEmpty(Split(h))
  }

  function Grown(name: Text, part: Text): Text {
    if name == [] then part else name + [DOT] + part
  }

  /** `name` with each label appended after a dot. */
  function Joined(name: Text, labels: seq<Text>): Text
    decreases |labels|
  {
    if labels == [] then name else Joined(Grown(name, labels[0]), labels[1..])
  }

  /** The pieces with a dot between each two. */
  function Dotted(pieces: seq<Text>): Text
    requires pieces != []
  {
    if |pieces| == 1 then pieces[0] else pieces[0] + [DOT] + Dotted(pieces[1..])
  }

  lemma {:induction false} DottedSplit(h: Text)
    ensures Dotted(Split(h)) == h
  {
    if h != [] {
      DottedSplit(h[1..]);
      var rest := Split(h[1..]);
      if h[0] == DOT {
        assert ([[]] + rest)[1..] == rest;
      } else {
        var first := [h[0]] + rest[0];
        assert ([first] + rest[1..])[1..] == rest[1..];
        assert Dotted([first] + rest[1..]) == [h[0]] + Dotted(rest);
      }
    }
  }

  lemma {:induction false} JoinedIsDotted(name: Text, labels: seq<Text>)
    requires name != []
    ensures Joined(name, labels) == Dotted([name] + labels)
    decreases |labels|
  {
    if labels != [] {
      var grown := Grown(name, labels[0]);
      JoinedIsDotted(grown, labels[1..]);
      DottedShift(name, labels);
    }
  }

  lemma DottedShift(name: Text, labels: seq<Text>)
    requires labels != []
    ensures Dotted([name] + labels) == Dotted([name + [DOT] + labels[0]] + labels[1..])
  {
    hide Dotted;
    var first := name + [DOT] + labels[0];
    var rest := labels[1..];
    assert labels == [labels[0]] + rest;
    DottedFirst(name, labels);
    if rest == [] {
      assert labels == [labels[0]] && [first] + rest == [first];
      DottedOne(first);
      DottedOne(labels[0]);
    } else {
      DottedFirst(first, rest);
      DottedFirst(labels[0], rest);
    }
  }

  lemma DottedOne(first: Text)
    ensures Dotted([first]) == first
  {
  }

  lemma DottedFirst(first: Text, rest: seq<Text>)
    requires rest != []
    ensures Dotted([first] + rest) == first + [DOT] + Dotted(rest)
  {
    assert ([first] + rest)[1..] == rest;
  }

  lemma {:induction false} NonEmptyAll(pieces: seq<Text>)
    requires [] !in pieces
    ensures NonEmpty(pieces) == pieces
  {
    if pieces != [] {
      NonEmptyAll(pieces[1..]);
    }
  }

  /** A hostname without empty labels is its labels, joined. */
  lemma PlainHostname(h: Text)
    requires [] !in Split(h)
    ensures Joined([], Labels(h)) == h
  {
    var pieces := Split(h);
    NonEmptyAll(pieces);
    DottedSplit(h);
    assert pieces == [pieces[0]] + pieces[1..] && pieces[0] in pieces;
    JoinedIsDotted(pieces[0], pieces[1..]);
  }

  // ----- printing a query -----

  function Wire(labels: seq<Text>): Text
    requires forall l <- labels :: |l| <= 63
  {
    if labels == [] then [] else [|labels[0]| as byte] + labels[0] + Wire(labels[1..])
  }

  function WireLength(labels: seq<Text>): nat {
    if labels == [] then 0 else 1 + |labels[0]| + WireLength(labels[1..])
  }

  function Header(id: nat): (r: Text)
    requires id < 0x1_0000
    ensures |r| == HEADER_LEN && WordAt(r, 0) == id && WordAt(r, 2) == 0x0100 && WordAt(r, 4) == 1
    ensures WordAt(r, 6) == WordAt(r, 8) == WordAt(r, 10) == 0
  {
    [id / 256, id % 256, 1, 0, 0, 1, 0, 0, 0, 0, 0, 0]
  }

  predicate ShortLabels(h: Text) {
    forall l <- Labels(h) :: |l| <= 63
  }

  predicate Encodable(h: Text) {
    ShortLabels(h) && WireLength(Labels(h)) <= 255
  }

  function Message(id: nat, h: Text): Text
    requires id < 0x1_0000 && ShortLabels(h)
  {
    Header(id) + Wire(Labels(h)) + TAIL
  }

  lemma {:induction false} WireSize(labels: seq<Text>)
    requires forall l <- labels :: |l| <= 63
    ensures |Wire(labels)| == WireLength(labels)
  {
    if labels != [] {
      WireSize(labels[1..]);
    }
  }

  lemma {:induction false} WireAppend(labels: seq<Text>, l: Text)
    requires |l| <= 63 && forall l <- labels :: |l| <= 63
    ensures Wire(labels + [l]) == Wire(labels) + [|l| as byte] + l
  {
    if labels == [] {
      assert [l][1..] == [];
    } else {
      WireAppend(labels[1..], l);
      assert (labels + [l])[1..] == labels[1..] + [l];
    }
  }

  /** A query is printed exactly for the encodable names. */
  method Query(id: nat, hostname: Text) returns (r: Option<Text>)
    requires id < 0x1_0000
    ensures r.Some? <==> Encodable(hostname)
    ensures r.Some? ==> r.value == Message(id, hostname)
  {
    hide Labels, Wire, WireLength;
    var message := Header(id);
    var labels := Labels(hostname);
    assert Wire([]) == [] by { WireSize([]); NoWire(); }
    for i := 0 to |labels|
      invariant forall l <- labels[..i] :: |l| <= 63
      invariant message == Header(id) + Wire(labels[..i])
    {
      var part := labels[i];
      assert part in labels;
      if |part| > 63 {
        return None;
      }
      WireAppend(labels[..i], part);
      assert labels[..i + 1] == labels[..i] + [part];
      message := message + [|part| as byte];
      message := message + part;
    }
    assert labels[..|labels|] == labels;
    message := message + TAIL;
    WireSize(labels);
    r := if |message| <= 255 + HEADER_LEN + 5 then Some(message) else None;
  }

  lemma NoWire()
    ensures Wire([]) == [] && WireLength([]) == 0
  {
  }

  // ----- reading the question back -----

  /** What `String::from_utf8_lossy` makes of a label; the identity on valid UTF-8. */
  type Lossy = Text -> Text

  function QuestionFrom(m: Text, lossy: Lossy, name: Text, at: nat): Option<Text>
    decreases |m| - at
  {
    if at >= |m| then None
    else if m[at] == 0 then Some(name)
    else if m[at] > 63 || |name| + m[at] > 255 then None
    else
      var next := at + 1 + m[at];
      if next > |m| then None
      else QuestionFrom(m, lossy, Grown(name, Lower(lossy(m[at + 1..next]))), next)
  }

  lemma QuestionStep(m: Text, lossy: Lossy, name: Text, at: nat)
    requires at < |m| && 0 < m[at] <= 63 && |name| + m[at] <= 255 && at + 1 + m[at] <= |m|
    ensures var next := at + 1 + m[at];
            QuestionFrom(m, lossy, name, at) == QuestionFrom(m, lossy, Grown(name, Lower(lossy(m[at + 1..next]))), next)
  {
  }

  lemma QuestionEnds(m: Text, lossy: Lossy, name: Text, at: nat)
    requires at >= |m| || m[at] == 0 || m[at] > 63 || |name| + m[at] > 255 || at + 1 + m[at] > |m|
    ensures QuestionFrom(m, lossy, name, at) == if at < |m| && m[at] == 0 then Some(name) else None
  {
  }

  method QuestionName(message: Text, lossy: Lossy) returns (r: Option<Text>)
    ensures r == QuestionFrom(message, lossy, [], HEADER_LEN)
  {
    hide QuestionFrom, Lower;
    var name: Text := [];
    var offset: nat := HEADER_LEN;
    while true
      invariant QuestionFrom(message, lossy, [], HEADER_LEN) == QuestionFrom(message, lossy, name, offset)
      decreases |message| - offset
    {
      if offset >= |message| {
        QuestionEnds(message, lossy, name, offset);
        return None;
      }
      var length := message[offset] as int;
      if length == 0 {
        QuestionEnds(message, lossy, name, offset);
        return Some(name);
      }
      if length > 63 || |name| + length > 255 || offset + 1 + length > |message| {
        QuestionEnds(message, lossy, name, offset);
      } else {
        QuestionStep(message, lossy, name, offset);
      }
      if length > 63 || |name| + length > 255 {
        return None;
      }
      if offset + 1 + length > |message| {
        return None;
      }
      var part := message[offset + 1..offset + 1 + length];
      ghost var grown := Grown(name, Lower(lossy(part)));
      if name != [] {
        name := name + [DOT];
      }
      name := name + Lower(lossy(part));
      assert name == grown;
      offset := offset + 1 + length;
    }
  }

  lemma LowerGrown(name: Text, part: Text)
    ensures Lower(Grown(name, part)) == Grown(Lower(name), Lower(part))
  {
    assert Lower(name) == [] <==> name == [];
  }

  lemma WalkLabel(m: Text, at: nat, l: Text, lossy: Lossy, name: Text)
    requires 0 < |l| <= 63 && lossy(l) == l && |name| + |l| <= 255
    requires at + 1 + |l| <= |m| && m[at] == |l| && m[at + 1..at + 1 + |l|] == l
    ensures QuestionFrom(m, lossy, Lower(name), at) == QuestionFrom(m, lossy, Lower(Grown(name, l)), at + 1 + |l|)
  {
    hide QuestionFrom;
    LowerGrown(name, l);
    QuestionStep(m, lossy, Lower(name), at);
  }

  /** The labels stand at `at` in `m`, one length octet before each, and the root label after them. */
  predicate PrintedAt(m: Text, at: nat, labels: seq<Text>)
    decreases |labels|
  {
    if labels == [] then at < |m| && m[at] == 0
    else
      var next := at + 1 + |labels[0]|;
      next <= |m| && m[at] == |labels[0]| && m[at + 1..next] == labels[0] && PrintedAt(m, next, labels[1..])
  }

  lemma {:induction false} WalkQuestion(m: Text, at: nat, labels: seq<Text>, lossy: Lossy, name: Text)
    requires PrintedAt(m, at, labels)
    requires forall l <- labels :: 0 < |l| <= 63 && lossy(l) == l
    requires |name| + WireLength(labels) <= 255
    ensures QuestionFrom(m, lossy, Lower(name), at) == Some(Lower(Joined(name, labels)))
    decreases |labels|
  {
    hide QuestionFrom, Lower;
    if labels == [] {
      QuestionEnds(m, lossy, Lower(name), at);
    } else {
      var l, rest := labels[0], labels[1..];
      assert l in labels && forall x <- rest :: x in labels;
      WalkLabel(m, at, l, lossy, name);
      WalkQuestion(m, at + 1 + |l|, rest, lossy, Grown(name, l));
    }
  }

  lemma {:induction false} WirePrinted(pre: Text, labels: seq<Text>)
    requires forall l <- labels :: |l| <= 63
    ensures PrintedAt(pre + Wire(labels) + TAIL, |pre|, labels)
    decreases |labels|
  {
    hide Wire;
    if labels == [] {
      NoWire();
    } else {
      var l, rest := labels[0], labels[1..];
      assert forall x <- rest :: x in labels;
      assert l in labels;
      WireFirst(pre, labels);
      WirePrinted(pre + [|l| as byte] + l, rest);
    }
  }

  /** The first label of a printed name, as a reader meets it. */
  lemma WireFirst(pre: Text, labels: seq<Text>)
    requires labels != [] && forall l <- labels :: |l| <= 63
    ensures var l := labels[0]; var m := pre + Wire(labels) + TAIL; var next := |pre| + 1 + |l|;
            && next <= |m| && m[|pre|] == |l| && m[|pre| + 1..next] == l
            && m == pre + [|l| as byte] + l + Wire(labels[1..]) + TAIL
  {
    var l := labels[0];
    assert l in labels;
    assert Wire(labels) == [|l| as byte] + l + Wire(labels[1..]);
    Peel(pre, |l| as byte, l, Wire(labels[1..]), TAIL);
  }

  lemma Peel(pre: Text, x: byte, l: Text, rest: Text, tail: Text)
    ensures var m := pre + ([x] + l + rest) + tail; var next := |pre| + 1 + |l|;
            && next <= |m| && m[|pre|] == x && m[|pre| + 1..next] == l
            && m == pre + [x] + l + rest + tail
  {
    var m := pre + ([x] + l + rest) + tail;
    assert m == pre + [x] + l + rest + tail;
    assert m[|pre| + 1..|pre| + 1 + |l|] == l;
  }

  /** The name read from a printed query is the hostname in lower case, empty labels dropped. */
  lemma QueryRoundTrip(id: nat, h: Text, lossy: Lossy)
    requires id < 0x1_0000 && Encodable(h)
    requires forall l <- Labels(h) :: lossy(l) == l
    ensures QuestionFrom(Message(id, h), lossy, [], HEADER_LEN) == Some(Lower(Joined([], Labels(h))))
    ensures [] !in Split(h) ==> QuestionFrom(Message(id, h), lossy, [], HEADER_LEN) == Some(Lower(h))
  {
    hide Split, QuestionFrom, Wire, Joined, WireLength;
    WirePrinted(Header(id), Labels(h));
    WalkQuestion(Message(id, h), HEADER_LEN, Labels(h), lossy, []);
    assert Lower([]) == [];
    if [] !in Split(h) {
      PlainHostname(h);
    }
  }

  lemma LabelsNonEmpty(h: Text)
    ensures forall l <- Labels(h) :: l != []
  {
  }

  // ----- the limit on a name -----

  /** The name as it stands in the message, root label included. */
  function NameLength(h: Text): nat {
    WireLength(Labels(h)) + 1
  }

  /** The printer's own comment promises names of at most 255 octets on the wire, the limit of
      section 3.1 of RFC 1035. It keeps that promise exactly for the names that are not 256 octets
      long. */
  lemma LimitKeptIff(h: Text)
    requires ShortLabels(h)
    ensures (Encodable(h) <==> NameLength(h) <= 255) <==> NameLength(h) != 256
  {
    hide Labels, WireLength;
  }

  lemma {:induction false} SplitLabel(l: Text, rest: Text)
    requires DOT !in l
    ensures Split(l + [DOT] + rest) == [l] + Split(rest)
  {
    var h := l + [DOT] + rest;
    if l == [] {
      assert h[1..] == rest;
    } else {
      assert h[1..] == l[1..] + [DOT] + rest;
      assert h[0] == l[0] && l[0] in l;
      SplitLabel(l[1..], rest);
      assert [l[0]] + l[1..] == l;
      assert Split(h) == [[h[0]] + l[1..]] + Split(rest);
    }
  }

  lemma {:induction false} SplitOne(l: Text)
    requires DOT !in l
    ensures Split(l) == [l]
  {
    if l != [] {
      SplitOne(l[1..]);
      assert l[0] in l && [l[0]] + l[1..] == l;
    }
  }

  function Letters(n: nat): (r: Text)
    ensures |r| == n && DOT !in r
  {
    seq(n, _ => 97)
  }

  /** Labels of 63, 63, 63 and 62 letters are printed as a name of 256 octets. */
  lemma LimitExceeded()
    ensures exists h :: Encodable(h) && NameLength(h) == 256
  {
    hide Split;
    var a, b := Letters(63), Letters(62);
    var h := a + [DOT] + (a + [DOT] + (a + [DOT] + b));
    SplitLabel(a, a + [DOT] + (a + [DOT] + b));
    SplitLabel(a, a + [DOT] + b);
    SplitLabel(a, b);
    SplitOne(b);
    assert Split(h) == [a] + ([a] + ([a] + [b])) == [a, a, a, b];
    NonEmptyAll([a, a, a, b]);
    assert Labels(h) == [a, a, a, b];
    FourLabels(a, a, a, b);
    assert ShortLabels(h) && NameLength(h) == 256;
  }

  lemma FourLabels(a: Text, b: Text, c: Text, d: Text)
    ensures WireLength([a, b, c, d]) == 4 + |a| + |b| + |c| + |d|
  {
    assert [a, b, c, d][1..] == [b, c, d] && [b, c, d][1..] == [c, d] && [c, d][1..] == [d] && [d][1..] == [];
    assert WireLength([d]) == 1 + |d|;
    assert WireLength([c, d]) == 2 + |c| + |d|;
    assert WireLength([b, c, d]) == 3 + |b| + |c| + |d|;
  }
}
