/** Which name a compressed name is (section 4.1.4 of RFC 1035), and that `read_name` of
    `engine/src/direct_list.rs` reads exactly that one. */
module CompressedNames {
  import opened Bytes
  import opened Dns
  import opened DnsReaders

  // ----- names as walks through a message -----

  /** From a label to what follows it. */
  predicate LabelAt(m: Text, from: nat, to: nat) {
    from < |m| && 0 < m[from] < 64 && to == from + 1 + m[from] && to <= |m|
  }

  /** From a pointer to where it points. */
  predicate PointerAt(m: Text, from: nat, to: nat) {
    from + 1 < |m| && m[from] >= 192 && to == 256 * (m[from] as int - 192) + m[from + 1] as int
  }

  /** A walk along labels and pointers that ends at a root label. */
  predicate Walk(m: Text, walk: seq<nat>) {
    && walk != []
    && (forall i :: 0 <= i < |walk| - 1 ==> LabelAt(m, walk[i], walk[i + 1]) || PointerAt(m, walk[i], walk[i + 1]))
    && walk[|walk| - 1] < |m| && m[walk[|walk| - 1]] == 0
  }

  function Pointers(m: Text, walk: seq<nat>): nat {
    if |walk| < 2 then 0 else (if PointerAt(m, walk[0], walk[1]) then 1 else 0) + Pointers(m, walk[1..])
  }

  /** The labels passed, in order. */
  function Passed(m: Text, walk: seq<nat>): seq<Text> {
    if |walk| < 2 then []
    else (if LabelAt(m, walk[0], walk[1]) then [m[walk[0] + 1..walk[1]]] else []) + Passed(m, walk[1..])
  }

  /** The labels as text, in lower case. */
  function Decoded(labels: seq<Text>, lossy: Lossy): seq<Text> {
    if labels == [] then [] else [Lower(lossy(labels[0]))] + Decoded(labels[1..], lossy)
  }

  /** The name a walk spells, appended to `name`. */
  function Spelled(m: Text, walk: seq<nat>, lossy: Lossy, name: Text): Text {
    Joined(name, Decoded(Passed(m, walk), lossy))
  }

  lemma WalkOn(m: Text, walk: seq<nat>)
    requires Walk(m, walk) && |walk| > 1
    ensures Walk(m, walk[1..]) && walk[1..][0] == walk[1]
  {
    var rest := walk[1..];
    forall i | 0 <= i < |rest| - 1 ensures LabelAt(m, rest[i], rest[i + 1]) || PointerAt(m, rest[i], rest[i + 1]) {
      assert rest[i] == walk[i + 1] && rest[i + 1] == walk[i + 2];
    }
  }

  lemma WalkBack(m: Text, from: nat, walk: seq<nat>)
    requires Walk(m, walk) && (LabelAt(m, from, walk[0]) || PointerAt(m, from, walk[0]))
    ensures Walk(m, [from] + walk)
  {
    var all := [from] + walk;
    assert forall i :: 1 <= i < |all| - 1 ==> all[i] == walk[i - 1] && all[i + 1] == walk[i];
  }

  lemma SpelledLabel(m: Text, from: nat, walk: seq<nat>, lossy: Lossy, name: Text)
    requires walk != [] && LabelAt(m, from, walk[0])
    ensures Pointers(m, [from] + walk) == Pointers(m, walk)
    ensures Spelled(m, [from] + walk, lossy, name) ==
            Spelled(m, walk, lossy, Grown(name, Lower(lossy(m[from + 1..walk[0]]))))
  {
    hide Lower, Target;
    var all, l := [from] + walk, m[from + 1..walk[0]];
    assert all[1..] == walk && all[0] == from && all[1] == walk[0];
    assert Passed(m, all) == [l] + Passed(m, walk);
    assert Decoded([l] + Passed(m, walk), lossy) == [Lower(lossy(l))] + Decoded(Passed(m, walk), lossy) by {
      assert ([l] + Passed(m, walk))[1..] == Passed(m, walk);
    }
    JoinedFirst(name, Lower(lossy(l)), Decoded(Passed(m, walk), lossy));
  }

  lemma JoinedFirst(name: Text, first: Text, rest: seq<Text>)
    ensures Joined(name, [first] + rest) == Joined(Grown(name, first), rest)
  {
    assert ([first] + rest)[1..] == rest;
  }

  lemma SpelledPointer(m: Text, from: nat, walk: seq<nat>, lossy: Lossy, name: Text)
    requires walk != [] && PointerAt(m, from, walk[0])
    ensures Pointers(m, [from] + walk) == Pointers(m, walk) + 1
    ensures Spelled(m, [from] + walk, lossy, name) == Spelled(m, walk, lossy, name)
  {
    hide Joined, Decoded, Target;
    var all := [from] + walk;
    assert all[1..] == walk && all[0] == from && all[1] == walk[0];
    assert Passed(m, all) == Passed(m, walk);
  }

  lemma SpelledEnd(m: Text, at: nat, lossy: Lossy, name: Text)
    ensures Pointers(m, [at]) == 0 && Spelled(m, [at], lossy, name) == name
  {
  }

  lemma {:induction false} JoinedGrows(name: Text, labels: seq<Text>)
    ensures |name| <= |Joined(name, labels)|
    decreases |labels|
  {
    if labels != [] {
      JoinedGrows(Grown(name, labels[0]), labels[1..]);
    }
  }

  // ----- the reader follows exactly such a walk -----

  /** What is read is what a walk with few enough pointers spells. */
  lemma {:induction false} ReadWalks(m: Text, lossy: Lossy, name: Text, at: nat, jumps: nat, resume: Option<nat>)
    returns (walk: seq<nat>)
    requires jumps <= MAX_JUMPS && |name| <= MAX_NAME && ReadFrom(m, lossy, name, at, jumps, resume).Some?
    ensures Walk(m, walk) && walk[0] == at && jumps + Pointers(m, walk) <= MAX_JUMPS
    ensures ReadFrom(m, lossy, name, at, jumps, resume).value.name == Spelled(m, walk, lossy, name)
    ensures |Spelled(m, walk, lossy, name)| <= MAX_NAME
    decreases MAX_JUMPS - jumps, |m| - at
  {
    hide ReadFrom, Walk, Pointers, Spelled, Lower;
    if at >= |m| || m[at] == 0 || 63 < m[at] < 192 {
      ReadEnds(m, lossy, name, at, jumps, resume);
      walk := [at];
      EndWalks(m, at);
      SpelledEnd(m, at, lossy, name);
    } else if m[at] >= 192 {
      ReadPointer(m, lossy, name, at, jumps, resume);
      var rest := ReadWalks(m, lossy, name, Target(m, at), jumps + 1, Some(Resumed(resume, at + 2)));
      walk := [at] + rest;
      WalkBack(m, at, rest);
      SpelledPointer(m, at, rest, lossy, name);
    } else {
      ReadLabel(m, lossy, name, at, jumps, resume);
      var next := at + 1 + m[at];
      var rest := ReadWalks(m, lossy, Grown(name, Lower(lossy(m[at + 1..next]))), next, jumps, resume);
      walk := [at] + rest;
      WalkBack(m, at, rest);
      SpelledLabel(m, at, rest, lossy, name);
    }
  }

  lemma EndWalks(m: Text, at: nat)
    requires at < |m| && m[at] == 0
    ensures Walk(m, [at])
  {
  }

  /** And every such walk is read, unless the name is too long. */
  lemma {:induction false} WalkIsRead(m: Text, lossy: Lossy, name: Text, walk: seq<nat>, jumps: nat,
                                      resume: Option<nat>)
    requires Walk(m, walk) && jumps + Pointers(m, walk) <= MAX_JUMPS && |Spelled(m, walk, lossy, name)| <= MAX_NAME
    ensures ReadFrom(m, lossy, name, walk[0], jumps, resume).Some?
    ensures ReadFrom(m, lossy, name, walk[0], jumps, resume).value.name == Spelled(m, walk, lossy, name)
    decreases |walk|
  {
    hide ReadFrom, Pointers, Spelled, Lower;
    var at := walk[0];
    if |walk| == 1 {
      assert walk == [at];
      ReadEnds(m, lossy, name, at, jumps, resume);
      SpelledEnd(m, at, lossy, name);
    } else {
      var rest := walk[1..];
      WalkOn(m, walk);
      assert walk == [at] + rest;
      assert LabelAt(m, at, rest[0]) || PointerAt(m, at, rest[0]);
      hide Walk;
      if PointerAt(m, at, rest[0]) {
        SpelledPointer(m, at, rest, lossy, name);
        ReadPointer(m, lossy, name, at, jumps, resume);
        WalkIsRead(m, lossy, name, rest, jumps + 1, Some(Resumed(resume, at + 2)));
      } else {
        var grown := Grown(name, Lower(lossy(m[at + 1..rest[0]])));
        SpelledLabel(m, at, rest, lossy, name);
        SpelledGrows(m, rest, lossy, grown);
        ReadLabel(m, lossy, name, at, jumps, resume);
        WalkIsRead(m, lossy, grown, rest, jumps, resume);
      }
    }
  }

  lemma SpelledGrows(m: Text, walk: seq<nat>, lossy: Lossy, name: Text)
    ensures |name| <= |Spelled(m, walk, lossy, name)|
  {
    JoinedGrows(name, Decoded(Passed(m, walk), lossy));
  }

  /** `walk` spells a name from `at` that a reader should accept. */
  predicate Readable(m: Text, lossy: Lossy, at: nat, walk: seq<nat>) {
    && Walk(m, walk) && walk[0] == at && Pointers(m, walk) <= 16
    && |Spelled(m, walk, lossy, [])| <= 253
  }

  /** The reader accepts exactly the names that a walk of labels and at most sixteen pointers spells in
      at most 253 octets, and returns what the walk spells. */
  lemma ReadIff(m: Text, lossy: Lossy, at: nat)
    ensures ReadFrom(m, lossy, [], at, 0, None).Some? <==> exists walk :: Readable(m, lossy, at, walk)
    ensures forall walk :: Readable(m, lossy, at, walk) ==>
              && ReadFrom(m, lossy, [], at, 0, None).Some?
              && ReadFrom(m, lossy, [], at, 0, None).value.name == Spelled(m, walk, lossy, [])
  {
    hide ReadFrom, Walk, Pointers, Spelled;
    if ReadFrom(m, lossy, [], at, 0, None).Some? {
      var walk := ReadWalks(m, lossy, [], at, 0, None);
      assert Readable(m, lossy, at, walk);
    }
    forall walk | Readable(m, lossy, at, walk)
      ensures ReadFrom(m, lossy, [], at, 0, None).Some?
      ensures ReadFrom(m, lossy, [], at, 0, None).value.name == Spelled(m, walk, lossy, [])
    {
      assert Walk(m, walk) && walk != [] by { WalkNonempty(m, lossy, at, walk); }
      WalkIsRead(m, lossy, [], walk, 0, None);
    }
  }

  lemma WalkNonempty(m: Text, lossy: Lossy, at: nat, walk: seq<nat>)
    requires Readable(m, lossy, at, walk)
    ensures Walk(m, walk) && walk != []
  {
  }

  // ----- skipping -----

  /** A walk along labels that ends at a root label or at a pointer, with `next` the octet after it. */
  predicate LabelWalk(m: Text, walk: seq<nat>, next: nat) {
    && walk != []
    && (forall i :: 0 <= i < |walk| - 1 ==> LabelAt(m, walk[i], walk[i + 1]))
    && var end := walk[|walk| - 1];
       || (end < |m| && m[end] == 0 && next == end + 1)
       || (end + 1 < |m| && m[end] >= 192 && next == end + 2)
  }

  lemma {:induction false} SkipWalks(m: Text, at: nat) returns (walk: seq<nat>)
    requires SkipFrom(m, at).Some?
    ensures LabelWalk(m, walk, SkipFrom(m, at).value) && walk[0] == at
    decreases |m| - at
  {
    if m[at] == 0 || m[at] >= 192 {
      walk := [at];
    } else {
      var rest := SkipWalks(m, at + 1 + m[at]);
      walk := [at] + rest;
      assert LabelAt(m, at, rest[0]);
    }
  }

  lemma {:induction false} WalkSkips(m: Text, walk: seq<nat>, next: nat)
    requires LabelWalk(m, walk, next)
    ensures SkipFrom(m, walk[0]) == Some(next)
    decreases |walk|
  {
    if |walk| > 1 {
      assert LabelAt(m, walk[0], walk[1]);
      var rest := walk[1..];
      forall i | 0 <= i < |rest| - 1 ensures LabelAt(m, rest[i], rest[i + 1]) {
        assert rest[i] == walk[i + 1] && rest[i + 1] == walk[i + 2];
      }
      WalkSkips(m, rest, next);
    }
  }

  /** A name is skipped exactly when labels lead from its start to a root label or a pointer, whatever the
      pointer leads to, and what follows is the octet after that. */
  lemma SkipIff(m: Text, at: nat, next: nat)
    ensures SkipFrom(m, at) == Some(next) <==> exists walk :: LabelWalk(m, walk, next) && walk[0] == at
  {
    hide SkipFrom, LabelAt;
    if SkipFrom(m, at).Some? {
      var walk := SkipWalks(m, at);
    }
    forall walk | LabelWalk(m, walk, next) && walk[0] == at ensures SkipFrom(m, at) == Some(next) {
      WalkSkips(m, walk, next);
    }
  }
}
