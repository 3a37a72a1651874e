/** The readers of names in DNS replies: `skip_name` of `engine/src/dns.rs` and `read_name` of
    `engine/src/direct_list.rs`, which follows compression pointers. */
module DnsReaders {
  import opened Bytes
  import opened Dns

  const MAX_JUMPS := 16
  const MAX_NAME := 253

  function SkipFrom(m: Text, at: nat): (r: Option<nat>)
    ensures r.Some? ==> at < r.value <= |m|
    decreases |m| - at
  {
    if at >= |m| then None
    else if m[at] == 0 then Some(at + 1)
    else if m[at] >= 192 then if at + 1 < |m| then Some(at + 2) else None
    else if m[at] < 64 then SkipFrom(m, at + 1 + m[at])
    else None
  }

  method SkipName(message: Text, start: nat) returns (r: Option<nat>)
    ensures r == SkipFrom(message, start)
  {
    var at := start;
    while true
      invariant SkipFrom(message, start) == SkipFrom(message, at)
      decreases |message| - at
    {
      if at >= |message| {
        return None;
      }
      var length := message[at] as int;
      if length == 0 {
        return Some(at + 1);
      } else if length >= 192 {
        return if at + 1 < |message| then Some(at + 2) else None;
      } else if length < 64 {
        at := at + 1 + length;
      } else {
        return None;
      }
    }
  }

  datatype Read = Read(name: Text, next: nat)

  function Target(m: Text, at: nat): nat
    requires at + 1 < |m| && m[at] >= 192
  {
    (m[at] as int - 192) * 256 + m[at + 1] as int
  }

  /** Where reading goes on: past the first pointer, when there was one. */
  function Resumed(resume: Option<nat>, at: nat): nat {
    if resume.Some? then resume.value else at
  }

  /** Either a pointer is followed, of which there are at most sixteen, or the offset grows. */
  function ReadFrom(m: Text, lossy: Lossy, name: Text, at: nat, jumps: nat, resume: Option<nat>): Option<Read>
    requires jumps <= MAX_JUMPS
    decreases MAX_JUMPS - jumps, |m| - at
  {
    if at >= |m| then None
    else if m[at] >= 192 then
      if at + 1 >= |m| || jumps == MAX_JUMPS then None
      else ReadFrom(m, lossy, name, Target(m, at), jumps + 1, Some(Resumed(resume, at + 2)))
    else if m[at] > 63 then None
    else if m[at] == 0 then Some(Read(name, Resumed(resume, at + 1)))
    else
      var next := at + 1 + m[at];
      if next > |m| then None
      else
        var grown := Grown(name, Lower(lossy(m[at + 1..next])));
        if |grown| > MAX_NAME then None else ReadFrom(m, lossy, grown, next, jumps, resume)
  }

  lemma ReadLabel(m: Text, lossy: Lossy, name: Text, at: nat, jumps: nat, resume: Option<nat>)
    requires jumps <= MAX_JUMPS && at < |m| && 0 < m[at] <= 63
    ensures var next := at + 1 + m[at];
            ReadFrom(m, lossy, name, at, jumps, resume) ==
              if next > |m| || |Grown(name, Lower(lossy(m[at + 1..next])))| > MAX_NAME then None
              else ReadFrom(m, lossy, Grown(name, Lower(lossy(m[at + 1..next]))), next, jumps, resume)
  {
  }

  lemma ReadPointer(m: Text, lossy: Lossy, name: Text, at: nat, jumps: nat, resume: Option<nat>)
    requires jumps <= MAX_JUMPS && at < |m| && m[at] >= 192
    ensures ReadFrom(m, lossy, name, at, jumps, resume) ==
              if at + 1 >= |m| || jumps == MAX_JUMPS then None
              else ReadFrom(m, lossy, name, Target(m, at), jumps + 1, Some(Resumed(resume, at + 2)))
  {
  }

  lemma ReadEnds(m: Text, lossy: Lossy, name: Text, at: nat, jumps: nat, resume: Option<nat>)
    requires jumps <= MAX_JUMPS && (at >= |m| || m[at] == 0 || 63 < m[at] < 192)
    ensures ReadFrom(m, lossy, name, at, jumps, resume) ==
              if at < |m| && m[at] == 0 then Some(Read(name, Resumed(resume, at + 1))) else None
  {
  }

  method ReadName(message: Text, lossy: Lossy, start: nat) returns (r: Option<Read>)
    ensures r == ReadFrom(message, lossy, [], start, 0, None)
  {
    hide ReadFrom, Lower;
    var name: Text := [];
    var resume: Option<nat> := None;
    var jumps: nat := 0;
    var offset: nat := start;
    while true
      invariant jumps <= MAX_JUMPS
      invariant ReadFrom(message, lossy, [], start, 0, None) == ReadFrom(message, lossy, name, offset, jumps, resume)
      decreases MAX_JUMPS - jumps, |message| - offset
    {
      if offset >= |message| {
        ReadEnds(message, lossy, name, offset, jumps, resume);
        return None;
      }
      var length := message[offset] as int;
      if length >= 192 {
        ReadPointer(message, lossy, name, offset, jumps, resume);
        if offset + 1 >= |message| {
          return None;
        }
        var low := message[offset + 1] as int;
        if resume.None? {
          resume := Some(offset + 2);
        }
        offset := (length - 192) * 256 + low;
        jumps := jumps + 1;
        if jumps > MAX_JUMPS {
          return None;
        }
      } else {
        if length > 63 || length == 0 {
          ReadEnds(message, lossy, name, offset, jumps, resume);
        } else {
          ReadLabel(message, lossy, name, offset, jumps, resume);
        }
        if length > 63 {
          return None;
        }
        offset := offset + 1;
        if length == 0 {
          return Some(Read(name, Resumed(resume, offset)));
        }
        if offset + length > |message| {
          return None;
        }
        var part := message[offset..offset + length];
        ghost var grown := Grown(name, Lower(lossy(part)));
        if name != [] {
          name := name + [DOT];
        }
        name := name + Lower(lossy(part));
        assert name == grown;
        if |name| > MAX_NAME {
          return None;
        }
        offset := offset + length;
      }
    }
  }

  // ----- both readers go on from the same place -----

  lemma {:induction false} ResumeKept(m: Text, lossy: Lossy, name: Text, at: nat, jumps: nat, resume: Option<nat>)
    requires jumps <= MAX_JUMPS && resume.Some?
    ensures var r := ReadFrom(m, lossy, name, at, jumps, resume); r.Some? ==> r.value.next == resume.value
    decreases MAX_JUMPS - jumps, |m| - at
  {
    hide ReadFrom;
    if at >= |m| || m[at] == 0 || 63 < m[at] < 192 {
      ReadEnds(m, lossy, name, at, jumps, resume);
    } else if m[at] >= 192 {
      ReadPointer(m, lossy, name, at, jumps, resume);
      if at + 1 < |m| && jumps < MAX_JUMPS {
        ResumeKept(m, lossy, name, Target(m, at), jumps + 1, resume);
      }
    } else {
      ReadLabel(m, lossy, name, at, jumps, resume);
      var next := at + 1 + m[at];
      if next <= |m| {
        ResumeKept(m, lossy, Grown(name, Lower(lossy(m[at + 1..next]))), next, jumps, resume);
      }
    }
  }

  /** Where a name can be read, skipping it leads to the same continuation, whatever pointers it
      takes. */
  lemma {:induction false} ReadSkips(m: Text, lossy: Lossy, name: Text, at: nat, jumps: nat)
    requires jumps <= MAX_JUMPS && ReadFrom(m, lossy, name, at, jumps, None).Some?
    ensures SkipFrom(m, at) == Some(ReadFrom(m, lossy, name, at, jumps, None).value.next)
    decreases |m| - at
  {
    hide ReadFrom;
    if at >= |m| || m[at] == 0 || 63 < m[at] < 192 {
      ReadEnds(m, lossy, name, at, jumps, None);
    } else if m[at] >= 192 {
      ReadPointer(m, lossy, name, at, jumps, None);
      ResumeKept(m, lossy, name, Target(m, at), jumps + 1, Some(at + 2));
    } else {
      ReadLabel(m, lossy, name, at, jumps, None);
      var next := at + 1 + m[at];
      ReadSkips(m, lossy, Grown(name, Lower(lossy(m[at + 1..next]))), next, jumps);
    }
  }

  // ----- the two name readers agree -----

  lemma {:induction false} QuestionGrows(m: Text, lossy: Lossy, name: Text, at: nat)
    ensures var r := QuestionFrom(m, lossy, name, at); r.Some? ==> |name| <= |r.value|
    decreases |m| - at
  {
    hide QuestionFrom, Lower;
    if at >= |m| || m[at] == 0 || m[at] > 63 || |name| + m[at] > 255 || at + 1 + m[at] > |m| {
      QuestionEnds(m, lossy, name, at);
    } else {
      QuestionStep(m, lossy, name, at);
      var next := at + 1 + m[at];
      QuestionGrows(m, lossy, Grown(name, Lower(lossy(m[at + 1..next]))), next);
    }
  }

  /** A question that one reader accepts the other reads as the same name, unless it is longer than
      the 253 octets the other allows. */
  lemma {:induction false} ReadersAgree(m: Text, lossy: Lossy, name: Text, at: nat)
    requires QuestionFrom(m, lossy, name, at).Some? && |name| <= MAX_NAME
    ensures var n := QuestionFrom(m, lossy, name, at).value;
            && (ReadFrom(m, lossy, name, at, 0, None).Some? <==> |n| <= MAX_NAME)
            && (|n| <= MAX_NAME ==> ReadFrom(m, lossy, name, at, 0, None).value.name == n)
            && SkipFrom(m, at).Some?
    decreases |m| - at
  {
    hide QuestionFrom, ReadFrom, Lower;
    if at >= |m| || m[at] == 0 || m[at] > 63 || |name| + m[at] > 255 || at + 1 + m[at] > |m| {
      QuestionEnds(m, lossy, name, at);
      ReadEnds(m, lossy, name, at, 0, None);
    } else {
      QuestionStep(m, lossy, name, at);
      ReadLabel(m, lossy, name, at, 0, None);
      var next := at + 1 + m[at];
      var grown := Grown(name, Lower(lossy(m[at + 1..next])));
      if |grown| > MAX_NAME {
        QuestionGrows(m, lossy, grown, next);
        QuestionSkips(m, lossy, name, at);
      } else {
        ReadersAgree(m, lossy, grown, next);
      }
    }
  }

  lemma {:induction false} QuestionSkips(m: Text, lossy: Lossy, name: Text, at: nat)
    requires QuestionFrom(m, lossy, name, at).Some?
    ensures SkipFrom(m, at).Some?
    decreases |m| - at
  {
    hide QuestionFrom, Lower;
    if at >= |m| || m[at] == 0 || m[at] > 63 || |name| + m[at] > 255 || at + 1 + m[at] > |m| {
      QuestionEnds(m, lossy, name, at);
    } else {
      QuestionStep(m, lossy, name, at);
      var next := at + 1 + m[at];
      QuestionSkips(m, lossy, Grown(name, Lower(lossy(m[at + 1..next]))), next);
    }
  }

  lemma {:induction false} PrintedSkips(m: Text, at: nat, labels: seq<Text>)
    requires PrintedAt(m, at, labels) && forall l <- labels :: 0 < |l| <= 63
    ensures SkipFrom(m, at) == Some(at + WireLength(labels) + 1)
    decreases |labels|
  {
    if labels != [] {
      assert labels[0] in labels && forall l <- labels[1..] :: l in labels;
      PrintedSkips(m, at + 1 + |labels[0]|, labels[1..]);
    }
  }

  /** Every reader sees the hostname a query was printed from, and goes on at the query's type. */
  lemma EveryReader(id: nat, h: Text, lossy: Lossy)
    requires id < 0x1_0000 && Encodable(h)
    requires forall l <- Labels(h) :: lossy(l) == l
    ensures var m := Message(id, h); var n := Lower(Joined([], Labels(h)));
            && QuestionFrom(m, lossy, [], HEADER_LEN) == Some(n)
            && SkipFrom(m, HEADER_LEN) == Some(|m| - 4)
            && ReadFrom(m, lossy, [], HEADER_LEN, 0, None) ==
                 if |n| <= MAX_NAME then Some(Read(n, |m| - 4)) else None
  {
    hide QuestionFrom, SkipFrom, ReadFrom, Labels, Joined, Wire, WireLength, Lower;
    var m, labels := Message(id, h), Labels(h);
    QueryRoundTrip(id, h, lossy);
    ReadersAgree(m, lossy, [], HEADER_LEN);
    WirePrinted(Header(id), labels);
    LabelsNonEmpty(h);
    PrintedSkips(m, HEADER_LEN, labels);
    WireSize(labels);
    if ReadFrom(m, lossy, [], HEADER_LEN, 0, None).Some? {
      ReadSkips(m, lossy, [], HEADER_LEN, 0);
    }
  }
}
