/** The replay window of `engine/src/replay.rs`: a circular bitmap that answers as the set of all
    accepted sequences would. */
module Replay {
  import opened Bits

  const WINDOW := 8192
  const WORDS := 128

  /** The rule: never accepted before, and no accepted sequence is a whole window ahead. */
  predicate Accepts(accepted: set<nat>, sequence: nat) {
    sequence !in accepted && forall h <- accepted :: h - sequence < WINDOW
  }

  /** The rule as the code words it, with the newest accepted sequence. */
  lemma AcceptsByNewest(accepted: set<nat>, highest: nat, sequence: nat)
    requires highest in accepted && forall h <- accepted :: h <= highest
    ensures Accepts(accepted, sequence)
            <==> sequence > highest || (highest - sequence < 8192 && sequence !in accepted)
  {
  }

  /** The word and the bit of a sequence; the remainder is never negative, so this is defined for
      the positions before sequence 0 as well. */
  function Word(s: int): (w: nat)
    ensures w < WORDS
  {
    s % WINDOW / 64
  }

  function Bit(s: int): (b: nat)
    ensures b < 64
  {
    s % WINDOW % 64
  }

  lemma SlotsDiffer(s: int, t: int)
    requires s < t < s + WINDOW
    ensures Word(s) != Word(t) || Bit(s) != Bit(t)
  {
    assert s % WINDOW != t % WINDOW;
  }

  predicate Marked(words: seq<nat>, s: int)
    requires |words| == WORDS
  {
    TestBit(words[Word(s)], Bit(s))
  }

  /** The window ending at `highest` records exactly the accepted sequences in it. */
  ghost predicate Records(words: seq<nat>, accepted: set<nat>, from: int, upto: int)
    requires |words| == WORDS
  {
    forall s: int :: from < s <= upto ==> (Marked(words, s) <==> s in accepted)
  }

  lemma MarkOne(words: seq<nat>, accepted: set<nat>, from: int, upto: int, t: nat)
    requires |words| == WORDS && from < t <= upto <= from + WINDOW
    requires forall s: int :: from < s <= upto && s != t ==> (Marked(words, s) <==> s in accepted)
    ensures Records(words[Word(t) := SetBit(words[Word(t)], Bit(t))], accepted + {t}, from, upto)
    ensures t !in accepted ==> Records(words[Word(t) := ClearBit(words[Word(t)], Bit(t))], accepted, from, upto)
  {
    forall s: int | from < s <= upto
      ensures Marked(words[Word(t) := SetBit(words[Word(t)], Bit(t))], s) == (s == t || Marked(words, s))
      ensures Marked(words[Word(t) := ClearBit(words[Word(t)], Bit(t))], s) == (s != t && Marked(words, s))
    {
      if s < t { SlotsDiffer(s, t); }
      if t < s { SlotsDiffer(t, s); }
      SetBitTests(words[Word(t)], Bit(t), Bit(s));
      ClearBitTests(words[Word(t)], Bit(t), Bit(s));
    }
  }

  ghost predicate WordsFit(words: seq<nat>) {
    |words| == WORDS && forall i :: 0 <= i < WORDS ==> words[i] < Pow2(64)
  }

  lemma MarkFits(words: seq<nat>, t: int)
    requires WordsFit(words)
    ensures WordsFit(words[Word(t) := SetBit(words[Word(t)], Bit(t))])
    ensures WordsFit(words[Word(t) := ClearBit(words[Word(t)], Bit(t))])
  {
    hide Pow2, SetBit, ClearBit;
    BitsFit(words[Word(t)], Bit(t), 64);
  }

  lemma BlankRecords(words: seq<nat>, from: int, upto: int)
    requires |words| == WORDS && forall i :: 0 <= i < WORDS ==> words[i] == 0
    ensures Records(words, {}, from, upto) && WordsFit(words)
  {
    forall s: int ensures !Marked(words, s) {
      ZeroTests(Bit(s));
    }
  }

  class ReplayWindow {
    var highest: nat
    var seen: array<nat>
    var initialized: bool
    /** Every sequence accepted so far. */
    ghost var accepted: set<nat>

    ghost predicate Valid()
      reads this, seen
    {
      && seen.Length == WORDS && WordsFit(seen[..])
      && Records(seen[..], accepted, highest - WINDOW, highest)
      && (initialized <==> accepted != {})
      && (initialized ==> highest in accepted && forall h <- accepted :: h <= highest)
      && (!initialized ==> highest == 0)
    }

    constructor ()
      ensures Valid() && accepted == {} && fresh(seen)
    {
      highest := 0;
      seen := new nat[WORDS](_ => 0);
      initialized := false;
      accepted := {};
      new;
      BlankRecords(seen[..], highest - WINDOW, highest);
    }

    method IsSet(sequence: nat) returns (r: bool)
      requires seen.Length == WORDS
      ensures r == Marked(seen[..], sequence)
    {
      r := TestBit(seen[sequence % WINDOW / 64], sequence % WINDOW % 64);
    }

    method Set(sequence: nat)
      requires seen.Length == WORDS
      modifies seen
      ensures seen[..] == old(seen[..])[Word(sequence) := SetBit(old(seen[..])[Word(sequence)], Bit(sequence))]
    {
      seen[Word(sequence)] := SetBit(seen[Word(sequence)], Bit(sequence));
    }

    method Clear(sequence: nat)
      requires seen.Length == WORDS
      modifies seen
      ensures seen[..] == old(seen[..])[Word(sequence) := ClearBit(old(seen[..])[Word(sequence)], Bit(sequence))]
    {
      seen[Word(sequence)] := ClearBit(seen[Word(sequence)], Bit(sequence));
    }

    /** Predicts `Accept` without consuming the sequence. */
    method WouldAccept(sequence: nat) returns (r: bool)
      requires Valid()
      ensures r == Accepts(accepted, sequence)
    {
      if initialized {
        AcceptsByNewest(accepted, highest, sequence);
      }
      if !initialized || sequence > highest {
        return true;
      }
      var known := IsSet(sequence);
      r := highest - sequence < WINDOW && !known;
    }

    method IsTooOld(sequence: nat) returns (r: bool)
      requires Valid()
      ensures r <==> exists h :: h in accepted && h - sequence >= 8192
    {
      r := initialized && (if highest >= sequence then highest - sequence else 0) >= WINDOW;
    }

    /** Forgets the sequences skipped over by an advance to `sequence`. */
    method Skip(sequence: nat)
      requires Valid() && initialized && highest < sequence < highest + WINDOW
      modifies seen
      ensures WordsFit(seen[..]) && Records(seen[..], accepted, sequence - WINDOW, sequence - 1)
    {
      hide Pow2, SetBit, ClearBit, TestBit, Word, Bit;
      var skipped := highest + 1;
      while skipped < sequence
        invariant highest < skipped <= sequence && WordsFit(seen[..])
        invariant Records(seen[..], accepted, sequence - WINDOW, skipped - 1)
        modifies seen
      {
        MarkFits(seen[..], skipped);
        MarkOne(seen[..], accepted, sequence - WINDOW, skipped, skipped);
        Clear(skipped);
        skipped := skipped + 1;
      }
    }

    method Accept(sequence: nat) returns (r: bool)
      requires Valid()
      modifies this, seen
      ensures Valid() && seen.Length == WORDS
      ensures r == Accepts(old(accepted), sequence)
      ensures accepted == if r then old(accepted) + {sequence} else old(accepted)
      ensures seen == old(seen) || fresh(seen)
    {
      hide Pow2, SetBit, ClearBit, TestBit, Word, Bit;
      if !initialized {
        StillBlank(seen[..], highest - WINDOW, sequence - WINDOW, sequence);
        Mark(sequence, sequence);
        return true;
      }
      AcceptsByNewest(accepted, highest, sequence);
      if sequence > highest {
        if sequence - highest >= WINDOW {
          seen := Blank();
          BlankRecords(seen[..], sequence - WINDOW, sequence);
          OutsideWindow(accepted, seen[..], sequence);
        } else {
          Skip(sequence);
        }
        Mark(sequence, sequence);
        return true;
      }
      var known := IsSet(sequence);
      if highest - sequence >= WINDOW || known {
        return false;
      }
      Mark(sequence, highest);
      return true;
    }

    /** Marks `sequence` in the window that ends at `newest`. */
    method Mark(sequence: nat, newest: nat)
      requires seen.Length == WORDS && WordsFit(seen[..]) && newest - WINDOW < sequence <= newest
      requires forall s: int :: newest - WINDOW < s <= newest && s != sequence ==>
               (Marked(seen[..], s) <==> s in accepted)
      requires newest == sequence || newest in accepted
      requires forall h <- accepted :: h <= newest
      modifies this, seen
      ensures Valid() && seen == old(seen) && accepted == old(accepted) + {sequence}
    {
      hide Pow2, SetBit, ClearBit, TestBit, Word, Bit;
      MarkFits(seen[..], sequence);
      MarkOne(seen[..], accepted, newest - WINDOW, newest, sequence);
      initialized := true;
      highest := newest;
      Set(sequence);
      accepted := accepted + {sequence};
    }

    method Blank() returns (words: array<nat>)
      ensures words.Length == WORDS && fresh(words) && forall i :: 0 <= i < WORDS ==> words[i] == 0
    {
      words := new nat[WORDS](_ => 0);
    }
  }

  /** A blank window is blank wherever it is read. */
  lemma StillBlank(words: seq<nat>, from: int, from': int, upto': int)
    requires |words| == WORDS && Records(words, {}, from, from + WINDOW)
    ensures Records(words, {}, from', upto')
  {
    forall s: int ensures !Marked(words, s) {
      var t := from + 1 + (s - from - 1) % WINDOW;
      assert t % WINDOW == s % WINDOW;
      assert !Marked(words, t);
    }
  }

  lemma OutsideWindow(accepted: set<nat>, words: seq<nat>, sequence: nat)
    requires |words| == WORDS && Records(words, {}, sequence - WINDOW, sequence)
    requires forall h <- accepted :: h <= sequence - WINDOW
    ensures Records(words, accepted, sequence - WINDOW, sequence - 1)
  {
  }

  // ----- whole runs -----

  /** The set after a run of `accept` calls on a new window. */
  ghost function Accepted(run: seq<nat>): set<nat> {
    if run == [] then {}
    else
      var before := Accepted(run[..|run| - 1]);
      if Accepts(before, run[|run| - 1]) then before + {run[|run| - 1]} else before
  }

  /** The answer of the `i`th call. */
  ghost predicate Verdict(run: seq<nat>, i: nat)
    requires i < |run|
  {
    Accepts(Accepted(run[..i]), run[i])
  }

  lemma {:induction false} AcceptedIs(run: seq<nat>, n: nat)
    requires n <= |run|
    ensures forall s :: s in Accepted(run[..n]) <==> exists i :: 0 <= i < n && run[i] == s && Verdict(run, i)
  {
    if n > 0 {
      AcceptedIs(run, n - 1);
      assert run[..n][..n - 1] == run[..n - 1];
      assert Accepted(run[..n]) == Accepted(run[..n - 1]) + if Verdict(run, n - 1) then {run[n - 1]} else {};
    }
  }

  /** A call is refused exactly when an accepted earlier one repeats it or is a window ahead of it. */
  lemma RefusedIff(run: seq<nat>, j: nat)
    requires j < |run|
    ensures !Verdict(run, j)
            <==> exists i :: 0 <= i < j && Verdict(run, i) && (run[i] == run[j] || run[i] >= run[j] + 8192)
  {
    AcceptedIs(run, j);
    var before := Accepted(run[..j]);
    if !Verdict(run, j) {
      var h :| h in before && (h == run[j] || h - run[j] >= WINDOW);
    }
    forall i | 0 <= i < j && Verdict(run, i) && (run[i] == run[j] || run[i] - run[j] >= WINDOW)
      ensures !Verdict(run, j)
    {
      assert run[i] in before;
    }
  }

  /** No sequence is accepted twice, however long ago the first time was. */
  lemma AtMostOnce(run: seq<nat>, i: nat, j: nat)
    requires i < j < |run| && run[i] == run[j] && Verdict(run, i)
    ensures !Verdict(run, j)
  {
    RefusedIff(run, j);
  }

  /** Distinct sequences displaced by less than a window are all accepted. */
  lemma ReorderingAccepted(run: seq<nat>, j: nat)
    requires j < |run|
    requires forall i :: 0 <= i < j ==> run[i] != run[j] && run[i] < run[j] + 8192
    ensures Verdict(run, j)
  {
    RefusedIff(run, j);
  }
}
