/** Whether the router's sets speak the truth: exactly which steps of `engine/src/direct_routes.rs`
    leave a tracked route without its row, and two runs that do. */
module RouteKeeping {
  import opened Bytes
  import opened Cidr
  import opened DirectRoutes

  // ----- whether what is tracked is really routed -----

  /** `p` is in `installed` and not being withdrawn from there. */
  ghost predicate KeptInstalled(s: State, p: Block) {
    && p in s.installed && !(s.installer.StaleGone? && s.installer.route == p)
    && !(s.owner.RemovingInstalled? && p !in s.owner.routes)
  }

  /** `a` is in `learned` and not being withdrawn from there. */
  ghost predicate KeptLearned(s: State, a: nat) {
    && a in s.learned && !(s.owner.RetainGone? && s.owner.address == a)
    && !(s.owner.RemovingLearned? && a !in s.owner.addresses)
  }

  /** Everything that keeps its place in the sets has its row. */
  ghost predicate Routed(s: State) {
    && (forall p :: KeptInstalled(s, p) ==> p in s.os)
    && (forall a :: KeptLearned(s, a) ==> Host(a) in s.os)
    && (forall p :: InFlight(s, p) ==> p in s.os)
  }

  // ----- which steps take a row away -----

  /** The installer keeps the row of `p`, or has just placed it. */
  ghost predicate InstallSide(s: State, p: Block) {
    KeptInstalled(s, p) || (s.installer.Placed? && s.installer.route == p)
  }

  /** The learned addresses keep the row of `p`, or a `learn` call has just added it. */
  ghost predicate LearnSide(s: State, p: Block) {
    || (exists a :: KeptLearned(s, a) && Host(a) == p)
    || (exists id :: id in s.learners && s.learners[id].Adding? && Host(s.learners[id].address) == p)
  }

  /** The step removes a row that the other side relies on: a dropped learned address, or a learned one
      whose row could not be replaced, under an installed prefix; a stale prefix, or one whose row could
      not be replaced, under a learned address. */
  ghost predicate Robs(s: State, step: Step) {
    match step
    case RetainWithdraw(a) => InstallSide(s, Host(a))
    case DropLearned(a) => InstallSide(s, Host(a))
    case LearnAdd(id, outcome) =>
      && outcome.Deleted? && id in s.learners && s.learners[id].Checked?
      && InstallSide(s, Host(s.learners[id].address))
    case InstallWithdraw(p) => LearnSide(s, p)
    case InstallAdd(outcome) => outcome.Deleted? && s.installer.Locked? && LearnSide(s, s.installer.route)
    case _ => false
  }

  /** One step leaves every kept route its row, if and only if it does not take one away from the
      other side. */
  lemma StepKeepsRoutedIff(s: State, step: Step)
    requires Inv(s) && Routed(s) && Take(s, step).Some?
    ensures Routed(Take(s, step).value) <==> !Robs(s, step)
  {
    hide Inv, Routed, Robs, TakeLearn, TakeInstall, TakeDrop, TakeReplace;
    if LearnStep(step) {
      LearnRoutedIff(s, step);
    } else if InstallStep(step) {
      InstallRoutedIff(s, step);
    } else if DropStep(step) {
      DropRoutedIff(s, step);
    } else {
      ReplaceRoutedIff(s, step);
    }
  }

  lemma LearnRoutedIff(s: State, step: Step)
    requires Inv(s) && Routed(s) && LearnStep(step) && TakeLearn(s, step).Some?
    ensures Routed(TakeLearn(s, step).value) <==> !Robs(s, step)
  {
    hide Contains, Routed, Robs, TakeLearn, Locks, Tracked, Teardown, Bounded, Found;
    if step.LearnAdd? {
      AddingRoutedIff(s, step);
    } else {
      LearnKeepsRouted(s, step);
    }
  }

  lemma AddingRoutedIff(s: State, step: Step)
    requires Locks(s) && Found(s) && Routed(s) && step.LearnAdd? && TakeLearn(s, step).Some?
    ensures Routed(TakeLearn(s, step).value) <==> !Robs(s, step)
  {
  }

  lemma LearnKeepsRouted(s: State, step: Step)
    requires Locks(s) && Found(s) && Routed(s) && LearnStep(step) && !step.LearnAdd? && TakeLearn(s, step).Some?
    ensures Routed(TakeLearn(s, step).value) && !Robs(s, step)
  {
    hide Contains;
  }

  lemma InstallRoutedIff(s: State, step: Step)
    requires Inv(s) && Routed(s) && InstallStep(step) && TakeInstall(s, step).Some?
    ensures Routed(TakeInstall(s, step).value) <==> !Robs(s, step)
  {
    hide Routed, Robs, TakeInstall, Locks, Tracked, Teardown, Bounded, Found;
    if step.InstallWithdraw? {
      StaleRoutedIff(s, step);
    } else if step.InstallAdd? {
      PlacingRoutedIff(s, step);
    } else {
      assert !Robs(s, step) by { NeverRobs(s, step); }
      InstallKeepsRouted(s, step);
    }
  }

  lemma NeverRobs(s: State, step: Step)
    requires InstallStep(step) && !step.InstallWithdraw? && !step.InstallAdd?
    ensures !Robs(s, step)
  {
  }

  lemma StaleRoutedIff(s: State, step: Step)
    requires Locks(s) && Found(s) && Routed(s) && step.InstallWithdraw? && TakeInstall(s, step).Some?
    ensures Routed(TakeInstall(s, step).value) <==> !Robs(s, step)
  {
  }

  lemma PlacingRoutedIff(s: State, step: Step)
    requires Locks(s) && Found(s) && Routed(s) && step.InstallAdd? && TakeInstall(s, step).Some?
    ensures Routed(TakeInstall(s, step).value) <==> !Robs(s, step)
  {
  }

  lemma InstallKeepsRouted(s: State, step: Step)
    requires Teardown(s) && Routed(s) && InstallStep(step) && TakeInstall(s, step).Some?
    requires !step.InstallWithdraw? && !step.InstallAdd?
    ensures Routed(TakeInstall(s, step).value)
  {
    var s' := TakeInstall(s, step).value;
    assert s'.os == s.os && s'.learned == s.learned && s'.owner == s.owner && s'.learners == s.learners
           && s'.learnedLock == s.learnedLock;
    assert forall p :: KeptInstalled(s', p) ==> KeptInstalled(s, p) || InFlight(s, p);
    assert forall p :: InFlight(s', p) ==> InFlight(s, p);
  }

  lemma DropRoutedIff(s: State, step: Step)
    requires Inv(s) && Routed(s) && DropStep(step) && TakeDrop(s, step).Some?
    ensures Routed(TakeDrop(s, step).value) <==> !Robs(s, step)
  {
    hide Contains, Tracked, Bounded;
  }

  lemma ReplaceRoutedIff(s: State, step: Step)
    requires Inv(s) && Routed(s) && TakeReplace(s, step).Some?
    ensures Routed(TakeReplace(s, step).value) <==> !Robs(s, step)
  {
    hide Contains, Tracked, Bounded;
  }

  // ----- whole runs -----

  lemma {:induction false} PrefixPossible(list: set<Block>, steps: seq<Step>, n: nat)
    requires After(list, steps).Some? && n <= |steps|
    ensures After(list, steps[..n]).Some?
    decreases |steps|
  {
    hide Take;
    if n == |steps| {
      assert steps[..n] == steps;
    } else {
      var init := steps[..|steps| - 1];
      assert init[..n] == steps[..n];
      PrefixPossible(list, init, n);
    }
  }

  lemma AfterStep(list: set<Block>, steps: seq<Step>, n: nat)
    requires After(list, steps).Some? && n < |steps|
    ensures After(list, steps[..n]).Some? && After(list, steps[..n + 1]).Some?
    ensures After(list, steps[..n + 1]) == Take(After(list, steps[..n]).value, steps[n])
  {
    hide Take;
    PrefixPossible(list, steps, n);
    PrefixPossible(list, steps, n + 1);
    assert steps[..n + 1][..n] == steps[..n];
  }

  /** The state before step `n` of a possible run. */
  ghost function StateAt(list: set<Block>, steps: seq<Step>, n: nat): State
    requires After(list, steps).Some? && n <= |steps|
  {
    PrefixPossible(list, steps, n);
    After(list, steps[..n]).value
  }

  lemma StateStep(list: set<Block>, steps: seq<Step>, n: nat)
    requires After(list, steps).Some? && n < |steps|
    ensures Inv(StateAt(list, steps, n))
    ensures Take(StateAt(list, steps, n), steps[n]) == Some(StateAt(list, steps, n + 1))
  {
    hide Take, Inv, After;
    AfterStep(list, steps, n);
    Safety(list, steps[..n]);
  }

  lemma StartRouted(list: set<Block>, steps: seq<Step>)
    requires After(list, steps).Some?
    ensures StateAt(list, steps, 0) == Initial(list) && Routed(Initial(list))
  {
  }

  lemma {:induction false} UnrobbedRouted(list: set<Block>, steps: seq<Step>, n: nat)
    requires After(list, steps).Some? && n <= |steps|
    requires forall m :: 0 <= m < n ==> !Robs(StateAt(list, steps, m), steps[m])
    ensures Routed(StateAt(list, steps, n))
  {
    hide Take, Inv, After, Routed, Robs, StateAt;
    if n == 0 {
      StartRouted(list, steps);
    } else {
      UnrobbedRouted(list, steps, n - 1);
      StateStep(list, steps, n - 1);
      StepKeepsRoutedIff(StateAt(list, steps, n - 1), steps[n - 1]);
    }
  }

  /** Over every run every kept route has its row throughout, if and only if no step takes a row away
      from the other side. */
  lemma RunRoutedIff(list: set<Block>, steps: seq<Step>)
    requires After(list, steps).Some?
    ensures (forall n: nat :: n <= |steps| ==> Routed(StateAt(list, steps, n)))
            <==> (forall n: nat :: n < |steps| ==> !Robs(StateAt(list, steps, n), steps[n]))
  {
    hide Take, Inv, After, Routed, Robs, StateAt;
    if forall n: nat :: n < |steps| ==> !Robs(StateAt(list, steps, n), steps[n]) {
      forall n: nat | n <= |steps| ensures Routed(StateAt(list, steps, n)) {
        UnrobbedRouted(list, steps, n);
      }
    }
    if forall n: nat :: n <= |steps| ==> Routed(StateAt(list, steps, n)) {
      forall n: nat | n < |steps| ensures !Robs(StateAt(list, steps, n), steps[n]) {
        StateStep(list, steps, n);
        StepKeepsRoutedIff(StateAt(list, steps, n), steps[n]);
        assert Routed(StateAt(list, steps, n + 1));
      }
    }
  }

  // ----- lists without single addresses -----

  /** No block is a single address. */
  predicate Wide(blocks: set<Block>) {
    forall b <- blocks :: b.bits > 0
  }

  ghost predicate WideInstaller(i: Installer) {
    && (i.Read? ==> Wide(i.wanted))
    && (i.Stale? || i.StaleGone? ==> Wide(i.wanted) && Wide(i.todo))
    && (i.StaleGone? ==> i.route.bits > 0)
    && (i.Filling? || i.Looking? || i.Missing? || i.Locked? || i.Placed? ==> Wide(i.todo))
    && (i.Looking? || i.Missing? || i.Locked? || i.Placed? ==> i.route.bits > 0)
  }

  predicate WideOwner(o: Owner) {
    o.Replacing? || o.Retaining? || o.RetainGone? || o.Writing? ==> Wide(o.next)
  }

  ghost predicate WideState(s: State) {
    Wide(s.installed) && Wide(s.list) && WideInstaller(s.installer) && WideOwner(s.owner)
  }

  predicate WideStep(step: Step) {
    step.ReplaceBegin? ==> Wide(step.next)
  }

  lemma WideKept(s: State, step: Step)
    requires WideState(s) && WideStep(step) && Take(s, step).Some?
    ensures WideState(Take(s, step).value)
  {
    hide Contains, Host, WideInstaller, TakeLearn, TakeInstall;
    if LearnStep(step) {
      WideLearn(s, step);
    } else if InstallStep(step) {
      WideInstall(s, step);
    } else {
      assert Wide({}) && WideInstaller(Absent) && WideInstaller(Begun(s.generation)) by { WideIdle(s.generation); }
    }
  }

  lemma WideIdle(generation: nat)
    ensures WideInstaller(Absent) && WideInstaller(Begun(generation))
  {
  }

  lemma WideLearn(s: State, step: Step)
    requires WideState(s) && LearnStep(step) && TakeLearn(s, step).Some?
    ensures WideState(TakeLearn(s, step).value)
  {
    hide Contains, Host, Wide, WideInstaller, WideOwner;
  }

  lemma WideInstall(s: State, step: Step)
    requires WideState(s) && InstallStep(step) && TakeInstall(s, step).Some?
    ensures WideState(TakeInstall(s, step).value)
  {
    hide WideOwner;
  }

  lemma WideRobsNothing(s: State, step: Step)
    requires WideState(s) && Inv(s) && Take(s, step).Some?
    ensures !Robs(s, step)
  {
    hide Contains, Tracked, Bounded, Teardown;
  }

  lemma {:induction false} WideRun(list: set<Block>, steps: seq<Step>, n: nat)
    requires After(list, steps).Some? && n <= |steps| && Wide(list) && forall step <- steps :: WideStep(step)
    ensures WideState(StateAt(list, steps, n))
  {
    hide Take, Inv, After, WideState, WideStep, StateAt, Wide;
    if n == 0 {
      StartRouted(list, steps);
      WideStart(list);
    } else {
      WideRun(list, steps, n - 1);
      StateStep(list, steps, n - 1);
      assert steps[n - 1] in steps;
      WideKept(StateAt(list, steps, n - 1), steps[n - 1]);
    }
  }

  lemma WideStart(list: set<Block>)
    requires Wide(list)
    ensures WideState(Initial(list))
  {
  }

  /** What the documentation of `replace` promises holds throughout, for callers whose lists never
      hold a single address as a block of its own. */
  lemma WideListsKeepRoutes(list: set<Block>, steps: seq<Step>)
    requires After(list, steps).Some? && Wide(list) && forall step <- steps :: WideStep(step)
    ensures forall n: nat :: n <= |steps| ==> Routed(StateAt(list, steps, n))
  {
    hide Take, Inv, After, WideState, WideStep, StateAt, Routed, Robs, Wide;
    forall n: nat | n < |steps| ensures !Robs(StateAt(list, steps, n), steps[n]) {
      WideRun(list, steps, n);
      StateStep(list, steps, n);
      WideRobsNothing(StateAt(list, steps, n), steps[n]);
    }
    RunRoutedIff(list, steps);
  }

  ghost predicate Reachable(list: set<Block>, s: State) {
    exists steps :: After(list, steps) == Some(s)
  }

  lemma ReachStep(list: set<Block>, s: State, step: Step)
    requires Reachable(list, s) && Take(s, step).Some?
    ensures Reachable(list, Take(s, step).value)
  {
    hide Take;
    var steps :| After(list, steps) == Some(s);
    assert (steps + [step])[..|steps|] == steps;
    assert After(list, steps + [step]) == Take(s, step);
  }

  lemma ReachStart(list: set<Block>)
    ensures Reachable(list, Initial(list))
  {
    assert After(list, []) == Some(Initial(list));
  }

  // ----- runs that lose a route -----

  /** A quiet router with the given sets. */
  function Quiet(os: set<Block>, installed: set<Block>, learned: set<nat>, list: set<Block>, generation: nat,
                 learners: map<nat, Learner>, installer: Installer, owner: Owner): State
  {
    State(os, installed, learned, list, generation, false, Free, Free, learners, installer, owner)
  }

  lemma ReachLearn(l: set<Block>, s: State, step: Step, s': State)
    requires Reachable(l, s) && LearnStep(step) && TakeLearn(s, step) == Some(s')
    ensures Reachable(l, s')
  {
    hide TakeLearn;
    ReachStep(l, s, step);
  }

  lemma ReachInstall(l: set<Block>, s: State, step: Step, s': State)
    requires Reachable(l, s) && InstallStep(step) && TakeInstall(s, step) == Some(s')
    ensures Reachable(l, s')
  {
    hide TakeInstall, TakeLearn;
    ReachStep(l, s, step);
  }

  lemma ReachReplace(l: set<Block>, s: State, step: Step, s': State)
    requires Reachable(l, s) && TakeReplace(s, step) == Some(s')
    ensures Reachable(l, s')
  {
    assert !LearnStep(step) && !InstallStep(step) && !DropStep(step);
    hide TakeInstall, TakeLearn, TakeReplace, TakeDrop;
    ReachStep(l, s, step);
  }

  lemma Refreshed(l: set<Block>, s: State)
    requires Reachable(l, s) && s.owner.Refreshing? && Joinable(s)
    ensures Reachable(l, s.(generation := s.generation + 1, installer := Begun(s.generation + 1), owner := Running))
  {
    hide Reachable;
    var s1 := s.(generation := s.generation + 1, owner := Joining);
    var s2 := s1.(installer := Absent, owner := Spawning);
    ReachReplace(l, s, RefreshBump, s1);
    ReachReplace(l, s1, RefreshJoin, s2);
    ReachReplace(l, s2, RefreshSpawn(true), s2.(installer := Begun(s.generation + 1), owner := Running));
  }

  lemma NothingStale(l: set<Block>, s: State)
    requires Reachable(l, s) && s.installer.Begun? && s.installedLock.Free? && s.installed <= s.list
    ensures Reachable(l, s.(installer := Filling(s.installer.generation, s.list)))
  {
    hide Reachable;
    var g := s.installer.generation;
    var s1 := s.(installer := Read(g, s.list));
    var s2 := s.(installer := Stale(g, s.list, {}));
    assert s.installed - s.list == {};
    ReachInstall(l, s, InstallRead, s1);
    ReachInstall(l, s1, InstallStale, s2);
    ReachInstall(l, s2, InstallTurn, s.(installer := Filling(g, s.list)));
  }

  lemma RouteFilled(l: set<Block>, s: State, p: Block)
    requires Reachable(l, s) && s.installedLock.Free? && s.installer == Filling(s.generation, {p}) && p !in s.installed
    ensures Reachable(l, s.(os := s.os + {p}, installed := s.installed + {p}, installer := Finished))
  {
    hide Reachable;
    var g := s.generation;
    var s1 := s.(installer := Looking(g, {p}, p));
    var s2 := s.(installer := Missing(g, {p}, p));
    var s3 := s.(installer := Locked(g, {p}, p), installedLock := ByInstaller);
    var s4 := s3.(os := s.os + {p}, installer := Placed(g, {p}, p));
    ReachInstall(l, s, InstallNext(p), s1);
    ReachInstall(l, s1, InstallLook, s2);
    ReachInstall(l, s2, InstallLock, s3);
    ReachInstall(l, s3, InstallAdd(Added), s4);
    RoutePlaced(l, s4, p);
  }

  lemma RoutePlaced(l: set<Block>, s: State, p: Block)
    requires Reachable(l, s) && s.installedLock.ByInstaller? && s.installer == Placed(s.generation, {p}, p)
    ensures Reachable(l, s.(installed := s.installed + {p}, installedLock := Free, installer := Finished))
  {
    hide Reachable;
    var s1 := s.(installed := s.installed + {p}, installedLock := Free, installer := Filling(s.generation, {}));
    assert {p} - {p} == {};
    ReachInstall(l, s, InstallInsert, s1);
    ReachInstall(l, s1, InstallEnd, s1.(installer := Finished));
  }

  lemma RouteSkipped(l: set<Block>, s: State, p: Block)
    requires Reachable(l, s) && s.installedLock.Free? && s.installer == Filling(s.generation, {p}) && p in s.installed
    ensures Reachable(l, s.(installer := Finished))
  {
    hide Reachable;
    var s1 := s.(installer := Looking(s.generation, {p}, p));
    var s2 := s.(installer := Filling(s.generation, {}));
    assert {p} - {p} == {};
    ReachInstall(l, s, InstallNext(p), s1);
    ReachInstall(l, s1, InstallLook, s2);
    ReachInstall(l, s2, InstallEnd, s.(installer := Finished));
  }

  lemma AddressLearned(l: set<Block>, s: State, a: nat)
    requires Reachable(l, s) && s.learnedLock.Free? && !s.stopped && s.learned == {} &&
             s.learners == map[0 := Ready({})]
    ensures Reachable(l, s.(os := s.os + {Host(a)}, learned := {a}))
  {
    hide Reachable;
    var s1 := s.(learners := map[0 := Holding({}, a)], learnedLock := ByLearner(0));
    var s2 := s1.(learners := map[0 := Checked({}, a)]);
    var s3 := s2.(os := s.os + {Host(a)}, learners := map[0 := Adding({}, a)]);
    assert forall x, y: Learner :: map[0 := x][0 := y] == map[0 := y];
    assert {} + {a} == {a};
    ReachLearn(l, s, LearnAcquire(0, a), s1);
    ReachLearn(l, s1, LearnCheck(0), s2);
    ReachLearn(l, s2, LearnAdd(0, Added), s3);
    ReachLearn(l, s3, LearnInsert(0), s.(os := s.os + {Host(a)}, learned := {a}));
  }

  lemma ListReplaced(l: set<Block>, s: State, next: set<Block>)
    requires Reachable(l, s) && s.learnedLock.Free? && s.learned == {} && s.owner.Running?
    ensures Reachable(l, s.(list := next, owner := Refreshing))
  {
    hide Reachable;
    var s1 := s.(owner := Replacing(next));
    var s2 := s.(owner := Retaining(next, {}), learnedLock := ByOwner);
    ReachReplace(l, s, ReplaceBegin(next), s1);
    ReachReplace(l, s1, ReplaceLock, s2);
    ReplaceCompleted(l, s2, next);
  }

  lemma AddressDropped(l: set<Block>, s: State, a: nat, next: set<Block>)
    requires Reachable(l, s) && s.learnedLock.Free? && s.learned == {a} && s.owner.Running?
    ensures Reachable(l, s.(os := s.os - {Host(a)}, learned := {}, list := next, owner := Refreshing))
  {
    hide Reachable, Host;
    var s1 := s.(owner := Replacing(next));
    var s2 := s.(owner := Retaining(next, {a}), learnedLock := ByOwner);
    var s3 := s2.(os := s.os - {Host(a)}, owner := RetainGone(next, {a}, a));
    var s4 := s3.(learned := {}, owner := Retaining(next, {}));
    assert {a} - {a} == {};
    ReachReplace(l, s, ReplaceBegin(next), s1);
    ReachReplace(l, s1, ReplaceLock, s2);
    ReachReplace(l, s2, RetainWithdraw(a), s3);
    ReachReplace(l, s3, RetainForget, s4);
    ReplaceCompleted(l, s4, next);
  }

  lemma ReplaceCompleted(l: set<Block>, s: State, next: set<Block>)
    requires Reachable(l, s) && s.learnedLock.ByOwner? && s.owner == Retaining(next, {})
    ensures Reachable(l, s.(learnedLock := Free, list := next, owner := Refreshing))
  {
    hide Reachable;
    var s1 := s.(learnedLock := Free, owner := Writing(next));
    ReachReplace(l, s, ReplaceUnlock, s1);
    ReachReplace(l, s1, ReplaceWrite, s1.(list := next, owner := Refreshing));
  }

  /** One row for two: a `learn` call that read the old list learns an address the new list routes,
      and the installer then places the same row. */
  lemma RowShared(a: nat)
    ensures Reachable({}, Quiet({Host(a)}, {Host(a)}, {a}, {Host(a)}, 2, map[0 := Ready({})], Finished, Running))
  {
    hide Reachable, Host;
    var r, learner := Host(a), map[0 := Ready({})];
    FirstInstall();
    ListReplaced({}, Quiet({}, {}, {}, {}, 1, learner, Finished, Running), {r});
    var s := Quiet({}, {}, {}, {r}, 1, learner, Finished, Refreshing);
    AddressLearned({}, s, a);
    s := s.(os := {r}, learned := {a});
    assert {} + {r} == {r} && {r} + {r} == {r};
    Refreshed({}, s);
    s := s.(generation := 2, installer := Begun(2), owner := Running);
    NothingStale({}, s);
    s := s.(installer := Filling(2, {r}));
    RouteFilled({}, s, r);
  }

  /** The documentation of `replace` promises that nothing which keeps its route ever loses it. A
      first run that breaks it goes on from the shared row: a replacement of the list by itself drops
      the learned address with the row, and the installer skips the prefix it believes installed. */
  lemma RouteLost(a: nat)
    ensures var s := Quiet({}, {Host(a)}, {}, {Host(a)}, 3, map[0 := Ready({})], Finished, Running);
            Reachable({}, s) && KeptInstalled(s, Host(a)) && !Routed(s)
  {
    var r, learner := Host(a), map[0 := Ready({})];
    hide Reachable, Host, Routed;
    RowShared(a);
    var s := Quiet({r}, {r}, {a}, {r}, 2, learner, Finished, Running);
    AddressDropped({}, s, a, {r});
    assert {r} - {r} == {};
    s := Quiet({}, {r}, {}, {r}, 2, learner, Finished, Refreshing);
    Refreshed({}, s);
    s := s.(generation := 3, installer := Begun(3), owner := Running);
    NothingStale({}, s);
    s := s.(installer := Filling(3, {r}));
    RouteSkipped({}, s, r);
    RowMissing(s.(installer := Finished), r);
  }

  lemma RowMissing(s: State, p: Block)
    requires p !in s.os && (KeptInstalled(s, p) || exists a :: KeptLearned(s, a) && p == Host(a))
    ensures !Routed(s)
  {
  }

  /** A second run goes on from the same state the other way: the list loses the address while its
      name is kept, and the installer withdraws the row of the prefix that has become stale from
      under the learned address, which no `learn` call will then add again. */
  lemma AddressLost(a: nat)
    ensures var s := Quiet({}, {}, {a}, {}, 3, map[0 := Ready({})], Finished, Running);
            Reachable({}, s) && KeptLearned(s, a) && !Routed(s)
  {
    hide Reachable, Routed;
    var r, learner := Host(a), map[0 := Ready({})];
    RowShared(a);
    AddressKept({}, Quiet({r}, {r}, {a}, {r}, 2, learner, Finished, Running), a, {});
    var s := Quiet({r}, {r}, {a}, {}, 2, learner, Finished, Refreshing);
    Refreshed({}, s);
    s := s.(generation := 3, installer := Begun(3), owner := Running);
    StaleWithdrawn({}, s, r);
    assert {r} - {r} == {};
    RowMissing(Quiet({}, {}, {a}, {}, 3, learner, Finished, Running), r);
  }

  lemma AddressKept(l: set<Block>, s: State, a: nat, next: set<Block>)
    requires Reachable(l, s) && s.learnedLock.Free? && s.learned == {a} && s.owner.Running? && !Contains(next, a)
    ensures Reachable(l, s.(list := next, owner := Refreshing))
  {
    hide Reachable, Contains;
    var s1 := s.(owner := Replacing(next));
    var s2 := s.(owner := Retaining(next, {a}), learnedLock := ByOwner);
    var s3 := s2.(owner := Retaining(next, {}));
    assert {a} - {a} == {};
    ReachReplace(l, s, ReplaceBegin(next), s1);
    ReachReplace(l, s1, ReplaceLock, s2);
    ReachReplace(l, s2, RetainKeep(a), s3);
    ReplaceCompleted(l, s3, next);
  }

  lemma StaleWithdrawn(l: set<Block>, s: State, p: Block)
    requires Reachable(l, s) && s.installer.Begun? && s.installedLock.Free? && s.installed == {p} && s.list == {}
    ensures Reachable(l, s.(os := s.os - {p}, installed := {}, installer := Finished))
  {
    hide Reachable;
    var g := s.installer.generation;
    var s1 := s.(installer := Read(g, {}));
    var s2 := s.(installer := Stale(g, {}, {p}));
    var s3 := s.(os := s.os - {p}, installer := StaleGone(g, {}, {p}, p));
    var s4 := s3.(installed := {}, installer := Stale(g, {}, {}));
    assert {p} - {} == {p} && {p} - {p} == {};
    ReachInstall(l, s, InstallRead, s1);
    ReachInstall(l, s1, InstallStale, s2);
    ReachInstall(l, s2, InstallWithdraw(p), s3);
    ReachInstall(l, s3, InstallForget, s4);
    StaleDone(l, s4);
  }

  lemma StaleDone(l: set<Block>, s: State)
    requires Reachable(l, s) && s.installer.Stale? && s.installer.wanted == {} && s.installer.todo == {}
    ensures Reachable(l, s.(installer := Finished))
  {
    hide Reachable;
    var s1 := s.(installer := Filling(s.installer.generation, {}));
    ReachInstall(l, s, InstallTurn, s1);
    ReachInstall(l, s1, InstallEnd, s.(installer := Finished));
  }

  lemma FirstInstall()
    ensures Reachable({}, Quiet({}, {}, {}, {}, 1, map[0 := Ready({})], Finished, Running))
  {
    hide Reachable;
    ReachStart({});
    var s := Initial({});
    Refreshed({}, s);
    s := s.(generation := 1, installer := Begun(1), owner := Running);
    NothingStale({}, s);
    s := s.(installer := Filling(1, {}));
    ReachInstall({}, s, InstallEnd, s.(installer := Finished));
    s := s.(installer := Finished);
    ReachLearn({}, s, LearnBegin(0), s.(learners := map[0 := Ready({})]));
  }
}
