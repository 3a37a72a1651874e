/** The route protocol of `engine/src/direct_routes.rs` as atomic steps of its threads: any number of
    callers of `learn`, the installer thread, and the owner that replaces the list and tears down. */
module DirectRoutes {
  import opened Bytes
  import opened Cidr

  const MAX_LEARNED := 4096

  /** The route a learned address gets. */
  function Host(a: nat): Block {
    Block(a, 0)
  }

  function Hosts(addresses: set<nat>): set<Block> {
    set a | a in addresses :: Host(a)
  }

  /** Whether a list, given by its prefixes, contains an address. */
  predicate Contains(list: set<Block>, a: nat) {
    exists b :: b in list && Holds(b, a)
  }

  datatype Lock = Free | ByLearner(id: nat) | ByInstaller | ByOwner

  /** A call of `learn`, with the list it read at its start. */
  datatype Learner =
    | Ready(list: set<Block>)
    | Holding(list: set<Block>, address: nat)
    | Checked(list: set<Block>, address: nat)
    | Adding(list: set<Block>, address: nat)

  datatype Installer =
    | Absent
    | Begun(generation: nat)
    | Read(generation: nat, wanted: set<Block>)
    | Stale(generation: nat, wanted: set<Block>, todo: set<Block>)
    | StaleGone(generation: nat, wanted: set<Block>, todo: set<Block>, route: Block)
    | Filling(generation: nat, todo: set<Block>)
    | Looking(generation: nat, todo: set<Block>, route: Block)
    | Missing(generation: nat, todo: set<Block>, route: Block)
    | Locked(generation: nat, todo: set<Block>, route: Block)
    | Placed(generation: nat, todo: set<Block>, route: Block)
    | Finished

  datatype Owner =
    | Running
    | Replacing(next: set<Block>)
    | Retaining(next: set<Block>, check: set<nat>)
    | RetainGone(next: set<Block>, check: set<nat>, address: nat)
    | Writing(next: set<Block>)
    | Refreshing
    | Joining
    | Spawning
    | Dropping
    | DropJoining
    | DropWaiting
    | RemovingLearned(addresses: set<nat>)
    | LearnedRemoved
    | RemovingInstalled(routes: set<Block>)
    | Done

  datatype State = State(
    os: set<Block>, installed: set<Block>, learned: set<nat>, list: set<Block>, generation: nat, stopped: bool,
    learnedLock: Lock, installedLock: Lock, learners: map<nat, Learner>, installer: Installer, owner: Owner)

  /** A new router: `start` ends in `refresh`. */
  function Initial(list: set<Block>): State {
    State({}, {}, {}, list, 0, false, Free, Free, map[], Absent, Refreshing)
  }

  /** How adding a row ends: the row is there; Windows refused and left the table alone; or an existing
      row was deleted to be replaced and the new one then refused. */
  datatype Outcome = Added | Refused | Deleted

  function Adjusted(os: set<Block>, p: Block, outcome: Outcome): set<Block> {
    match outcome
    case Added => os + {p}
    case Refused => os
    case Deleted => os - {p}
  }

  datatype Step =
    | LearnBegin(id: nat) | LearnAcquire(id: nat, address: nat) | LearnCheck(id: nat)
    | LearnAdd(id: nat, outcome: Outcome) | LearnInsert(id: nat) | LearnEnd(id: nat)
    | InstallRead | InstallStale | InstallWithdraw(route: Block) | InstallForget | InstallTurn
    | InstallNext(route: Block) | InstallLook | InstallLock | InstallAdd(outcome: Outcome) | InstallInsert | InstallEnd
    | ReplaceBegin(next: set<Block>) | ReplaceLock | RetainKeep(address: nat) | RetainWithdraw(address: nat)
    | RetainForget | ReplaceUnlock | ReplaceWrite | RefreshBump | RefreshJoin | RefreshSpawn(ok: bool)
    | DropStop | DropBump | DropJoin | DropLock | DropLearned(address: nat) | DropLearnedDone
    | DropLockInstalled | DropInstalled(route: Block) | DropDone

  predicate LearnStep(step: Step) {
    step.LearnBegin? || step.LearnAcquire? || step.LearnCheck? || step.LearnAdd? || step.LearnInsert? || step.LearnEnd?
  }

  predicate InstallStep(step: Step) {
    || step.InstallRead? || step.InstallStale? || step.InstallWithdraw? || step.InstallForget? || step.InstallTurn?
    || step.InstallNext? || step.InstallLook? || step.InstallLock? || step.InstallAdd? || step.InstallInsert?
    || step.InstallEnd?
  }

  predicate DropStep(step: Step) {
    || step.DropStop? || step.DropBump? || step.DropJoin? || step.DropLock? || step.DropLearned?
    || step.DropLearnedDone?
    || step.DropLockInstalled? || step.DropInstalled? || step.DropDone?
  }

  predicate At(s: State, id: nat, learner: Learner) {
    id in s.learners && s.learners[id] == learner
  }

  /** Steps of `learn`. */
  function TakeLearn(s: State, step: Step): Option<State> {
    match step
    case LearnBegin(id) =>
      if id in s.learners then None else Some(s.(learners := s.learners[id := Ready(s.list)]))
    case LearnAcquire(id, a) =>
      if !(id in s.learners && s.learners[id].Ready? && s.learnedLock.Free?) then None
      else if Contains(s.learners[id].list, a) then None
      else Some(s.(learners := s.learners[id := Holding(s.learners[id].list, a)], learnedLock := ByLearner(id)))
    case LearnCheck(id) =>
      if !(id in s.learners && s.learners[id].Holding?) then None
      else
        var l := s.learners[id];
        if s.stopped || l.address in s.learned || |s.learned| >= MAX_LEARNED
        then Some(s.(learners := s.learners[id := Ready(l.list)], learnedLock := Free))
        else Some(s.(learners := s.learners[id := Checked(l.list, l.address)]))
    case LearnAdd(id, outcome) =>
      if !(id in s.learners && s.learners[id].Checked?) then None
      else
        var l := s.learners[id];
        var tried := s.(os := Adjusted(s.os, Host(l.address), outcome));
        if outcome.Added? then Some(tried.(learners := s.learners[id := Adding(l.list, l.address)]))
        else Some(tried.(learners := s.learners[id := Ready(l.list)], learnedLock := Free))
    case LearnInsert(id) =>
      if !(id in s.learners && s.learners[id].Adding?) then None
      else
        var l := s.learners[id];
        Some(s.(learned := s.learned + {l.address}, learners := s.learners[id := Ready(l.list)], learnedLock := Free))
    case LearnEnd(id) =>
      if !(id in s.learners && s.learners[id].Ready?) then None else Some(s.(learners := s.learners - {id}))
    case _ => None
  }

  /** Steps of `install`. */
  function TakeInstall(s: State, step: Step): Option<State> {
    match (step, s.installer)
    case (InstallRead, Begun(g)) => Some(s.(installer := Read(g, s.list)))
    case (InstallStale, Read(g, w)) =>
      if !s.installedLock.Free? then None else Some(s.(installer := Stale(g, w, s.installed - w)))
    case (InstallWithdraw(p), Stale(g, w, todo)) =>
      if p !in todo then None else Some(s.(os := s.os - {p}, installer := StaleGone(g, w, todo, p)))
    case (InstallForget, StaleGone(g, w, todo, p)) =>
      if !s.installedLock.Free? then None
      else Some(s.(installed := s.installed - {p}, installer := Stale(g, w, todo - {p})))
    case (InstallTurn, Stale(g, w, todo)) => if todo != {} then None else Some(s.(installer := Filling(g, w)))
    case (InstallNext(p), Filling(g, todo)) =>
      if p !in todo then None
      else if s.generation != g then Some(s.(installer := Finished))
      else Some(s.(installer := Looking(g, todo, p)))
    case (InstallLook, Looking(g, todo, p)) =>
      if !s.installedLock.Free? then None
      else if p in s.installed then Some(s.(installer := Filling(g, todo - {p})))
      else Some(s.(installer := Missing(g, todo, p)))
    case (InstallLock, Missing(g, todo, p)) =>
      if !s.installedLock.Free? then None else Some(s.(installedLock := ByInstaller, installer := Locked(g, todo, p)))
    case (InstallAdd(outcome), Locked(g, todo, p)) =>
      var tried := s.(os := Adjusted(s.os, p, outcome));
      if outcome.Added? then Some(tried.(installer := Placed(g, todo, p)))
      else Some(tried.(installedLock := Free, installer := Filling(g, todo - {p})))
    case (InstallInsert, Placed(g, todo, p)) =>
      Some(s.(installed := s.installed + {p}, installedLock := Free, installer := Filling(g, todo - {p})))
    case (InstallEnd, Filling(g, todo)) => if todo != {} then None else Some(s.(installer := Finished))
    case _ => None
  }

  predicate Joinable(s: State) {
    s.installer.Absent? || s.installer.Finished?
  }

  /** Steps of `replace` and `refresh`. */
  function TakeReplace(s: State, step: Step): Option<State> {
    match (step, s.owner)
    case (ReplaceBegin(next), Running) => Some(s.(owner := Replacing(next)))
    case (ReplaceLock, Replacing(next)) =>
      if !s.learnedLock.Free? then None else Some(s.(learnedLock := ByOwner, owner := Retaining(next, s.learned)))
    case (RetainKeep(a), Retaining(next, todo)) =>
      if a !in todo || Contains(next, a) then None else Some(s.(owner := Retaining(next, todo - {a})))
    case (RetainWithdraw(a), Retaining(next, todo)) =>
      if a !in todo then None else Some(s.(os := s.os - {Host(a)}, owner := RetainGone(next, todo, a)))
    case (RetainForget, RetainGone(next, todo, a)) =>
      Some(s.(learned := s.learned - {a}, owner := Retaining(next, todo - {a})))
    case (ReplaceUnlock, Retaining(next, todo)) =>
      if todo != {} then None else Some(s.(learnedLock := Free, owner := Writing(next)))
    case (ReplaceWrite, Writing(next)) => Some(s.(list := next, owner := Refreshing))
    case (RefreshBump, Refreshing) => Some(s.(generation := s.generation + 1, owner := Joining))
    case (RefreshJoin, Joining) => if !Joinable(s) then None else Some(s.(installer := Absent, owner := Spawning))
    case (RefreshSpawn(ok), Spawning) =>
      Some(s.(installer := if ok then Begun(s.generation) else Absent, owner := Running))
    case _ => None
  }

  /** Steps of `drop` and `remove_all`. */
  function TakeDrop(s: State, step: Step): Option<State> {
    match (step, s.owner)
    case (DropStop, Running) => Some(s.(stopped := true, owner := Dropping))
    case (DropBump, Dropping) => Some(s.(generation := s.generation + 1, owner := DropJoining))
    case (DropJoin, DropJoining) => if !Joinable(s) then None else Some(s.(installer := Absent, owner := DropWaiting))
    case (DropLock, DropWaiting) =>
      if !s.learnedLock.Free? then None else Some(s.(learnedLock := ByOwner, owner := RemovingLearned(s.learned)))
    case (DropLearned(a), RemovingLearned(todo)) =>
      if a !in todo then None else Some(s.(os := s.os - {Host(a)}, owner := RemovingLearned(todo - {a})))
    case (DropLearnedDone, RemovingLearned(todo)) =>
      if todo != {} then None else Some(s.(learned := {}, learnedLock := Free, owner := LearnedRemoved))
    case (DropLockInstalled, LearnedRemoved) =>
      if !s.installedLock.Free? then None
      else Some(s.(installedLock := ByOwner, owner := RemovingInstalled(s.installed)))
    case (DropInstalled(p), RemovingInstalled(todo)) =>
      if p !in todo then None else Some(s.(os := s.os - {p}, owner := RemovingInstalled(todo - {p})))
    case (DropDone, RemovingInstalled(todo)) =>
      if todo != {} then None else Some(s.(installed := {}, installedLock := Free, owner := Done))
    case _ => None
  }

  function Take(s: State, step: Step): Option<State> {
    if LearnStep(step) then TakeLearn(s, step)
    else if InstallStep(step) then TakeInstall(s, step)
    else if DropStep(step) then TakeDrop(s, step)
    else TakeReplace(s, step)
  }

  // ----- the invariant -----

  predicate Busy(l: Learner) {
    !l.Ready?
  }

  /** Each lock is held exactly where the code holds it. */
  ghost predicate Locks(s: State) {
    && (forall id :: id in s.learners && Busy(s.learners[id]) ==> s.learnedLock == ByLearner(id))
    && (s.learnedLock.ByLearner? ==> s.learnedLock.id in s.learners && Busy(s.learners[s.learnedLock.id]))
    && (s.learnedLock.ByOwner? <==> s.owner.Retaining? || s.owner.RetainGone? || s.owner.RemovingLearned?)
    && (s.installedLock.ByInstaller? <==> s.installer.Locked? || s.installer.Placed?)
    && (s.installedLock.ByOwner? <==> s.owner.RemovingInstalled?)
    && !s.learnedLock.ByInstaller? && !s.installedLock.ByLearner?
  }

  /** Routes added under a lock and about to enter its set. */
  ghost predicate InFlight(s: State, p: Block) {
    || (s.learnedLock.ByLearner? && s.learnedLock.id in s.learners
        && s.learners[s.learnedLock.id].Adding? && p == Host(s.learners[s.learnedLock.id].address))
    || (s.installer.Placed? && p == s.installer.route)
  }

  /** The tracked routes that are not just being withdrawn. */
  ghost predicate Firm(s: State, p: Block) {
    || (p in s.installed && !(s.installer.StaleGone? && s.installer.route == p))
    || (p in Hosts(s.learned) && !(s.owner.RetainGone? && Host(s.owner.address) == p))
  }

  /** Every row this router added is tracked, or is being tracked under that set's lock. */
  ghost predicate Tracked(s: State) {
    forall p :: p in s.os ==> Firm(s, p) || InFlight(s, p)
  }

  predicate TearingDown(o: Owner) {
    || o.Dropping? || o.DropJoining? || o.DropWaiting? || o.RemovingLearned? || o.LearnedRemoved?
    || o.RemovingInstalled? || o.Done?
  }

  predicate InstallerGone(o: Owner) {
    o.Spawning? || o.DropWaiting? || o.RemovingLearned? || o.LearnedRemoved? || o.RemovingInstalled? || o.Done?
  }

  predicate LearningOver(o: Owner) {
    o.RemovingLearned? || o.LearnedRemoved? || o.RemovingInstalled? || o.Done?
  }

  ghost predicate Teardown(s: State) {
    && (s.stopped <==> TearingDown(s.owner))
    && (InstallerGone(s.owner) ==> s.installer.Absent?)
    && (LearningOver(s.owner) ==> forall id :: id in s.learners ==> !s.learners[id].Checked? && !s.learners[id].Adding?)
    && (s.owner.RemovingLearned? ==>
          s.owner.addresses <= s.learned && forall a :: a in s.learned - s.owner.addresses ==> Host(a) !in s.os)
    && (s.owner.LearnedRemoved? || s.owner.RemovingInstalled? || s.owner.Done? ==> s.learned == {})
    && (s.owner.RemovingInstalled? ==> s.owner.routes <= s.installed && s.os <= s.owner.routes)
    && (s.owner.Done? ==> s.os == {} && s.installed == {})
  }

  ghost predicate Bounded(s: State) {
    && |s.learned| <= 4096
    && forall id :: id in s.learners && (s.learners[id].Checked? || s.learners[id].Adding?) ==>
         |s.learned| < MAX_LEARNED
  }

  /** What a thread found missing stays missing until it adds it, and what it found stale stays. */
  ghost predicate Found(s: State) {
    && (forall id :: id in s.learners && (s.learners[id].Checked? || s.learners[id].Adding?) ==>
          s.learners[id].address !in s.learned)
    && (s.installer.Missing? || s.installer.Locked? || s.installer.Placed? ==> s.installer.route !in s.installed)
    && (s.installer.Stale? || s.installer.StaleGone? ==> s.installer.todo <= s.installed)
    && (s.owner.Retaining? || s.owner.RetainGone? ==> s.owner.check <= s.learned)
  }

  ghost predicate Inv(s: State) {
    Locks(s) && Tracked(s) && Teardown(s) && Bounded(s) && Found(s)
  }

  // ----- every step keeps it -----

  lemma InitialInv(list: set<Block>)
    ensures Inv(Initial(list))
  {
  }

  lemma LearnKeeps(s: State, step: Step)
    requires Inv(s) && LearnStep(step) && TakeLearn(s, step).Some?
    ensures Inv(TakeLearn(s, step).value)
  {
    hide Locks, Tracked, Teardown, Bounded, Found, TakeLearn;
    LearnKeepsLocks(s, step);
    LearnKeepsTracked(s, step);
    LearnKeepsFound(s, step);
    LearnKeepsTeardown(s, step);
    LearnKeepsBounded(s, step);
  }

  lemma LearnKeepsLocks(s: State, step: Step)
    requires Locks(s) && LearnStep(step) && TakeLearn(s, step).Some?
    ensures Locks(TakeLearn(s, step).value)
  {
    hide Contains, Host;
  }

  lemma LearnKeepsTracked(s: State, step: Step)
    requires Locks(s) && Tracked(s) && LearnStep(step) && TakeLearn(s, step).Some?
    ensures Tracked(TakeLearn(s, step).value)
  {
    hide Contains;
  }

  lemma LearnKeepsTeardown(s: State, step: Step)
    requires Teardown(s) && LearnStep(step) && TakeLearn(s, step).Some?
    ensures Teardown(TakeLearn(s, step).value)
  {
    hide Contains;
  }

  lemma LearnKeepsBounded(s: State, step: Step)
    requires Locks(s) && Bounded(s) && LearnStep(step) && TakeLearn(s, step).Some?
    ensures Bounded(TakeLearn(s, step).value)
  {
    hide Contains, Host;
  }

  lemma InstallKeeps(s: State, step: Step)
    requires Inv(s) && InstallStep(step) && TakeInstall(s, step).Some?
    ensures Inv(TakeInstall(s, step).value)
  {
    hide Locks, Tracked, Teardown, Bounded, Found, TakeInstall;
    InstallKeepsLocks(s, step);
    InstallKeepsTracked(s, step);
    InstallKeepsFound(s, step);
    InstallKeepsBounded(s, step);
    InstallKeepsTeardown(s, step);
  }

  lemma InstallKeepsLocks(s: State, step: Step)
    requires Locks(s) && InstallStep(step) && TakeInstall(s, step).Some?
    ensures Locks(TakeInstall(s, step).value)
  {
  }

  lemma InstallKeepsTracked(s: State, step: Step)
    requires Locks(s) && Tracked(s) && InstallStep(step) && TakeInstall(s, step).Some?
    ensures Tracked(TakeInstall(s, step).value)
  {
    hide Host, Hosts;
  }

  lemma InstallKeepsTeardown(s: State, step: Step)
    requires Locks(s) && Teardown(s) && InstallStep(step) && TakeInstall(s, step).Some?
    ensures Teardown(TakeInstall(s, step).value)
  {
    hide Host, Hosts;
    assert !InstallerGone(s.owner);
  }

  lemma ReplaceKeeps(s: State, step: Step)
    requires Inv(s) && TakeReplace(s, step).Some?
    ensures Inv(TakeReplace(s, step).value)
  {
    hide Locks, Tracked, Teardown, Bounded, Found, TakeReplace;
    ReplaceKeepsLocks(s, step);
    ReplaceKeepsTracked(s, step);
    ReplaceKeepsFound(s, step);
    ReplaceKeepsTeardown(s, step);
    ReplaceKeepsBounded(s, step);
  }

  lemma ReplaceKeepsLocks(s: State, step: Step)
    requires Locks(s) && Teardown(s) && TakeReplace(s, step).Some?
    ensures Locks(TakeReplace(s, step).value)
  {
    hide Contains, Host;
  }

  lemma ReplaceKeepsTeardown(s: State, step: Step)
    requires Locks(s) && Teardown(s) && TakeReplace(s, step).Some?
    ensures Teardown(TakeReplace(s, step).value)
  {
    hide Contains, Host;
  }

  lemma ReplaceKeepsTracked(s: State, step: Step)
    requires Locks(s) && Tracked(s) && Teardown(s) && TakeReplace(s, step).Some?
    ensures Tracked(TakeReplace(s, step).value)
  {
    hide Contains;
  }

  lemma ReplaceKeepsBounded(s: State, step: Step)
    requires Locks(s) && Bounded(s) && TakeReplace(s, step).Some?
    ensures Bounded(TakeReplace(s, step).value)
  {
    hide Contains, Host;
    var s' := TakeReplace(s, step).value;
    if step.RetainForget? {
      assert |s'.learned| <= |s.learned| by { assert s.learned == s'.learned + (s.learned - s'.learned); }
    }
  }

  lemma DropKeeps(s: State, step: Step)
    requires Inv(s) && DropStep(step) && TakeDrop(s, step).Some?
    ensures Inv(TakeDrop(s, step).value)
  {
    hide Locks, Tracked, Teardown, Bounded, Found, TakeDrop;
    DropKeepsLocks(s, step);
    DropKeepsTracked(s, step);
    DropKeepsFound(s, step);
    DropKeepsTeardown(s, step);
  }

  lemma DropKeepsLocks(s: State, step: Step)
    requires Locks(s) && Bounded(s) && DropStep(step) && TakeDrop(s, step).Some?
    ensures Locks(TakeDrop(s, step).value) && Bounded(TakeDrop(s, step).value)
  {
  }

  lemma DropKeepsTracked(s: State, step: Step)
    requires Locks(s) && Tracked(s) && Teardown(s) && DropStep(step) && TakeDrop(s, step).Some?
    ensures Tracked(TakeDrop(s, step).value)
  {
  }

  lemma DropKeepsTeardown(s: State, step: Step)
    requires Locks(s) && Tracked(s) && Teardown(s) && DropStep(step) && TakeDrop(s, step).Some?
    ensures Teardown(TakeDrop(s, step).value)
  {
  }

  lemma LearnKeepsFound(s: State, step: Step)
    requires Locks(s) && Found(s) && LearnStep(step) && TakeLearn(s, step).Some?
    ensures Found(TakeLearn(s, step).value)
  {
    hide Contains, Host;
  }

  lemma InstallKeepsFound(s: State, step: Step)
    requires Locks(s) && Found(s) && InstallStep(step) && TakeInstall(s, step).Some?
    ensures Found(TakeInstall(s, step).value)
  {
  }

  lemma InstallKeepsBounded(s: State, step: Step)
    requires Bounded(s) && InstallStep(step) && TakeInstall(s, step).Some?
    ensures Bounded(TakeInstall(s, step).value)
  {
  }

  lemma ReplaceKeepsFound(s: State, step: Step)
    requires Locks(s) && Found(s) && Teardown(s) && TakeReplace(s, step).Some?
    ensures Found(TakeReplace(s, step).value)
  {
    hide Contains, Host;
  }

  lemma DropKeepsFound(s: State, step: Step)
    requires Locks(s) && Found(s) && Teardown(s) && DropStep(step) && TakeDrop(s, step).Some?
    ensures Found(TakeDrop(s, step).value)
  {
    hide Host;
  }

  lemma TakeKeeps(s: State, step: Step)
    requires Inv(s) && Take(s, step).Some?
    ensures Inv(Take(s, step).value)
  {
    hide Inv, TakeLearn, TakeInstall, TakeReplace, TakeDrop;
    if LearnStep(step) {
      LearnKeeps(s, step);
    } else if InstallStep(step) {
      InstallKeeps(s, step);
    } else if DropStep(step) {
      DropKeeps(s, step);
    } else {
      ReplaceKeeps(s, step);
    }
  }

  // ----- whole runs -----

  /** The state after `steps`, when each of them was possible. */
  ghost function After(list: set<Block>, steps: seq<Step>): Option<State> {
    if steps == [] then Some(Initial(list))
    else
      var before := After(list, steps[..|steps| - 1]);
      if before.None? then None else Take(before.value, steps[|steps| - 1])
  }

  /** In every interleaving every row is tracked, and at most 4096 addresses are learned. */
  lemma {:induction false} Safety(list: set<Block>, steps: seq<Step>)
    ensures After(list, steps).Some? ==> Inv(After(list, steps).value)
  {
    hide Inv, Take;
    if steps == [] {
      InitialInv(list);
    } else {
      var init := steps[..|steps| - 1];
      Safety(list, init);
      if After(list, init).Some? && After(list, steps).Some? {
        TakeKeeps(After(list, init).value, steps[|steps| - 1]);
      }
    }
  }

  /** Nothing leads out of a completed teardown. */
  lemma DoneStays(s: State, step: Step)
    requires s.owner.Done? && Take(s, step).Some?
    ensures Take(s, step).value.owner.Done?
  {
    hide Contains, Host, TakeLearn, TakeInstall;
    if LearnStep(step) {
      LearnKeepsOwner(s, step);
    } else if InstallStep(step) {
      InstallKeepsOwner(s, step);
    }
  }

  lemma LearnKeepsOwner(s: State, step: Step)
    requires LearnStep(step) && TakeLearn(s, step).Some?
    ensures TakeLearn(s, step).value.owner == s.owner
  {
    hide Contains, Host;
  }

  lemma InstallKeepsOwner(s: State, step: Step)
    requires InstallStep(step) && TakeInstall(s, step).Some?
    ensures TakeInstall(s, step).value.owner == s.owner
  {
  }

  /** Once `drop` has completed, no row this router added remains, and none appears later, whatever
      the remaining callers of `learn` still do. */
  lemma {:induction false} NothingAfterDrop(list: set<Block>, steps: seq<Step>, n: nat)
    requires n <= |steps| && After(list, steps).Some?
    requires After(list, steps[..n]).Some? && After(list, steps[..n]).value.owner.Done?
    ensures After(list, steps).value.owner.Done? && After(list, steps).value.os == {}
    decreases |steps|
  {
    hide Take;
    Safety(list, steps);
    if n == |steps| {
      assert steps[..n] == steps;
    } else {
      var init := steps[..|steps| - 1];
      assert init[..n] == steps[..n];
      NothingAfterDrop(list, init, n);
      DoneStays(After(list, init).value, steps[|steps| - 1]);
    }
  }
}
