/** That the route protocol gets done: who can always go on, what every step brings nearer its end, and
    how little an outdated installer still does. */
module RouteProgress {
  import opened Bytes
  import opened Cidr
  import opened DirectRoutes
  import opened Installation

  // ----- the installer -----

  predicate Working(i: Installer) {
    !i.Absent? && !i.Finished?
  }

  /** How far the installer is from its end: the part it is in, and what is left of that part. */
  function InstallerRank(i: Installer): (nat, nat) {
    match i
    case Begun(_) => (4, 0)
    case Read(_, _) => (3, 0)
    case Stale(_, _, todo) => (2, 2 * |todo|)
    case StaleGone(_, _, todo, p) => (2, 2 * |todo - {p}| + 1)
    case Filling(_, todo) => (1, 5 * |todo|)
    case Looking(_, todo, p) => (1, 5 * |todo - {p}| + 4)
    case Missing(_, todo, p) => (1, 5 * |todo - {p}| + 3)
    case Locked(_, todo, p) => (1, 5 * |todo - {p}| + 2)
    case Placed(_, todo, p) => (1, 5 * |todo - {p}| + 1)
    case Absent => (0, 0)
    case Finished => (0, 0)
  }

  predicate Below(a: (nat, nat), b: (nat, nat)) {
    a.0 < b.0 || (a.0 == b.0 && a.1 < b.1)
  }

  /** One step of an installer that may look at the list, remove what is stale, or add what is missing. */
  ghost predicate Moves(i: Installer, j: Installer) {
    match (i, j)
    case (Begun(_), Read(_, _)) => true
    case (Read(_, _), Stale(_, _, _)) => true
    case (Stale(_, _, todo), StaleGone(_, _, left, p)) => left == todo && p in todo
    case (StaleGone(_, _, todo, p), Stale(_, _, left)) => left == todo - {p}
    case (Stale(_, _, todo), Filling(_, _)) => todo == {}
    case (Filling(_, todo), Looking(_, left, p)) => left == todo && p in todo
    case (Looking(_, todo, p), Missing(_, left, q)) => left == todo && p == q
    case (Missing(_, todo, p), Locked(_, left, q)) => left == todo && p == q
    case (Locked(_, todo, p), Placed(_, left, q)) => left == todo && p == q
    case (Looking(_, todo, p), Filling(_, left)) => left == todo - {p}
    case (Locked(_, todo, p), Filling(_, left)) => left == todo - {p}
    case (Placed(_, todo, p), Filling(_, left)) => left == todo - {p}
    case (Filling(_, _), Finished) => true
    case _ => false
  }

  lemma InstallMoves(s: State, step: Step)
    requires TakeInstall(s, step).Some?
    ensures Moves(s.installer, TakeInstall(s, step).value.installer)
  {
    hide Adjusted;
  }

  lemma MovesLower(i: Installer, j: Installer)
    requires Moves(i, j)
    ensures Below(InstallerRank(j), InstallerRank(i))
  {
    match (i, j)
    case (Stale(_, _, todo), StaleGone(_, _, _, p)) => OneLess(todo, p);
    case (Filling(_, todo), Looking(_, _, p)) => OneLess(todo, p);
    case _ =>
  }

  /** Every step of the installer brings its end nearer, whatever Windows answers. */
  lemma InstallLowers(s: State, step: Step)
    requires TakeInstall(s, step).Some?
    ensures Below(InstallerRank(TakeInstall(s, step).value.installer), InstallerRank(s.installer))
  {
    hide TakeInstall, Moves, InstallerRank;
    InstallMoves(s, step);
    MovesLower(s.installer, TakeInstall(s, step).value.installer);
  }

  lemma OneLess<T>(todo: set<T>, p: T)
    requires p in todo
    ensures |todo| == |todo - {p}| + 1
  {
  }

  /** A working installer can always take a step: nobody holds the lock it needs. */
  lemma InstallerGoesOn(s: State) returns (step: Step)
    requires Inv(s) && Working(s.installer)
    ensures InstallStep(step) && TakeInstall(s, step).Some? && Take(s, step) == TakeInstall(s, step)
    ensures step.InstallAdd? ==> step.outcome.Added?
  {
    InstallerHasLock(s);
    hide Inv, TakeInstall, InstallStep, Take;
    step := NextInstall(s);
    InstallTakes(s, step);
  }

  lemma NextInstall(s: State) returns (step: Step)
    requires Working(s.installer)
    requires s.installedLock == if s.installer.Locked? || s.installer.Placed? then ByInstaller else Free
    ensures TakeInstall(s, step).Some? && (step.InstallAdd? ==> step.outcome.Added?)
  {
    hide Adjusted;
    match s.installer
    case Begun(_) => step := InstallRead;
    case Read(_, _) => step := InstallStale;
    case Stale(_, _, todo) =>
      if todo == {} { step := InstallTurn; } else { var p :| p in todo; step := InstallWithdraw(p); }
    case StaleGone(_, _, _, _) => step := InstallForget;
    case Filling(_, todo) =>
      if todo == {} { step := InstallEnd; } else { var p :| p in todo; step := InstallNext(p); }
    case Looking(_, _, _) => step := InstallLook;
    case Missing(_, _, _) => step := InstallLock;
    case Locked(_, _, _) => step := InstallAdd(Added);
    case Placed(_, _, _) => step := InstallInsert;
  }

  lemma InstallerHasLock(s: State)
    requires Inv(s) && Working(s.installer)
    ensures s.installedLock == if s.installer.Locked? || s.installer.Placed? then ByInstaller else Free
  {
  }

  // ----- a caller of learn -----

  function LearnerRank(l: Learner): nat {
    match l
    case Ready(_) => 0
    case Holding(_, _) => 3
    case Checked(_, _) => 2
    case Adding(_, _) => 1
  }

  /** Whoever holds the lock of the learned addresses can go on by itself, and lets go of it within
      three steps. */
  lemma HolderGoesOn(s: State, id: nat, outcome: Outcome) returns (step: Step)
    requires Inv(s) && s.learnedLock == ByLearner(id)
    ensures LearnStep(step) && TakeLearn(s, step).Some?
    ensures id in s.learners && 0 < LearnerRank(s.learners[id]) <= 3
    ensures var t := TakeLearn(s, step).value;
            && id in t.learners && LearnerRank(t.learners[id]) < LearnerRank(s.learners[id])
            && (LearnerRank(t.learners[id]) == 0 ==> t.learnedLock.Free?)
            && (LearnerRank(t.learners[id]) > 0 ==> t.learnedLock == ByLearner(id))
  {
    hide Adjusted, Host;
    match s.learners[id]
    case Holding(_, _) => step := LearnCheck(id);
    case Checked(_, _) => step := LearnAdd(id, outcome);
    case Adding(_, _) => step := LearnInsert(id);
  }

  /** What `learn` does with an address, when nobody holds the lock: one the list covers it does not touch;
      of the others it routes and keeps exactly those that are new, below the limit of 4096 and not too
      late. */
  lemma LearnedIff(s: State, id: nat, a: nat)
    requires Inv(s) && id in s.learners && s.learners[id].Ready? && s.learnedLock.Free?
    ensures TakeLearn(s, LearnAcquire(id, a)).None? <==> exists b :: b in s.learners[id].list && Holds(b, a)
    ensures !Contains(s.learners[id].list, a) ==>
              var held := TakeLearn(s, LearnAcquire(id, a)).value;
              && TakeLearn(held, LearnCheck(id)).Some?
              && var checked := TakeLearn(held, LearnCheck(id)).value;
                 if s.stopped || a in s.learned || |s.learned| >= 4096 then
                   checked == s && TakeLearn(checked, LearnAdd(id, Added)).None?
                 else
                   && TakeLearn(checked, LearnAdd(id, Added)).Some?
                   && var added := TakeLearn(checked, LearnAdd(id, Added)).value;
                      && TakeLearn(added, LearnInsert(id)) ==
                           Some(s.(os := s.os + {Block(a, 0)}, learned := s.learned + {a}))
                      && TakeLearn(checked, LearnAdd(id, Refused)) == Some(s)
  {
    hide Inv;
    if !Contains(s.learners[id].list, a) {
      var l := s.learners[id];
      var holding: map<nat, Learner> := s.learners[id := Holding(l.list, a)];
      var checked: map<nat, Learner> := holding[id := Checked(l.list, a)];
      assert holding[id := Ready(l.list)] == s.learners && checked[id := Ready(l.list)] == s.learners;
      var adding: map<nat, Learner> := checked[id := Adding(l.list, a)];
      assert adding[id := Ready(l.list)] == s.learners;
    }
  }

  // ----- the owner -----

  /** How far the owner is from the end of all its calls: the part it is in, and what is left of that part. */
  function OwnerRank(o: Owner): (nat, nat) {
    match o
    case Replacing(_) => (14, 0)
    case Retaining(_, todo) => (13, 2 * |todo|)
    case RetainGone(_, todo, a) => (13, 2 * |todo - {a}| + 1)
    case Writing(_) => (12, 0)
    case Refreshing => (11, 0)
    case Joining => (10, 0)
    case Spawning => (9, 0)
    case Running => (8, 0)
    case Dropping => (7, 0)
    case DropJoining => (6, 0)
    case DropWaiting => (5, 0)
    case RemovingLearned(todo) => (4, |todo|)
    case LearnedRemoved => (3, 0)
    case RemovingInstalled(todo) => (2, |todo|)
    case Done => (0, 0)
  }

  predicate OwnerStep(step: Step) {
    !LearnStep(step) && !InstallStep(step)
  }

  /** One step of the owner, other than the beginning of another replacement. */
  ghost predicate OwnerMoves(o: Owner, p: Owner) {
    match (o, p)
    case (Replacing(_), Retaining(_, _)) => true
    case (Retaining(_, todo), Retaining(_, left)) => exists a :: a in todo && left == todo - {a}
    case (Retaining(_, todo), RetainGone(_, left, a)) => left == todo && a in todo
    case (RetainGone(_, todo, a), Retaining(_, left)) => left == todo - {a}
    case (Retaining(_, _), Writing(_)) => true
    case (Writing(_), Refreshing) => true
    case (Refreshing, Joining) => true
    case (Joining, Spawning) => true
    case (Spawning, Running) => true
    case (Running, Dropping) => true
    case (Dropping, DropJoining) => true
    case (DropJoining, DropWaiting) => true
    case (DropWaiting, RemovingLearned(_)) => true
    case (RemovingLearned(todo), RemovingLearned(left)) => exists a :: a in todo && left == todo - {a}
    case (RemovingLearned(_), LearnedRemoved) => true
    case (LearnedRemoved, RemovingInstalled(_)) => true
    case (RemovingInstalled(todo), RemovingInstalled(left)) => exists p :: p in todo && left == todo - {p}
    case (RemovingInstalled(_), Done) => true
    case _ => false
  }

  lemma ReplaceMoves(s: State, step: Step)
    requires TakeReplace(s, step).Some? && !step.ReplaceBegin?
    ensures OwnerMoves(s.owner, TakeReplace(s, step).value.owner)
  {
    hide Contains, Host;
  }

  lemma DropMoves(s: State, step: Step)
    requires TakeDrop(s, step).Some?
    ensures OwnerMoves(s.owner, TakeDrop(s, step).value.owner)
  {
    hide Host;
  }

  lemma OwnerMovesLower(o: Owner, p: Owner)
    requires OwnerMoves(o, p)
    ensures Below(OwnerRank(p), OwnerRank(o))
  {
    match (o, p)
    case (Retaining(_, todo), Retaining(_, left)) => var a :| a in todo && left == todo - {a}; OneLess(todo, a);
    case (Retaining(_, todo), RetainGone(_, _, a)) => OneLess(todo, a);
    case (RemovingLearned(todo), RemovingLearned(left)) => var a :| a in todo && left == todo - {a}; OneLess(todo, a);
    case (RemovingInstalled(todo), RemovingInstalled(left)) =>
      var p :| p in todo && left == todo - {p}; OneLess(todo, p);
    case _ =>
  }

  /** Every step of the owner but the beginning of another replacement brings its end nearer. */
  lemma OwnerLowers(s: State, step: Step)
    requires OwnerStep(step) && Take(s, step).Some? && !step.ReplaceBegin?
    ensures Below(OwnerRank(Take(s, step).value.owner), OwnerRank(s.owner))
  {
    hide TakeLearn, TakeInstall, TakeReplace, TakeDrop, OwnerMoves, OwnerRank, Below;
    if DropStep(step) {
      DropMoves(s, step);
    } else {
      ReplaceMoves(s, step);
    }
    OwnerMovesLower(s.owner, Take(s, step).value.owner);
  }

  /** No other thread's step moves the owner. */
  lemma OthersKeepOwner(s: State, step: Step)
    requires !OwnerStep(step) && Take(s, step).Some?
    ensures Take(s, step).value.owner == s.owner
    ensures LearnStep(step) ==> Take(s, step).value.installer == s.installer
  {
    hide Contains, Host, Adjusted, TakeInstall;
    if InstallStep(step) {
      InstallKeepsOwner(s, step);
    }
  }

  /** What the owner can be waiting for: a caller of `learn` that holds the lock, or the installer. */
  predicate Waits(s: State) {
    || ((s.owner.Replacing? || s.owner.DropWaiting?) && s.learnedLock.ByLearner?)
    || ((s.owner.Joining? || s.owner.DropJoining?) && Working(s.installer))
  }

  predicate Replacement(o: Owner) {
    o.Replacing? || o.Retaining? || o.RetainGone? || o.Writing? || o.Refreshing? || o.Joining? || o.Spawning?
  }

  lemma ReplaceGoesOn(s: State) returns (step: Step)
    requires Replacement(s.owner) && !Waits(s)
    requires s.owner.Replacing? ==> s.learnedLock.ByLearner? || s.learnedLock.Free?
    ensures TakeReplace(s, step).Some? && !step.ReplaceBegin?
  {
    hide Contains, Host;
    match s.owner
    case Replacing(_) => step := ReplaceLock;
    case Retaining(_, todo) =>
      if todo == {} { step := ReplaceUnlock; } else { var a :| a in todo; step := RetainWithdraw(a); }
    case RetainGone(_, _, _) => step := RetainForget;
    case Writing(_) => step := ReplaceWrite;
    case Refreshing => step := RefreshBump;
    case Joining => step := RefreshJoin;
    case Spawning => step := RefreshSpawn(true);
  }

  lemma DropGoesOn(s: State) returns (step: Step)
    requires !Replacement(s.owner) && !s.owner.Done? && !Waits(s)
    requires s.owner.DropWaiting? ==> s.learnedLock.ByLearner? || s.learnedLock.Free?
    requires s.owner.LearnedRemoved? ==> s.installedLock.Free?
    ensures TakeDrop(s, step).Some?
  {
    hide Host;
    match s.owner
    case Running => step := DropStop;
    case Dropping => step := DropBump;
    case DropJoining => step := DropJoin;
    case DropWaiting => step := DropLock;
    case RemovingLearned(todo) =>
      if todo == {} { step := DropLearnedDone; } else { var a :| a in todo; step := DropLearned(a); }
    case LearnedRemoved => step := DropLockInstalled;
    case RemovingInstalled(todo) =>
      if todo == {} { step := DropDone; } else { var p :| p in todo; step := DropInstalled(p); }
  }

  lemma ReplaceTakes(s: State, step: Step)
    requires TakeReplace(s, step).Some?
    ensures OwnerStep(step) && Take(s, step) == TakeReplace(s, step)
  {
    hide Contains, Host, TakeLearn, TakeInstall;
  }

  lemma DropTakes(s: State, step: Step)
    requires TakeDrop(s, step).Some?
    ensures OwnerStep(step) && !step.ReplaceBegin? && Take(s, step) == TakeDrop(s, step)
  {
    hide Host, TakeLearn, TakeInstall;
  }

  /** A replacement or a teardown goes on by itself unless it waits. */
  lemma OwnerGoesOn(s: State) returns (step: Step)
    requires Inv(s) && !s.owner.Done? && !Waits(s)
    ensures OwnerStep(step) && !step.ReplaceBegin? && Take(s, step).Some?
  {
    LocksFree(s);
    hide Take, TakeReplace, TakeDrop, Inv, Waits, OwnerStep;
    if Replacement(s.owner) {
      step := ReplaceGoesOn(s);
      ReplaceTakes(s, step);
    } else {
      step := DropGoesOn(s);
      DropTakes(s, step);
    }
  }

  /** The step is the owner's, the installer's, or one that brings the holder of the lock nearer to letting
      go of it. */
  ghost predicate Advances(s: State, step: Step) {
    && Take(s, step).Some? && !step.ReplaceBegin?
    && (OwnerStep(step) || InstallStep(step) || (LearnStep(step) && Held(Take(s, step).value) < Held(s)))
  }

  /** And whoever the owner waits for goes on. */
  lemma SomeoneGoesOn(s: State) returns (step: Step)
    requires Inv(s) && !s.owner.Done?
    ensures Advances(s, step) && (!Waits(s) ==> OwnerStep(step))
  {
    hide Inv, TakeInstall, TakeLearn, TakeReplace, TakeDrop;
    if !Waits(s) {
      step := OwnerGoesOn(s);
    } else if s.owner.Joining? || s.owner.DropJoining? {
      step := InstallerGoesOn(s);
    } else {
      step := HolderGoesOn(s, s.learnedLock.id, Added);
    }
  }

  lemma LocksFree(s: State)
    requires Inv(s)
    ensures s.owner.Replacing? || s.owner.DropWaiting? ==> s.learnedLock.ByLearner? || s.learnedLock.Free?
    ensures s.owner.LearnedRemoved? ==> s.installedLock.Free?
  {
  }

  /** How many steps the caller of `learn` that holds the lock has left before it lets go. */
  function Held(s: State): nat {
    if s.learnedLock.ByLearner? && s.learnedLock.id in s.learners then LearnerRank(s.learners[s.learnedLock.id]) else 0
  }

  // ----- whole runs -----

  /** Teardown can always be completed, from every state of every interleaving, and it leaves no row. */
  lemma DropCompletes(list: set<Block>, steps: seq<Step>) returns (all: seq<Step>)
    requires After(list, steps).Some?
    ensures steps <= all && After(list, all).Some?
    ensures After(list, all).value.owner.Done? && After(list, all).value.os == {}
    decreases OwnerRank(After(list, steps).value.owner).0, OwnerRank(After(list, steps).value.owner).1,
              InstallerRank(After(list, steps).value.installer).0, InstallerRank(After(list, steps).value.installer).1,
              Held(After(list, steps).value)
  {
    hide Take, Inv, OwnerRank, InstallerRank, Held, Waits, Advances, OwnerStep;
    var s := After(list, steps).value;
    Safety(list, steps);
    if s.owner.Done? {
      assert steps[..|steps|] == steps;
      NothingAfterDrop(list, steps, |steps|);
      all := steps;
    } else {
      var step := SomeoneGoesOn(s);
      var more := steps + [step];
      assert more[..|steps|] == steps;
      StepBrings(s, step);
      all := DropCompletes(list, more);
    }
  }

  lemma StepBrings(s: State, step: Step)
    requires Advances(s, step)
    ensures Take(s, step).Some?
    ensures var (t, o, i) := (Take(s, step).value, OwnerRank(s.owner), InstallerRank(s.installer));
            || Below(OwnerRank(t.owner), o)
            || (OwnerRank(t.owner) == o && Below(InstallerRank(t.installer), i))
            || (OwnerRank(t.owner) == o && InstallerRank(t.installer) == i && Held(t) < Held(s))
  {
    hide TakeLearn, TakeInstall, TakeReplace, TakeDrop, OwnerRank, InstallerRank, Held, Below;
    if OwnerStep(step) {
      OwnerLowers(s, step);
    } else {
      OthersKeepOwner(s, step);
      if InstallStep(step) && !LearnStep(step) {
        InstallLowers(s, step);
      }
    }
  }

  /** An installer left to itself, with every route accepted, ends. */
  lemma InstallCompletes(list: set<Block>, steps: seq<Step>) returns (more: seq<Step>)
    requires After(list, steps).Some? && Working(After(list, steps).value.installer)
    ensures forall step <- more :: InstallStep(step) && (step.InstallAdd? ==> step.outcome.Added?)
    ensures After(list, steps + more).Some? && After(list, steps + more).value.installer.Finished?
    ensures After(list, steps + more).value.owner == After(list, steps).value.owner
    ensures FailedRoutes(list, steps + more) == FailedRoutes(list, steps)
    decreases InstallerRank(After(list, steps).value.installer).0, InstallerRank(After(list, steps).value.installer).1
  {
    hide TakeInstall, Inv, InstallerRank, InstallStep;
    var s := After(list, steps).value;
    Safety(list, steps);
    var step := InstallerGoesOn(s);
    InstallTakes(s, step);
    hide Take;
    InstallLowers(s, step);
    InstallKeepsOwner(s, step);
    InstallerStays(s, step);
    var longer := steps + [step];
    assert longer[..|steps|] == steps;
    if Working(After(list, longer).value.installer) {
      var rest := InstallCompletes(list, longer);
      more := [step] + rest;
      assert longer + rest == steps + more;
    } else {
      more := [step];
    }
  }

  lemma InstallTakes(s: State, step: Step)
    requires TakeInstall(s, step).Some?
    ensures InstallStep(step) && Take(s, step) == TakeInstall(s, step)
    ensures forall failed :: !(step.InstallAdd? && !step.outcome.Added?) ==> FailedNow(s, step, failed) == failed
  {
    hide Adjusted, TakeLearn, TakeReplace, TakeDrop;
  }

  lemma InstallerStays(s: State, step: Step)
    requires TakeInstall(s, step).Some?
    ensures !TakeInstall(s, step).value.installer.Absent?
  {
    hide Adjusted;
  }

  /** From every state in which the current list is being installed, it can be: all of it, but for the
      routes that Windows had refused so far. */
  lemma ListCanBeInstalled(list: set<Block>, steps: seq<Step>) returns (more: seq<Step>)
    requires After(list, steps).Some?
    requires var s := After(list, steps).value; Working(s.installer) && Current(s.owner)
    ensures After(list, steps + more).Some?
    ensures var t := After(list, steps + more).value; t.list - t.installed == FailedRoutes(list, steps)
  {
    hide Take, FailedRoutes;
    more := InstallCompletes(list, steps);
    InstalledIs(list, steps + more);
  }

  // ----- what a replacement keeps -----

  /** The learned addresses that `replace` has decided to keep are outside the new list. */
  ghost predicate KeptOutside(s: State) {
    s.owner.Retaining? || s.owner.RetainGone? ==>
      forall a :: a in s.learned && a !in s.owner.check ==> !exists b :: b in s.owner.next && Holds(b, a)
  }

  lemma KeptOutsideStep(s: State, step: Step)
    requires Inv(s) && KeptOutside(s) && Take(s, step).Some?
    ensures KeptOutside(Take(s, step).value)
  {
    hide TakeLearn, TakeInstall, TakeReplace, TakeDrop, Inv, KeptOutside;
    var t := Take(s, step).value;
    if LearnStep(step) {
      LearnUnderOwner(s, step);
      SameKept(s, t);
    } else if InstallStep(step) {
      InstallKeepsOwner(s, step);
      InstallKeepsLearned(s, step);
      SameKept(s, t);
    } else if DropStep(step) {
      DropKeptOutside(s, step);
    } else {
      ReplaceKeptOutside(s, step);
    }
  }

  lemma SameKept(s: State, t: State)
    requires KeptOutside(s) && t.owner == s.owner
    requires s.owner.Retaining? || s.owner.RetainGone? ==> t.learned == s.learned
    ensures KeptOutside(t)
  {
    hide Holds;
  }

  lemma DropKeptOutside(s: State, step: Step)
    requires TakeDrop(s, step).Some?
    ensures KeptOutside(TakeDrop(s, step).value)
  {
    hide Holds, Host;
  }

  lemma ReplaceKeptOutside(s: State, step: Step)
    requires KeptOutside(s) && TakeReplace(s, step).Some?
    ensures KeptOutside(TakeReplace(s, step).value)
  {
    hide Holds, Host;
  }

  lemma LearnUnderOwner(s: State, step: Step)
    requires Inv(s) && LearnStep(step) && TakeLearn(s, step).Some?
    ensures var t := TakeLearn(s, step).value;
            t.owner == s.owner && (s.owner.Retaining? || s.owner.RetainGone? ==> t.learned == s.learned)
  {
    hide Contains, Host, Adjusted;
  }

  lemma InstallKeepsLearned(s: State, step: Step)
    requires TakeInstall(s, step).Some?
    ensures TakeInstall(s, step).value.learned == s.learned
  {
  }

  /** In every interleaving, when `replace` lets go of the learned addresses none is left that the new list
      covers: each would have been a second route to the same place. */
  lemma {:induction false} ReplacedOutside(list: set<Block>, steps: seq<Step>)
    requires After(list, steps).Some?
    ensures KeptOutside(After(list, steps).value)
    ensures var s := After(list, steps).value;
            TakeReplace(s, ReplaceUnlock).Some? ==>
              forall a <- s.learned :: !exists b :: b in s.owner.next && Holds(b, a)
  {
    hide Take, Inv, Holds, KeptOutside;
    if steps != [] {
      ReplacedOutside(list, steps[..|steps| - 1]);
      Safety(list, steps[..|steps| - 1]);
      KeptOutsideStep(After(list, steps[..|steps| - 1]).value, steps[|steps| - 1]);
    } else {
      NothingKept(list);
    }
    UnlockedOutside(After(list, steps).value);
  }

  lemma NothingKept(list: set<Block>)
    ensures KeptOutside(Initial(list))
  {
  }

  lemma UnlockedOutside(s: State)
    requires KeptOutside(s)
    ensures TakeReplace(s, ReplaceUnlock).Some? ==>
              forall a <- s.learned :: !exists b :: b in s.owner.next && Holds(b, a)
  {
  }

  // ----- an outdated installer -----

  /** The installer works for a generation that is over. */
  predicate Outdated(s: State) {
    Working(s.installer) ==> s.installer.generation < s.generation
  }

  ghost predicate Generations(s: State) {
    && (Working(s.installer) ==> s.installer.generation <= s.generation)
    && (s.owner.Joining? || s.owner.DropJoining? ==> Outdated(s))
  }

  lemma GenerationsStep(s: State, step: Step)
    requires Generations(s) && Take(s, step).Some?
    ensures Generations(Take(s, step).value)
  {
    hide Contains, Host, TakeInstall, TakeLearn;
    if LearnStep(step) {
      LearnKeepsInstaller(s, step);
    } else if InstallStep(step) {
      InstallKeepsGeneration(s, step);
    }
  }

  lemma LearnKeepsInstaller(s: State, step: Step)
    requires LearnStep(step) && TakeLearn(s, step).Some?
    ensures var t := TakeLearn(s, step).value;
            t.owner == s.owner && t.installer == s.installer && t.generation == s.generation
  {
    hide Contains, Host, Adjusted;
  }

  lemma InstallKeepsGeneration(s: State, step: Step)
    requires TakeInstall(s, step).Some?
    ensures var t := TakeInstall(s, step).value;
            && t.owner == s.owner && t.generation == s.generation && Working(s.installer)
            && (Working(t.installer) ==> t.installer.generation == s.installer.generation)
  {
    hide Adjusted;
  }

  lemma {:induction false} RunGenerations(list: set<Block>, steps: seq<Step>)
    requires After(list, steps).Some?
    ensures Generations(After(list, steps).value)
  {
    hide Take;
    if steps != [] {
      RunGenerations(list, steps[..|steps| - 1]);
      GenerationsStep(After(list, steps[..|steps| - 1]).value, steps[|steps| - 1]);
    }
  }

  /** The additions an outdated installer has still ahead. */
  function Ahead(i: Installer): nat {
    if i.Looking? || i.Missing? || i.Locked? then 1 else 0
  }

  function One(b: bool): nat {
    if b then 1 else 0
  }

  lemma OutdatedStep(s: State, step: Step)
    requires Outdated(s) && TakeInstall(s, step).Some?
    ensures Ahead(TakeInstall(s, step).value.installer) + One(step.InstallAdd?) <= Ahead(s.installer)
  {
    hide Adjusted;
  }

  /** How many of the steps from `n` on try to add a listed route. */
  function Additions(steps: seq<Step>, n: nat): nat
    requires n <= |steps|
    decreases |steps|
  {
    if n == |steps| then 0 else Additions(steps[..|steps| - 1], n) + One(steps[|steps| - 1].InstallAdd?)
  }

  /** Once `replace` or teardown has begun to wait for it, an installer for the older list tries to add at
      most one more route. */
  lemma {:induction false} OldInstallerStops(list: set<Block>, steps: seq<Step>, n: nat)
    requires n <= |steps| && After(list, steps).Some?
    requires forall m :: n <= m <= |steps| ==>
               After(list, steps[..m]).Some? &&
               (After(list, steps[..m]).value.owner.Joining? || After(list, steps[..m]).value.owner.DropJoining?)
    ensures Ahead(After(list, steps).value.installer) + Additions(steps, n) <= 1
    decreases |steps|
  {
    hide Take, Outdated, Generations;
    if n < |steps| {
      var k := |steps| - 1;
      var init := steps[..k];
      assert forall m :: n <= m <= k ==> init[..m] == steps[..m];
      assert steps[..|steps|] == steps;
      OldInstallerStops(list, init, n);
      RunGenerations(list, init);
      WaitingStep(After(list, init).value, steps[k]);
    }
  }

  lemma WaitingStep(s: State, step: Step)
    requires Generations(s) && (s.owner.Joining? || s.owner.DropJoining?) && Take(s, step).Some?
    requires var t := Take(s, step).value; t.owner.Joining? || t.owner.DropJoining?
    ensures Ahead(Take(s, step).value.installer) + One(step.InstallAdd?) <= Ahead(s.installer)
  {
    hide Contains, Host, TakeInstall, TakeLearn;
    if LearnStep(step) {
      LearnKeepsInstaller(s, step);
    } else if InstallStep(step) {
      OutdatedStep(s, step);
    }
  }
}
