/** What `install` achieves in every interleaving: the listed routes, but for those Windows refused. */
module Installation {
  import opened Cidr
  import opened DirectRoutes
  import opened RouteKeeping

  /** The routes that could not be added since the installer was last started. */
  ghost function FailedRoutes(list: set<Block>, steps: seq<Step>): set<Block> {
    if steps == [] then {}
    else
      var init, last := steps[..|steps| - 1], steps[|steps| - 1];
      var before := After(list, init);
      if before.None? then {} else FailedNow(before.value, last, FailedRoutes(list, init))
  }

  ghost function FailedNow(s: State, step: Step, failed: set<Block>): set<Block> {
    match step
    case RefreshSpawn(_) => {}
    case InstallAdd(outcome) =>
      if s.installer.Locked? && !outcome.Added? then failed + {s.installer.route} else failed
    case _ => failed
  }

  /** The list is the one the latest installer was started for. */
  predicate Current(o: Owner) {
    o.Running? || o.Replacing? || o.Retaining? || o.RetainGone? || o.Writing?
  }

  /** What is still to be looked at, what is installed and what failed make up the list. */
  predicate Divides(installed: set<Block>, list: set<Block>, todo: set<Block>, failed: set<Block>) {
    list == installed + todo + failed && failed !! installed && failed !! todo
  }

  /** How far the installer has come. */
  ghost predicate Progress(s: State, failed: set<Block>) {
    match s.installer
    case Absent => true
    case Begun(g) => g == s.generation && failed == {}
    case Read(g, w) => g == s.generation && w == s.list && failed == {}
    case Stale(g, w, todo) => g == s.generation && w == s.list && failed == {} && todo == s.installed - w
    case StaleGone(g, w, todo, p) =>
      g == s.generation && w == s.list && failed == {} && todo == s.installed - w && p in todo
    case Filling(g, todo) => g == s.generation && Divides(s.installed, s.list, todo, failed)
    case Looking(g, todo, p) => g == s.generation && Divides(s.installed, s.list, todo, failed) && p in todo
    case Missing(g, todo, p) => g == s.generation && Divides(s.installed, s.list, todo, failed) && p in todo
    case Locked(g, todo, p) => g == s.generation && Divides(s.installed, s.list, todo, failed) && p in todo
    case Placed(g, todo, p) => g == s.generation && Divides(s.installed, s.list, todo, failed) && p in todo
    case Finished => Divides(s.installed, s.list, {}, failed)
  }

  ghost predicate OnTrack(s: State, failed: set<Block>) {
    Current(s.owner) ==> Progress(s, failed)
  }

  lemma OnTrackKept(s: State, step: Step, failed: set<Block>)
    requires Inv(s) && OnTrack(s, failed) && Take(s, step).Some?
    ensures OnTrack(Take(s, step).value, FailedNow(s, step, failed))
  {
    hide Inv, TakeLearn, TakeInstall, TakeDrop, TakeReplace, OnTrack, FailedNow;
    if LearnStep(step) {
      LearnOnTrack(s, step, failed);
    } else if InstallStep(step) {
      assert Found(s) by { InvFound(s); }
      InstallOnTrack(s, step, failed);
    } else if DropStep(step) {
      DropOnTrack(s, step, failed);
    } else {
      ReplaceOnTrack(s, step, failed);
    }
  }

  lemma InvFound(s: State)
    requires Inv(s)
    ensures Found(s)
  {
  }

  lemma LearnOnTrack(s: State, step: Step, failed: set<Block>)
    requires OnTrack(s, failed) && LearnStep(step) && TakeLearn(s, step).Some?
    ensures OnTrack(TakeLearn(s, step).value, FailedNow(s, step, failed))
  {
    hide Contains, Host, Adjusted;
  }

  lemma InstallOnTrack(s: State, step: Step, failed: set<Block>)
    requires Found(s) && OnTrack(s, failed) && InstallStep(step) && TakeInstall(s, step).Some?
    ensures OnTrack(TakeInstall(s, step).value, FailedNow(s, step, failed))
  {
    hide Adjusted, Divides;
    if Current(s.owner) {
      match s.installer
      case Stale(g, w, todo) =>
        if todo == {} {
          NothingTried(s.installed, w);
        }
      case StaleGone(g, w, todo, p) => assert (s.installed - {p}) - w == todo - {p};
      case Looking(g, todo, p) => Tried(s.installed, s.list, todo, failed, p);
      case Locked(g, todo, p) => Tried(s.installed, s.list, todo, failed, p);
      case Placed(g, todo, p) => Tried(s.installed, s.list, todo, failed, p);
      case _ =>
    }
  }

  lemma NothingTried(installed: set<Block>, wanted: set<Block>)
    requires installed - wanted == {}
    ensures Divides(installed, wanted, wanted, {})
  {
    assert installed <= wanted;
  }

  /** A route that was to be looked at turns out installed, becomes installed, or fails. */
  lemma Tried(installed: set<Block>, list: set<Block>, todo: set<Block>, failed: set<Block>, p: Block)
    requires Divides(installed, list, todo, failed) && p in todo
    ensures p in installed ==> Divides(installed, list, todo - {p}, failed)
    ensures p !in installed ==> Divides(installed, list, todo - {p}, failed + {p})
    ensures Divides(installed + {p}, list, todo - {p}, failed)
  {
  }

  lemma DropOnTrack(s: State, step: Step, failed: set<Block>)
    requires DropStep(step) && TakeDrop(s, step).Some?
    ensures OnTrack(TakeDrop(s, step).value, FailedNow(s, step, failed))
  {
    hide Progress;
  }

  lemma ReplaceOnTrack(s: State, step: Step, failed: set<Block>)
    requires OnTrack(s, failed) && TakeReplace(s, step).Some?
    ensures OnTrack(TakeReplace(s, step).value, FailedNow(s, step, failed))
  {
    hide Contains, Host;
  }

  lemma {:induction false} RunOnTrack(list: set<Block>, steps: seq<Step>)
    requires After(list, steps).Some?
    ensures OnTrack(After(list, steps).value, FailedRoutes(list, steps))
  {
    hide Take, Inv, Progress, FailedNow;
    if steps != [] {
      var init := steps[..|steps| - 1];
      RunOnTrack(list, init);
      Safety(list, init);
      OnTrackKept(After(list, init).value, steps[|steps| - 1], FailedRoutes(list, init));
    }
  }

  /** Once the installer has finished, and until the next list takes effect, exactly the listed routes
      are installed that did not fail to be added since it was started. */
  lemma InstalledIs(list: set<Block>, steps: seq<Step>)
    requires After(list, steps).Some?
    ensures var s := After(list, steps).value;
            Current(s.owner) && s.installer.Finished? ==>
              s.installed <= s.list && s.list - s.installed == FailedRoutes(list, steps)
  {
    hide Take, After, FailedRoutes;
    RunOnTrack(list, steps);
  }

  /** And they all have their rows, when no step took one away from the other side. */
  lemma ListedAreRouted(list: set<Block>, steps: seq<Step>)
    requires After(list, steps).Some?
    requires forall n: nat :: n < |steps| ==> !Robs(StateAt(list, steps, n), steps[n])
    ensures var s := After(list, steps).value;
            Current(s.owner) && s.installer.Finished? ==> s.list - FailedRoutes(list, steps) <= s.os
  {
    hide Take, FailedRoutes, Robs;
    InstalledIs(list, steps);
    UnrobbedRouted(list, steps, |steps|);
    assert steps[..|steps|] == steps;
    var s := After(list, steps).value;
    if Current(s.owner) && s.installer.Finished? {
      forall p | p in s.list - FailedRoutes(list, steps) ensures p in s.os {
        assert KeptInstalled(s, p);
      }
    }
  }
}
