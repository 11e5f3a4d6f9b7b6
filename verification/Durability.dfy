/**
 What the ignored directory sync of internal/state/file_store.go costs: a crash can
 undo a completed save. Exactly when the runners of Schedule stay isolated, and what
 is left when they do not.
 */
module Durability {
  import opened Wrappers
  import opened State
  import opened Debounce
  import opened FileStore
  import opened Schedule

  function StartTimes(setup: Setup): set<int> {
    var stacks := LoadOf(setup.codec, setup.start).stacks;
    if stacks.None? then {} else set key | key in stacks.value :: stacks.value[key].evaluatedAt
  }

  function TimesOf(step: Step): set<int> {
    if step.Act? && step.action.Evaluate? then {step.action.cycle.evaluatedAt} else {}
  }

  /** The evaluation times of a run so far, and of the snapshots it started from. */
  function Times(setup: Setup, steps: seq<Step>): set<int> {
    if steps == [] then StartTimes(setup)
    else
      Times(setup, steps[..|steps| - 1]) + TimesOf(steps[|steps| - 1])
  }

  /** The clock never shows the same time in two evaluations. */
  predicate ClockMoves(setup: Setup, steps: seq<Step>) {
    steps == [] ||
    var init := steps[..|steps| - 1];
    ClockMoves(setup, init) && TimesOf(steps[|steps| - 1]) !! Times(setup, init)
  }

  predicate HasCycle(phase: Phase) {
    phase.Waiting? || phase.Locked? || phase.Loaded? || phase.Saving?
  }

  /** A snapshot, if any, was taken at one of these times. */
  predicate TakenAt(snapshot: Option<StackSnapshot>, times: set<int>) {
    snapshot.Some? ==> snapshot.value.evaluatedAt in times
  }

  /** Whatever the directory may show of a runner's key is older than the runner's evaluation under way. */
  ghost predicate Older(setup: Setup, times: set<int>, disk: Disk, r: Runner) {
    && (HasCycle(r.phase) ==> r.phase.cycle.evaluatedAt in times)
    && forall e | e in disk.revertible ::
         && TakenAt(StoredOf(setup, e, r.key), times)
         && (HasCycle(r.phase) ==> TakenAt(StoredOf(setup, e, r.key), times - {r.phase.cycle.evaluatedAt}))
  }

  ghost predicate TimesInv(setup: Setup, times: set<int>, s: System) {
    forall i | 0 <= i < |s.runners| :: Older(setup, times, s.disk, s.runners[i])
  }

  lemma StartIsTimed(setup: Setup, key: string)
    ensures TakenAt(StartOf(setup, key), StartTimes(setup))
  {
  }

  /** One more file, in which one runner's key has the time of its evaluation and the others are as before. */
  lemma SavedFileIsTimed(setup: Setup, keys: seq<string>, times: set<int>, s: System, r: nat, disk: Disk, i: nat,
                         after: Runner)
    requires GoodSetup(setup) && DistinctKeys(keys) && Inv(setup, keys, s) && TimesInv(setup, times, s)
    requires r < |s.runners| && s.runners[r].phase.Saving? && i < |s.runners|
    requires disk.revertible <= s.disk.revertible + {Some(Saved(setup.codec, s.runners[r].phase.next))}
    requires after.key == s.runners[i].key && (HasCycle(after.phase) ==> i != r && after.phase == s.runners[i].phase)
    ensures Older(setup, times, disk, after)
  {
    assert keys[r] == s.runners[r].key && keys[i] == s.runners[i].key;
    assert Older(setup, times, s.disk, s.runners[r]) && Older(setup, times, s.disk, s.runners[i]);
    SavedFileOf(setup, s, r, after.key);
  }

  lemma MoveKeepsOlder(setup: Setup, times: set<int>, s: System, r: nat, action: Action)
    requires Enabled(setup, s, Act(r, action)) && !action.Save?
    requires Older(setup, times, s.disk, s.runners[r])
    requires action.Evaluate? ==> action.cycle.evaluatedAt !in times
    ensures Older(setup, times + TimesOf(Act(r, action)), s.disk, Moved(setup, s, s.runners[r], action))
  {
  }

  lemma OlderStays(setup: Setup, times: set<int>, more: set<int>, disk: Disk, r: Runner)
    requires Older(setup, times, disk, r)
    ensures Older(setup, times + more, disk, r)
  {
  }

  lemma SaveKeepsTimes(setup: Setup, keys: seq<string>, times: set<int>, s: System, r: nat, dirSynced: bool)
    requires GoodSetup(setup) && DistinctKeys(keys) && Inv(setup, keys, s) && TimesInv(setup, times, s)
    requires Enabled(setup, s, Act(r, Save(dirSynced)))
    ensures TimesInv(setup, times, Next(setup, s, Act(r, Save(dirSynced))))
  {
    var s' := Next(setup, s, Act(r, Save(dirSynced)));
    forall i | 0 <= i < |s.runners| ensures Older(setup, times, s'.disk, s'.runners[i]) {
      SavedFileIsTimed(setup, keys, times, s, r, s'.disk, i, s'.runners[i]);
    }
  }

  lemma MoveKeepsTimes(setup: Setup, times: set<int>, s: System, r: nat, action: Action)
    requires TimesInv(setup, times, s) && Enabled(setup, s, Act(r, action)) && !action.Save?
    requires action.Evaluate? ==> action.cycle.evaluatedAt !in times
    ensures TimesInv(setup, times + TimesOf(Act(r, action)), Next(setup, s, Act(r, action)))
  {
    var s' := Next(setup, s, Act(r, action));
    MoveKeepsOlder(setup, times, s, r, action);
    forall i | 0 <= i < |s.runners| ensures Older(setup, times + TimesOf(Act(r, action)), s'.disk, s'.runners[i]) {
      OlderStays(setup, times, TimesOf(Act(r, action)), s.disk, s.runners[i]);
    }
  }

  /** A stopped runner needs no more of a file than that it is one of these. */
  lemma RestIsOlder(setup: Setup, times: set<int>, r: Runner, disk: Disk, found: Option<File>)
    requires r.phase == Idle && Older(setup, times, disk, r) && found in disk.revertible
    ensures Older(setup, times, Disk(found, None, {found}), r)
  {
  }

  /** The disk as it would be had the save under way just renamed its file. */
  lemma NewFileIsTimed(setup: Setup, keys: seq<string>, times: set<int>, s: System, r: nat, i: nat, after: Runner)
    requires GoodSetup(setup) && DistinctKeys(keys) && Inv(setup, keys, s) && TimesInv(setup, times, s)
    requires r < |s.runners| && s.runners[r].phase.Saving? && i < |s.runners|
    requires after.key == s.runners[i].key && after.phase == Idle
    ensures Older(setup, times, Installed(s.disk, Saved(setup.codec, s.runners[r].phase.next), false), after)
  {
    SavedFileIsTimed(setup, keys, times, s, r, Installed(s.disk, Saved(setup.codec, s.runners[r].phase.next), false), i,
                     after);
  }

  lemma CrashKeepsOlder(setup: Setup, keys: seq<string>, times: set<int>, s: System, found: Option<File>, i: nat)
    requires GoodSetup(setup) && DistinctKeys(keys) && Inv(setup, keys, s) && TimesInv(setup, times, s)
    requires Enabled(setup, s, Crash(found)) && i < |s.runners|
    ensures Older(setup, times, Disk(found, None, {found}), Crashed(setup, s.runners[i], found))
  {
    var after := Crashed(setup, s.runners[i], found);
    if found in BeingSaved(setup, s) {
      var r := s.owner.value;
      NewFileIsTimed(setup, keys, times, s, r, i, after);
      RestIsOlder(setup, times, after, Installed(s.disk, Saved(setup.codec, s.runners[r].phase.next), false), found);
    } else {
      SettledIsTimed(setup, times, s.disk, s.runners[i], found, after);
    }
  }

  lemma SettledIsTimed(setup: Setup, times: set<int>, disk: Disk, r: Runner, found: Option<File>, after: Runner)
    requires Older(setup, times, disk, r) && found in disk.revertible
    requires after.key == r.key && after.phase == Idle
    ensures Older(setup, times, Disk(found, None, {found}), after)
  {
  }

  lemma CrashKeepsTimes(setup: Setup, keys: seq<string>, times: set<int>, s: System, found: Option<File>)
    requires GoodSetup(setup) && DistinctKeys(keys) && Inv(setup, keys, s) && TimesInv(setup, times, s)
    requires Enabled(setup, s, Crash(found))
    ensures TimesInv(setup, times, Next(setup, s, Crash(found)))
  {
    var s' := Next(setup, s, Crash(found));
    forall i | 0 <= i < |s.runners| ensures Older(setup, times, s'.disk, s'.runners[i]) {
      CrashKeepsOlder(setup, keys, times, s, found, i);
    }
  }

  lemma StepKeepsTimes(setup: Setup, keys: seq<string>, times: set<int>, s: System, step: Step)
    requires GoodSetup(setup) && DistinctKeys(keys) && Inv(setup, keys, s) && TimesInv(setup, times, s)
    requires Enabled(setup, s, step) && TimesOf(step) !! times
    ensures TimesInv(setup, times + TimesOf(step), Next(setup, s, step))
  {
    assert times + {} == times;
    match step
    case Kill(renamed) => KillKeepsTimes(setup, keys, times, s, renamed);
    case Crash(found) => CrashKeepsTimes(setup, keys, times, s, found);
    case Act(r, action) =>
      if action.Save? {
        SaveKeepsTimes(setup, keys, times, s, r, action.dirSynced);
      } else {
        assert action.Evaluate? ==> action.cycle.evaluatedAt in TimesOf(step);
        MoveKeepsTimes(setup, times, s, r, action);
      }
  }

  lemma InitialTimes(setup: Setup, s: System)
    requires Initial(setup, s)
    ensures TimesInv(setup, StartTimes(setup), s)
  {
    forall i | 0 <= i < |s.runners| ensures Older(setup, StartTimes(setup), s.disk, s.runners[i]) {
      assert s.runners[i] in s.runners;
      StartIsTimed(setup, s.runners[i].key);
    }
  }

  lemma KillKeepsTimes(setup: Setup, keys: seq<string>, times: set<int>, s: System, renamed: bool)
    requires GoodSetup(setup) && DistinctKeys(keys) && Inv(setup, keys, s) && TimesInv(setup, times, s)
    requires Enabled(setup, s, Kill(renamed))
    ensures TimesInv(setup, times, Next(setup, s, Kill(renamed)))
  {
    var s' := Next(setup, s, Kill(renamed));
    forall i | 0 <= i < |s.runners| ensures Older(setup, times, s'.disk, s'.runners[i]) {
      assert Older(setup, times, s.disk, s.runners[i]);
      if renamed {
        SavedFileIsTimed(setup, keys, times, s, s.owner.value, s'.disk, i, s'.runners[i]);
      }
    }
  }

  lemma {:induction false} ReachedTimes(setup: Setup, keys: seq<string>, steps: seq<Step>, s: System)
    requires GoodSetup(setup) && DistinctKeys(keys)
    requires Reached(setup, keys, steps, s) && ClockMoves(setup, steps)
    ensures TimesInv(setup, Times(setup, steps), s)
    decreases |steps|
  {
    if steps == [] {
      InitialTimes(setup, s);
    } else {
      var init := steps[..|steps| - 1];
      var before := Predecessor(setup, keys, steps, s);
      ReachedInv(setup, keys, init, before);
      ReachedTimes(setup, keys, init, before);
      StepKeepsTimes(setup, keys, Times(setup, init), before, steps[|steps| - 1]);
    }
  }

  /** The directory may still show a file in which some runner's snapshot is another one. */
  ghost predicate CanRevert(setup: Setup, s: System, e: Option<File>, i: nat) {
    && i < |s.runners| && e in s.disk.revertible
    && StoredOf(setup, e, s.runners[i].key) != StoredOf(setup, s.disk.current, s.runners[i].key)
  }

  lemma UnsyncedSaveCanRevert(setup: Setup, keys: seq<string>, times: set<int>, s: System, r: nat, s': System)
    requires GoodSetup(setup) && Inv(setup, keys, s) && TimesInv(setup, times, s)
    requires r < |s.runners| == |s'.runners| && s.runners[r].phase.Saving? && s'.runners[r].key == s.runners[r].key
    requires s'.disk == Installed(s.disk, Saved(setup.codec, s.runners[r].phase.next), false)
    ensures CanRevert(setup, s', s.disk.current, r)
  {
    assert Older(setup, times, s.disk, s.runners[r]);
    SavedFileOf(setup, s, r, s.runners[r].key);
  }

  /** A rename whose directory is not synced. */
  predicate UnsyncedRename(step: Step) {
    (step.Kill? && step.renamed) || (step.Act? && step.action.Save? && !step.action.dirSynced)
  }

  lemma UnsyncedRenameCanRevert(setup: Setup, keys: seq<string>, times: set<int>, s: System, step: Step)
    returns (i: nat)
    requires GoodSetup(setup) && Inv(setup, keys, s) && TimesInv(setup, times, s)
    requires Enabled(setup, s, step) && UnsyncedRename(step)
    ensures CanRevert(setup, Next(setup, s, step), s.disk.current, i)
  {
    i := if step.Act? then step.runner else s.owner.value;
    UnsyncedSaveCanRevert(setup, keys, times, s, i, Next(setup, s, step));
  }

  /** Any other step that leaves the disk unsynced leaves it, and the keys, as they are. */
  lemma StillCanRevert(setup: Setup, s: System, step: Step, e: Option<File>, i: nat)
    requires Enabled(setup, s, step) && CanRevert(setup, s, e, i)
    requires !UnsyncedRename(step) && !step.Crash? && (step.Act? ==> !step.action.Save?)
    ensures CanRevert(setup, Next(setup, s, step), e, i)
  {
  }

  lemma {:induction false} UnsyncedDisk(setup: Setup, keys: seq<string>, steps: seq<Step>, s: System)
    returns (e: Option<File>, i: nat)
    requires GoodSetup(setup) && DistinctKeys(keys)
    requires Reached(setup, keys, steps, s) && ClockMoves(setup, steps) && Unsynced(steps)
    ensures CanRevert(setup, s, e, i)
    decreases |steps|
  {
    var init, last := steps[..|steps| - 1], steps[|steps| - 1];
    var before := Predecessor(setup, keys, steps, s);
    if UnsyncedRename(last) {
      ReachedInv(setup, keys, init, before);
      ReachedTimes(setup, keys, init, before);
      e := before.disk.current;
      i := UnsyncedRenameCanRevert(setup, keys, Times(setup, init), before, last);
    } else {
      e, i := UnsyncedDisk(setup, keys, init, before);
      StillCanRevert(setup, before, last, e, i);
    }
  }

  /** An entry the directory may still show is not the file now being saved. */
  lemma OldEntryIsNotBeingSaved(setup: Setup, keys: seq<string>, times: set<int>, s: System, e: Option<File>)
    requires GoodSetup(setup) && Inv(setup, keys, s) && TimesInv(setup, times, s) && e in s.disk.revertible
    ensures e !in BeingSaved(setup, s)
  {
    if e in BeingSaved(setup, s) {
      var r := s.owner.value;
      assert Older(setup, times, s.disk, s.runners[r]);
      SavedFileOf(setup, s, r, s.runners[r].key);
    }
  }

  /** A crash while a save is unsynced can lose an update. */
  lemma UnsyncedCrashShows(setup: Setup, keys: seq<string>, steps: seq<Step>, s: System) returns (found: Option<File>)
    requires GoodSetup(setup) && DistinctKeys(keys)
    requires Reached(setup, keys, steps, s) && ClockMoves(setup, steps) && Unsynced(steps)
    requires Isolated(setup, keys, s)
    ensures Enabled(setup, s, Crash(found)) && !Isolated(setup, keys, Next(setup, s, Crash(found)))
  {
    var i;
    found, i := UnsyncedDisk(setup, keys, steps, s);
    ReachedInv(setup, keys, steps, s);
    ReachedTimes(setup, keys, steps, s);
    OldEntryIsNotBeingSaved(setup, keys, Times(setup, steps), s, found);
    CrashedRecord(setup, s, found, i);
    assert AsIfAlone(setup, s.disk.current, s.runners[i]);
    var s' := Next(setup, s, Crash(found));
    assert !AsIfAlone(setup, found, s'.runners[i]);
  }

  /** The same steps, up to what the crashes find. */
  predicate SameButFound(a: seq<Step>, b: seq<Step>) {
    |a| == |b| && forall i | 0 <= i < |a| :: a[i] == b[i] || (a[i].Crash? && b[i].Crash?)
  }

  lemma {:induction false} SyncedAsWell(a: seq<Step>, b: seq<Step>, k: nat)
    requires k <= |b| && SameButFound(a, b[..k])
    ensures Unsynced(a) == Unsynced(b[..k])
    ensures CrashesSynced(b[..k]) ==> CrashesSynced(a)
    decreases k
  {
    if k > 0 {
      assert b[..k][..k - 1] == b[..k - 1];
      SyncedAsWell(a[..k - 1], b, k - 1);
    }
  }

  lemma {:induction false} PrefixSynced(steps: seq<Step>, k: nat)
    requires k <= |steps| && CrashesSynced(steps)
    ensures CrashesSynced(steps[..k])
    decreases |steps|
  {
    if k < |steps| {
      PrefixSynced(steps[..|steps| - 1], k);
      assert steps[..|steps| - 1][..k] == steps[..k];
    } else {
      assert steps[..k] == steps;
    }
  }

  /** A run that breaks isolation, made from one in which a crash hits unsynced. */
  lemma {:induction false} BreakIsolation(setup: Setup, keys: seq<string>, steps: seq<Step>, s: System)
    returns (k: nat, steps': seq<Step>, s': System)
    requires GoodSetup(setup) && DistinctKeys(keys)
    requires Reached(setup, keys, steps, s) && ClockMoves(setup, steps) && !CrashesSynced(steps)
    ensures k <= |steps| && SameButFound(steps', steps[..k])
    ensures Reached(setup, keys, steps', s') && !Isolated(setup, keys, s')
    decreases |steps|
  {
    var init := steps[..|steps| - 1];
    var before := Predecessor(setup, keys, steps, s);
    if CrashesSynced(init) {
      steps', s' := BreakAtLastStep(setup, keys, init, before);
      k := |steps|;
      SameUpToLast(steps, steps');
    } else {
      k, steps', s' := BreakIsolation(setup, keys, init, before);
      assert init[..k] == steps[..k];
    }
  }

  lemma SameUpToLast(a: seq<Step>, b: seq<Step>)
    requires |a| == |b| > 0 && a[..|a| - 1] == b[..|a| - 1] && a[|a| - 1].Crash? && b[|a| - 1].Crash?
    ensures SameButFound(b, a[..|a|])
  {
    assert forall i | 0 <= i < |a| - 1 :: a[i] == a[..|a| - 1][i] && b[i] == b[..|a| - 1][i];
  }

  lemma BreakAtLastStep(setup: Setup, keys: seq<string>, init: seq<Step>, before: System)
    returns (steps: seq<Step>, s: System)
    requires GoodSetup(setup) && DistinctKeys(keys)
    requires Reached(setup, keys, init, before) && ClockMoves(setup, init) && CrashesSynced(init) && Unsynced(init)
    ensures |steps| == |init| + 1 && steps[..|init|] == init && steps[|init|].Crash?
    ensures Reached(setup, keys, steps, s) && !Isolated(setup, keys, s)
  {
    SyncedRunIsIsolated(setup, keys, init, before);
    var found := UnsyncedCrashShows(setup, keys, init, before);
    steps, s := init + [Crash(found)], Next(setup, before, Crash(found));
    OneMoreStep(setup, keys, init, before, Crash(found));
  }

  /**
   Isolation, exactly: under any interleaving, with failing loads and saves and
   kills and crashes anywhere, no update is lost at any point of the run, whatever its crashes
   find, iff the machine does not crash while a completed save is unsynced.
   The source ignores failed directory syncs, so it does not exclude that. (One direction supposes a
   clock that moves; a snapshot taken twice at one time can hide its loss.)
   */
  lemma IsolatedIffCrashesSynced(setup: Setup, keys: seq<string>, steps: seq<Step>, s: System)
    requires GoodSetup(setup) && DistinctKeys(keys)
    requires Reached(setup, keys, steps, s) && ClockMoves(setup, steps)
    ensures CrashesSynced(steps) <==>
              forall k: nat, steps', s' | k <= |steps| && SameButFound(steps', steps[..k])
                  && Reached(setup, keys, steps', s') ::
                Isolated(setup, keys, s')
  {
    if CrashesSynced(steps) {
      forall k: nat, steps', s' | k <= |steps| && SameButFound(steps', steps[..k]) && Reached(setup, keys, steps', s')
        ensures Isolated(setup, keys, s')
      {
        PrefixSynced(steps, k);
        SyncedAsWell(steps', steps, k);
        SyncedRunIsIsolated(setup, keys, steps', s');
      }
    } else {
      var k, steps', s' := BreakIsolation(setup, keys, steps, s);
    }
  }

  // ----- What is left in every run -----

  /** What a runner alone would have stored after some of these cycles, in order. */
  ghost predicate FromSome(start: Option<StackSnapshot>, cycles: seq<Cycle>, n: int, stored: Option<StackSnapshot>) {
    if cycles == [] then stored == start
    else
      var init := cycles[..|cycles| - 1];
      || FromSome(start, init, n, stored)
      || exists prev :: FromSome(start, init, n, prev) && stored == Some(Snapshot(prev, cycles[|cycles| - 1], n))
  }

  lemma FromSomeGrows(start: Option<StackSnapshot>, cycles: seq<Cycle>, cycle: Cycle, n: int,
                      stored: Option<StackSnapshot>)
    requires FromSome(start, cycles, n, stored)
    ensures FromSome(start, cycles + [cycle], n, stored)
    ensures FromSome(start, cycles + [cycle], n, Some(Snapshot(stored, cycle, n)))
  {
    assert (cycles + [cycle])[..|cycles|] == cycles;
  }

  ghost predicate OwnFile(setup: Setup, keys: seq<string>, runners: seq<Runner>, e: Option<File>) {
    && (forall i | 0 <= i < |runners| ::
          FromSome(StartOf(setup, runners[i].key), runners[i].committed, setup.n, StoredOf(setup, e, runners[i].key)))
    && (forall key | key !in keys :: StoredOf(setup, e, key) == StartOf(setup, key))
  }

  ghost predicate OwnInv(setup: Setup, keys: seq<string>, s: System) {
    forall e | e in s.disk.revertible :: OwnFile(setup, keys, s.runners, e)
  }

  /** Records only grow, which keeps every file a runner's own. */
  lemma OwnFileStays(setup: Setup, keys: seq<string>, runners: seq<Runner>, runners': seq<Runner>, e: Option<File>)
    requires OwnFile(setup, keys, runners, e) && |runners'| == |runners|
    requires forall i | 0 <= i < |runners| ::
               && runners'[i].key == runners[i].key
               && (runners'[i].committed == runners[i].committed
                   || (runners[i].phase.Saving?
                       && runners'[i].committed == runners[i].committed + [runners[i].phase.cycle]))
    ensures OwnFile(setup, keys, runners', e)
  {
    forall i | 0 <= i < |runners|
      ensures FromSome(StartOf(setup, runners'[i].key), runners'[i].committed, setup.n,
                       StoredOf(setup, e, runners'[i].key))
    {
      var r := runners[i];
      assert FromSome(StartOf(setup, r.key), r.committed, setup.n, StoredOf(setup, e, r.key));
      if runners'[i].committed != r.committed {
        FromSomeGrows(StartOf(setup, r.key), r.committed, r.phase.cycle, setup.n, StoredOf(setup, e, r.key));
      }
    }
  }

  /** The file being saved is the current one with one more cycle of the saving runner. */
  lemma SavedFileIsOwn(setup: Setup, keys: seq<string>, s: System, r: nat, runners': seq<Runner>)
    requires GoodSetup(setup) && DistinctKeys(keys) && Inv(setup, keys, s) && OwnInv(setup, keys, s)
    requires r < |s.runners| == |runners'| && s.runners[r].phase.Saving?
    requires SameRecord(runners'[r], Commit(s.runners[r]))
    requires forall i | 0 <= i < |s.runners| && i != r :: SameRecord(runners'[i], s.runners[i])
    ensures OwnFile(setup, keys, runners', Some(Saved(setup.codec, s.runners[r].phase.next)))
  {
    var file := Some(Saved(setup.codec, s.runners[r].phase.next));
    assert OwnFile(setup, keys, s.runners, s.disk.current);
    assert keys[r] == s.runners[r].key;
    forall i | 0 <= i < |s.runners|
      ensures FromSome(StartOf(setup, runners'[i].key), runners'[i].committed, setup.n,
                       StoredOf(setup, file, runners'[i].key))
    {
      var before := s.runners[i];
      assert keys[i] == before.key;
      SavedFileOf(setup, s, r, before.key);
      if i == r {
        FromSomeGrows(StartOf(setup, before.key), before.committed, before.phase.cycle, setup.n,
                      StoredOf(setup, s.disk.current, before.key));
      } else {
        assert SameRecord(runners'[i], before);
      }
    }
    forall key | key !in keys ensures StoredOf(setup, file, key) == StartOf(setup, key) {
      SavedFileOf(setup, s, r, key);
    }
  }

  lemma OwnFilesStay(setup: Setup, keys: seq<string>, s: System, runners': seq<Runner>)
    requires OwnInv(setup, keys, s) && |runners'| == |s.runners|
    requires forall i | 0 <= i < |s.runners| ::
               SameRecord(runners'[i], s.runners[i])
                   || (s.runners[i].phase.Saving? && SameRecord(runners'[i], Commit(s.runners[i])))
    ensures forall e | e in s.disk.revertible :: OwnFile(setup, keys, runners', e)
  {
    forall e | e in s.disk.revertible ensures OwnFile(setup, keys, runners', e) {
      OwnFileStays(setup, keys, s.runners, runners', e);
    }
  }

  /** The directory may show the file just renamed, and what it might show before. */
  lemma InstalledIsOwn(setup: Setup, keys: seq<string>, runners: seq<Runner>, disk: Disk, file: File, dirSynced: bool)
    requires OwnFile(setup, keys, runners, Some(file))
    requires forall e | e in disk.revertible :: OwnFile(setup, keys, runners, e)
    ensures forall e | e in Installed(disk, file, dirSynced).revertible :: OwnFile(setup, keys, runners, e)
  {
  }

  lemma SaveKeepsOwn(setup: Setup, keys: seq<string>, s: System, r: nat, dirSynced: bool)
    requires GoodSetup(setup) && DistinctKeys(keys) && Inv(setup, keys, s) && OwnInv(setup, keys, s)
    requires Enabled(setup, s, Act(r, Save(dirSynced)))
    ensures OwnInv(setup, keys, Next(setup, s, Act(r, Save(dirSynced))))
  {
    var s' := Next(setup, s, Act(r, Save(dirSynced)));
    SavedFileIsOwn(setup, keys, s, r, s'.runners);
    OwnFilesStay(setup, keys, s, s'.runners);
    InstalledIsOwn(setup, keys, s'.runners, s.disk, Saved(setup.codec, s.runners[r].phase.next), dirSynced);
  }

  lemma MoveKeepsOwn(setup: Setup, keys: seq<string>, s: System, r: nat, action: Action)
    requires OwnInv(setup, keys, s) && Enabled(setup, s, Act(r, action)) && !action.Save?
    ensures OwnInv(setup, keys, Next(setup, s, Act(r, action)))
  {
    OwnFilesStay(setup, keys, s, Next(setup, s, Act(r, action)).runners);
  }

  lemma CrashKeepsOwn(setup: Setup, keys: seq<string>, s: System, found: Option<File>)
    requires GoodSetup(setup) && DistinctKeys(keys) && Inv(setup, keys, s) && OwnInv(setup, keys, s)
    requires Enabled(setup, s, Crash(found))
    ensures OwnInv(setup, keys, Next(setup, s, Crash(found)))
  {
    var s' := Next(setup, s, Crash(found));
    CrashedRecords(setup, s, found);
    if found in BeingSaved(setup, s) {
      SavedFileIsOwn(setup, keys, s, s.owner.value, s'.runners);
    } else {
      OwnFileStays(setup, keys, s.runners, s'.runners, found);
    }
  }

  lemma KillKeepsOwn(setup: Setup, keys: seq<string>, s: System, renamed: bool)
    requires GoodSetup(setup) && DistinctKeys(keys) && Inv(setup, keys, s) && OwnInv(setup, keys, s)
    requires Enabled(setup, s, Kill(renamed))
    ensures OwnInv(setup, keys, Next(setup, s, Kill(renamed)))
  {
    var s' := Next(setup, s, Kill(renamed));
    if renamed {
      KilledRecords(setup, s);
      SavedFileIsOwn(setup, keys, s, s.owner.value, s'.runners);
    }
    OwnFilesStay(setup, keys, s, s'.runners);
  }

  lemma InitialOwn(setup: Setup, s: System)
    requires Initial(setup, s)
    ensures OwnInv(setup, Keys(s), s)
  {
    assert forall i | 0 <= i < |s.runners| :: s.runners[i] in s.runners;
  }

  lemma {:induction false} ReachedOwn(setup: Setup, keys: seq<string>, steps: seq<Step>, s: System)
    requires GoodSetup(setup) && DistinctKeys(keys) && Reached(setup, keys, steps, s)
    ensures OwnInv(setup, keys, s)
    decreases |steps|
  {
    if steps == [] {
      InitialOwn(setup, s);
    } else {
      var before := Predecessor(setup, keys, steps, s);
      ReachedInv(setup, keys, steps[..|steps| - 1], before);
      ReachedOwn(setup, keys, steps[..|steps| - 1], before);
      match steps[|steps| - 1]
      case Kill(renamed) => KillKeepsOwn(setup, keys, before, renamed);
      case Crash(found) => CrashKeepsOwn(setup, keys, before, found);
      case Act(r, action) =>
        if action.Save? {
          SaveKeepsOwn(setup, keys, before, r, action.dirSynced);
        } else {
          MoveKeepsOwn(setup, keys, before, r, action);
        }
    }
  }

  /**
   What is left without synced directories, in every run whatever its crashes find:
   each file that the directory may show still holds, for every stack, what its runner
   would have stored alone after some of its saved cycles, in order. A crash can take
   cycles back; it never mixes stacks or leaves a half-done change.
   */
  lemma EveryFileIsOwn(setup: Setup, keys: seq<string>, steps: seq<Step>, s: System, e: Option<File>)
    requires GoodSetup(setup) && DistinctKeys(keys) && Reached(setup, keys, steps, s)
    requires e == s.disk.current || e in s.disk.revertible
    ensures |s.runners| == |keys|
    ensures forall i | 0 <= i < |keys| ::
              FromSome(StartOf(setup, keys[i]), s.runners[i].committed, setup.n, StoredOf(setup, e, keys[i]))
    ensures forall key | key !in keys :: StoredOf(setup, e, key) == StartOf(setup, key)
  {
    ReachedInv(setup, keys, steps, s);
    ReachedOwn(setup, keys, steps, s);
    assert forall i | 0 <= i < |keys| :: keys[i] == s.runners[i].key;
  }

  /** A batch that a runner alone would have sent in a cycle, had it saved some of the cycles before. */
  ghost predicate OwnBatch(start: Option<StackSnapshot>, before: seq<Cycle>, n: int, cycle: Cycle, batch: Alerts) {
    exists prev :: FromSome(start, before, n, prev) && batch == Batch(prev, cycle.services, n)
  }

  ghost predicate OwnBatchAt(setup: Setup, r: Runner, k: nat)
    requires k < |r.batches| == |r.committed|
  {
    OwnBatch(StartOf(setup, r.key), r.committed[..k], setup.n, r.committed[k], r.batches[k])
  }

  lemma EarlierBatchStays(setup: Setup, r: Runner, r': Runner, k: nat)
    requires k < |r.batches| == |r.committed| && |r'.batches| == |r'.committed| && OwnBatchAt(setup, r, k)
    requires r'.key == r.key && r.committed <= r'.committed && r.batches <= r'.batches
    ensures OwnBatchAt(setup, r', k)
  {
    assert r'.committed[..k] == r.committed[..k] && r'.committed[k] == r.committed[k] && r'.batches[k] == r.batches[k];
  }

  lemma LastBatchIsOwn(setup: Setup, file: Option<File>, r: Runner)
    requires |r.batches| == |r.committed| && r.phase.Saving? && PhaseInv(setup, file, r)
    requires FromSome(StartOf(setup, r.key), r.committed, setup.n, StoredOf(setup, file, r.key))
    ensures OwnBatchAt(setup, Commit(r), |r.batches|)
  {
    var r' := Commit(r);
    assert r'.committed[..|r.batches|] == r.committed;
    assert OwnBatch(StartOf(setup, r.key), r.committed, setup.n, r.phase.cycle, r.phase.batch);
  }

  /** In any step a record stays, or commits the save that its runner was doing. */
  lemma RecordStep(setup: Setup, s: System, step: Step, i: nat)
    requires Enabled(setup, s, step) && i < |s.runners|
    ensures var r, r' := s.runners[i], Next(setup, s, step).runners[i];
      SameRecord(r', r) || (r.phase.Saving? && SameRecord(r', Commit(r)))
  {
  }

  /**
   The same of the alerts, in every run whatever its crashes find: the batch that went
   with a saved cycle is the one a runner alone would have sent there, had it saved some
   of the cycles before, in order. So an undone save can repeat or withhold alerts, but
   never mixes in those of another stack.
   */
  lemma {:induction false} EveryBatchIsOwn(setup: Setup, keys: seq<string>, steps: seq<Step>, s: System, i: nat, k: nat)
    requires GoodSetup(setup) && DistinctKeys(keys) && Reached(setup, keys, steps, s)
    requires i < |s.runners| && k < |s.runners[i].batches|
    ensures |s.runners[i].committed| == |s.runners[i].batches| && OwnBatchAt(setup, s.runners[i], k)
    decreases |steps|
  {
    ReachedInv(setup, keys, steps, s);
    NoBatchesAtStart(setup, keys, steps, s, i);
    if steps != [] {
      var init := steps[..|steps| - 1];
      var before := Predecessor(setup, keys, steps, s);
      ReachedInv(setup, keys, init, before);
      RecordStep(setup, before, steps[|steps| - 1], i);
      if k < |before.runners[i].batches| {
        EveryBatchIsOwn(setup, keys, init, before, i, k);
        EarlierBatchStays(setup, before.runners[i], s.runners[i], k);
      } else {
        ReachedOwn(setup, keys, init, before);
        NewBatchIsOwn(setup, keys, before, i, s.runners[i]);
      }
    }
  }

  lemma NoBatchesAtStart(setup: Setup, keys: seq<string>, steps: seq<Step>, s: System, i: nat)
    requires Reached(setup, keys, steps, s) && i < |s.runners|
    ensures steps == [] ==> s.runners[i].batches == []
  {
    assert s.runners[i] in s.runners;
  }

  lemma NewBatchIsOwn(setup: Setup, keys: seq<string>, s: System, i: nat, r': Runner)
    requires Inv(setup, keys, s) && OwnInv(setup, keys, s) && i < |s.runners|
    requires s.runners[i].phase.Saving? && SameRecord(r', Commit(s.runners[i]))
    ensures |r'.committed| == |r'.batches| == |s.runners[i].batches| + 1
    ensures OwnBatchAt(setup, r', |s.runners[i].batches|)
  {
    var r := s.runners[i];
    assert OwnFile(setup, keys, s.runners, s.disk.current) && PhaseInv(setup, s.disk.current, r) && LogInv(r);
    LastBatchIsOwn(setup, s.disk.current, r);
  }
}
