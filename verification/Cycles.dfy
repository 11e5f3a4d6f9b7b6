/**
 Particular runs of Schedule: a cycle that nobody interrupts, two runners that share
 a key, and an alert that a crash makes the runner send twice.
 */
module Cycles {
  import opened Wrappers
  import opened Names
  import opened Config
  import opened Health
  import opened State
  import opened Debounce
  import opened FileStore
  import opened Persistence
  import opened Schedule

  /** The runners that a valid mapping file yields have distinct keys. */
  lemma MappedKeysAreDistinct(mappings: seq<StackMapping>)
    requires DistinctNames(mappings) && forall i | 0 <= i < |mappings| :: mappings[i].name != ""
    ensures DistinctKeys(MappedKeys(mappings))
  {
  }

  function MappedKeys(mappings: seq<StackMapping>): seq<string> {
    seq(|mappings|, i requires 0 <= i < |mappings| => StackKey(mappings[i].name))
  }

  /** The steps of a runner whose load and save succeed and that nobody interrupts. */
  function CycleSteps(r: nat, cycle: Cycle, dirSynced: bool): seq<Step> {
    [Act(r, Evaluate(cycle))] + [Act(r, Lock)] + [Act(r, Load)]
    + [Act(r, Compute)] + [Act(r, Save(dirSynced))] + [Act(r, Unlock)]
  }

  /** `s` with one runner, the lock and the disk replaced. */
  function Replaced(s: System, r: nat, runner: Runner, owner: Option<nat>, disk: Disk): System
    requires r < |s.runners|
  {
    System(s.runners[r := runner], owner, disk)
  }

  lemma ReachNext(setup: Setup, keys: seq<string>, steps: seq<Step>, s: System, r: nat, action: Action, s': System)
    requires Reached(setup, keys, steps, s) && Enabled(setup, s, Act(r, action)) && s' == Next(setup, s, Act(r, action))
    ensures Reached(setup, keys, steps + [Act(r, action)], s')
  {
    OneMoreStep(setup, keys, steps, s, Act(r, action));
  }

  lemma ToLocked(setup: Setup, keys: seq<string>, steps: seq<Step>, s: System, r: nat, cycle: Cycle)
    returns (s': System)
    requires Reached(setup, keys, steps, s) && r < |s.runners| && s.runners[r].phase.Idle? && s.owner == None
    ensures Reached(setup, keys, steps + [Act(r, Evaluate(cycle))] + [Act(r, Lock)], s')
    ensures s' == Replaced(s, r, s.runners[r].(phase := Locked(cycle)), Some(r), s.disk)
  {
    var s1 := Replaced(s, r, s.runners[r].(phase := Waiting(cycle)), None, s.disk);
    ReachNext(setup, keys, steps, s, r, Evaluate(cycle), s1);
    s' := Replaced(s1, r, s1.runners[r].(phase := Locked(cycle)), Some(r), s.disk);
    ReachNext(setup, keys, steps + [Act(r, Evaluate(cycle))], s1, r, Lock, s');
  }

  lemma ToLoaded(setup: Setup, keys: seq<string>, steps: seq<Step>, s: System, r: nat) returns (s': System)
    requires Reached(setup, keys, steps, s) && r < |s.runners| && s.runners[r].phase.Locked?
    ensures Reached(setup, keys, steps + [Act(r, Load)], s')
    ensures var loaded := Loaded(s.runners[r].phase.cycle, LoadOf(setup.codec, s.disk.current));
      s' == Replaced(s, r, s.runners[r].(phase := loaded), s.owner, s.disk)
  {
    s' := Next(setup, s, Act(r, Load));
    ReachNext(setup, keys, steps, s, r, Load, s');
  }

  lemma ToSaving(setup: Setup, keys: seq<string>, steps: seq<Step>, s: System, r: nat) returns (s': System)
    requires Reached(setup, keys, steps, s) && r < |s.runners| && s.runners[r].phase.Loaded?
    ensures Reached(setup, keys, steps + [Act(r, Compute)], s')
    ensures var Loaded(cycle, state) := s.runners[r].phase;
      var prev := Stack(state, s.runners[r].key);
      var next := WithStack(state, s.runners[r].key, Snapshot(prev, cycle, setup.n));
      s' == Replaced(s, r, s.runners[r].(phase := Saving(cycle, next, Batch(prev, cycle.services, setup.n))), s.owner,
                     s.disk)
  {
    s' := Next(setup, s, Act(r, Compute));
    ReachNext(setup, keys, steps, s, r, Compute, s');
  }

  lemma ToUnlocked(setup: Setup, keys: seq<string>, steps: seq<Step>, s: System, r: nat, dirSynced: bool)
    returns (s': System)
    requires Reached(setup, keys, steps, s) && r < |s.runners| && s.runners[r].phase.Saving?
    ensures Reached(setup, keys, steps + [Act(r, Save(dirSynced))] + [Act(r, Unlock)], s')
    ensures s' == Replaced(s, r, Unlocked(Commit(s.runners[r])), None,
                           Installed(s.disk, Saved(setup.codec, s.runners[r].phase.next), dirSynced))
  {
    var s1 := Next(setup, s, Act(r, Save(dirSynced)));
    ReachNext(setup, keys, steps, s, r, Save(dirSynced), s1);
    s' := Next(setup, s1, Act(r, Unlock));
    ReachNext(setup, keys, steps + [Act(r, Save(dirSynced))], s1, r, Unlock, s');
  }

  function Unlocked(r: Runner): Runner
    requires r.phase.Committed?
  {
    r.(phase := if r.phase.delivery.batch == [] then Idle else Notifying(r.phase.delivery))
  }

  /** A runner after an undisturbed cycle that found this file. */
  ghost function CycleDone(setup: Setup, r: Runner, file: Option<File>, cycle: Cycle): Runner {
    var batch := NextBatch(setup.codec, file, r.key, cycle, setup.n);
    r.(phase := if batch == [] then Idle else Notifying(Delivery(|r.committed|, batch)),
       committed := r.committed + [cycle],
       batches := r.batches + [batch])
  }

  /** An idle runner that finds the lock free can always complete a cycle. */
  lemma CycleCompletes(setup: Setup, keys: seq<string>, steps: seq<Step>, s: System, r: nat, cycle: Cycle,
                       dirSynced: bool)
    returns (s': System)
    requires Reached(setup, keys, steps, s) && r < |s.runners| && s.runners[r].phase.Idle? && s.owner == None
    ensures Reached(setup, keys, steps + CycleSteps(r, cycle, dirSynced), s')
    ensures var file := NextFile(setup.codec, s.disk.current, s.runners[r].key, cycle, setup.n);
      s' == Replaced(s, r, CycleDone(setup, s.runners[r], s.disk.current, cycle), None,
                     Installed(s.disk, file, dirSynced))
  {
    var a, b, c := [Act(r, Evaluate(cycle))], [Act(r, Lock)], [Act(r, Load)];
    var d, e, f := [Act(r, Compute)], [Act(r, Save(dirSynced))], [Act(r, Unlock)];
    var locked := ToLocked(setup, keys, steps, s, r, cycle);
    var loaded := ToLoaded(setup, keys, steps + a + b, locked, r);
    var saving := ToSaving(setup, keys, steps + a + b + c, loaded, r);
    s' := ToUnlocked(setup, keys, steps + a + b + c + d, saving, r, dirSynced);
    Regroup(steps, a, b, c, d, e, f);
  }

  lemma Regroup<T>(s: seq<T>, a: seq<T>, b: seq<T>, c: seq<T>, d: seq<T>, e: seq<T>, f: seq<T>)
    ensures s + a + b + c + d + e + f == s + (a + b + c + d + e + f)
  {
  }

  // ----- No deadlock -----

  /** Steps in which nothing fails, and that start no further evaluation. */
  predicate FaultFree(steps: seq<Step>) {
    forall step | step in steps ::
      step.Act? && !step.action.Evaluate? && !step.action.FailLoad? && !step.action.FailSave?
  }

  /** The next step of a runner that holds the lock, when nothing fails. */
  function Onward(phase: Phase): Action
    requires HoldsLock(phase)
  {
    match phase
    case Locked(_) => Load
    case Loaded(_, _) => Compute
    case Saving(_, _, _) => Save(true)
    case Committed(_) => Unlock
  }

  function StepsToUnlock(phase: Phase): nat {
    match phase
    case Locked(_) => 4
    case Loaded(_, _) => 3
    case Saving(_, _, _) => 2
    case Committed(_) => 1
    case _ => 0
  }

  /** The saved cycles of a runner inside the lock, once it leaves it. */
  function SavedAtUnlock(r: Runner): seq<Cycle>
    requires HoldsLock(r.phase)
  {
    if r.phase.Committed? then r.committed else r.committed + [r.phase.cycle]
  }

  lemma OwnerStep(setup: Setup, s: System, r: nat)
    requires r < |s.runners| && HoldsLock(s.runners[r].phase)
    ensures Enabled(setup, s, Act(r, Onward(s.runners[r].phase)))
    ensures var before, next := s.runners[r], Next(setup, s, Act(r, Onward(s.runners[r].phase)));
      && |next.runners| == |s.runners|
      && (forall i | 0 <= i < |s.runners| && i != r :: next.runners[i] == s.runners[i])
      && if before.phase.Committed? then next.owner == None && next.runners[r].committed == before.committed
         else
           && HoldsLock(next.runners[r].phase)
           && StepsToUnlock(next.runners[r].phase) < StepsToUnlock(before.phase)
           && SavedAtUnlock(next.runners[r]) == SavedAtUnlock(before)
  {
  }

  lemma FaultFreeOnward(phase: Phase, r: nat, rest: seq<Step>)
    requires HoldsLock(phase) && FaultFree(rest)
    ensures FaultFree([Act(r, Onward(phase))] + rest)
  {
  }

  /** A runner that holds the lock can always go on, save its cycle and release the lock. */
  lemma {:induction false} OwnerFinishes(setup: Setup, keys: seq<string>, steps: seq<Step>, s: System, r: nat)
    returns (more: seq<Step>, s': System)
    requires Reached(setup, keys, steps, s) && r < |s.runners| && HoldsLock(s.runners[r].phase)
    ensures FaultFree(more) && Reached(setup, keys, steps + more, s')
    ensures s'.owner == None && |s'.runners| == |s.runners|
    ensures forall i | 0 <= i < |s.runners| && i != r :: s'.runners[i] == s.runners[i]
    ensures s'.runners[r].committed == SavedAtUnlock(s.runners[r])
    decreases StepsToUnlock(s.runners[r].phase)
  {
    var phase := s.runners[r].phase;
    var step := Act(r, Onward(phase));
    OwnerStep(setup, s, r);
    var next := Next(setup, s, step);
    OneMoreStep(setup, keys, steps, s, step);
    var rest: seq<Step> := [];
    s' := next;
    if phase.Committed? {
      assert steps + [step] + rest == steps + [step];
    } else {
      rest, s' := OwnerFinishes(setup, keys, steps + [step], next, r);
    }
    FaultFreeOnward(phase, r, rest);
    more := [step] + rest;
    Regrouped(steps, [step], rest);
  }

  /** With the lock free, a waiting runner can take it and save its cycle. */
  lemma WaiterFinishes(setup: Setup, keys: seq<string>, steps: seq<Step>, s: System, r: nat)
    returns (more: seq<Step>, s': System)
    requires Reached(setup, keys, steps, s) && r < |s.runners| && s.runners[r].phase.Waiting? && s.owner == None
    ensures FaultFree(more) && Reached(setup, keys, steps + more, s')
    ensures s'.owner == None && |s'.runners| == |s.runners|
    ensures s'.runners[r].committed == s.runners[r].committed + [s.runners[r].phase.cycle]
  {
    var lock := Act(r, Lock);
    OneMoreStep(setup, keys, steps, s, lock);
    var rest;
    rest, s' := OwnerFinishes(setup, keys, steps + [lock], Next(setup, s, lock), r);
    more := [lock] + rest;
    Regrouped(steps, [lock], rest);
  }

  /**
   No deadlock: from every system that a run can reach, whatever failed or crashed in
   it, some steps without a fault bring a waiting runner through the lock and save its
   cycle.
   */
  lemma WaitingRunnerCanSave(setup: Setup, keys: seq<string>, steps: seq<Step>, s: System, r: nat)
    returns (more: seq<Step>, s': System)
    requires GoodSetup(setup) && Reached(setup, keys, steps, s)
    requires r < |s.runners| && s.runners[r].phase.Waiting?
    ensures FaultFree(more) && Reached(setup, keys, steps + more, s')
    ensures s'.owner == None && |s'.runners| == |s.runners|
    ensures s'.runners[r].committed == s.runners[r].committed + [s.runners[r].phase.cycle]
  {
    ReachedInv(setup, keys, steps, s);
    if s.owner == None {
      more, s' := WaiterFinishes(setup, keys, steps, s, r);
    } else {
      var first, free := OwnerFinishes(setup, keys, steps, s, s.owner.value);
      var second;
      second, s' := WaiterFinishes(setup, keys, steps + first, free, r);
      more := first + second;
      Regrouped(steps, first, second);
    }
  }

  // ----- Shared keys -----

  function IdleRunner(key: string): Runner {
    Runner(key, Idle, [], [], [], {})
  }

  function StartSystem(setup: Setup, keys: seq<string>): (s: System)
    ensures Initial(setup, s) && Keys(s) == keys
  {
    System(seq(|keys|, i requires 0 <= i < |keys| => IdleRunner(keys[i])), None, Disk(setup.start, None, {setup.start}))
  }

  lemma {:induction false} NoCrashIsSynced(steps: seq<Step>)
    requires forall step | step in steps :: step.Act?
    ensures CrashesSynced(steps)
  {
    if steps != [] {
      var init := steps[..|steps| - 1];
      assert steps[|steps| - 1] in steps && forall step | step in init :: step in steps;
      NoCrashIsSynced(init);
    }
  }

  /** A cycle of an idle runner from the start, then one of another idle runner. */
  lemma OneAfterTheOther(setup: Setup, keys: seq<string>, i: nat, j: nat, first: Cycle, second: Cycle)
    returns (steps: seq<Step>, s1: System, s: System)
    requires i < |keys| && j < |keys| && i != j
    requires NextBatch(setup.codec, setup.start, keys[i], first, setup.n) == []
    ensures steps == CycleSteps(i, first, true) + CycleSteps(j, second, true) && Reached(setup, keys, steps, s)
    ensures s.disk.current == Some(NextFile(setup.codec, s1.disk.current, keys[j], second, setup.n))
    ensures |s.runners| == |keys| && s.runners[i].key == keys[i] && s.runners[i].committed == [first]
  {
    var s0 := StartSystem(setup, keys);
    assert Reached(setup, keys, [], s0);
    s1 := CycleCompletes(setup, keys, [], s0, i, first, true);
    assert [] + CycleSteps(i, first, true) == CycleSteps(i, first, true);
    s := CycleCompletes(setup, keys, CycleSteps(i, first, true), s1, j, second, true);
    steps := CycleSteps(i, first, true) + CycleSteps(j, second, true);
  }

  /** A stack without services has nothing to announce. */
  lemma EmptyIsSilent(prev: Option<StackSnapshot>, n: int)
    ensures Batch(prev, map[], n) == []
  {
    BatchHasAlerts(prev, map[], n);
  }

  /** Two runners under one key each complete a cycle, and the first one's snapshot is lost. */
  lemma SharedKeyLosesUpdate(setup: Setup, keys: seq<string>, i: nat, j: nat) returns (steps: seq<Step>, s: System)
    requires GoodSetup(setup) && i < j < |keys| && keys[i] == keys[j]
    ensures Reached(setup, keys, steps, s) && CrashesSynced(steps) && !Isolated(setup, keys, s)
  {
    var first, second := Cycle(map[], "", 0), Cycle(map[], "", 1);
    EmptyIsSilent(StartOf(setup, keys[i]), setup.n);
    var s1;
    steps, s1, s := OneAfterTheOther(setup, keys, i, j, first, second);
    NoCrashIsSynced(steps);
    NextFileTime(setup, s1.disk.current, keys[j], second);
    FirstCycleTime(StartOf(setup, keys[i]), first, setup.n);
    assert !AsIfAlone(setup, s.disk.current, s.runners[i]);
  }

  lemma FirstCycleTime(start: Option<StackSnapshot>, cycle: Cycle, n: int)
    ensures After(start, [cycle], n).Some? && After(start, [cycle], n).value.evaluatedAt == cycle.evaluatedAt
  {
    AppendedCycle(start, [], cycle, n);
    assert [] + [cycle] == [cycle];
  }

  lemma NextFileTime(setup: Setup, file: Option<File>, key: string, cycle: Cycle)
    requires GoodSetup(setup)
    ensures var stored := StoredOf(setup, Some(NextFile(setup.codec, file, key, cycle, setup.n)), key);
      stored.Some? && stored.value.evaluatedAt == cycle.evaluatedAt
  {
    SaveChangesOneStack(setup.codec, file, key, Snapshot(StoredOf(setup, file, key), cycle, setup.n), key);
  }

  /** Distinct keys, which the mapping file's duplicate check ensures, are exactly what isolation needs. */
  lemma IsolatedIffDistinctKeys(setup: Setup, keys: seq<string>)
    requires GoodSetup(setup)
    ensures DistinctKeys(keys) <==>
              forall steps, s | Reached(setup, keys, steps, s) && CrashesSynced(steps) :: Isolated(setup, keys, s)
  {
    if DistinctKeys(keys) {
      forall steps, s | Reached(setup, keys, steps, s) && CrashesSynced(steps) ensures Isolated(setup, keys, s) {
        SyncedRunIsIsolated(setup, keys, steps, s);
      }
    } else {
      var i, j :| 0 <= i < j < |keys| && keys[i] == keys[j];
      var steps, s := SharedKeyLosesUpdate(setup, keys, i, j);
      assert Reached(setup, keys, steps, s) && CrashesSynced(steps) && !Isolated(setup, keys, s);
    }
  }

  // ----- An alert sent twice -----

  /** The first batch of a stack that is not all well. */
  lemma FirstBatchAlerts(services: map<string, ServiceHealth>, n: int)
    requires exists name :: name in services && services[name].status != OK
    ensures Batch(None, services, n) != []
  {
    var name :| name in services && services[name].status != OK;
    AlertOfName(None, services, n, name);
    BatchHasAlerts(None, services, n);
  }

  /** Seeing the same again is no news. */
  lemma SameAgainIsSilent(cycle: Cycle, n: int)
    ensures Batch(Some(Snapshot(None, cycle, n)), cycle.services, n) == []
  {
    var prev := Some(Snapshot(None, cycle, n));
    forall name | name in cycle.services ensures name !in Debounce.Alerts(prev, cycle.services, n) {
      AlertOfName(None, cycle.services, n, name);
      AlertOfName(prev, cycle.services, n, name);
    }
    BatchHasAlerts(prev, cycle.services, n);
  }

  /**
   The failure: a save whose directory sync fails, its batch delivered, a crash that
   finds the file as it was before, and the same again. The runner delivers one batch
   twice, where a runner whose first save had lasted would have nothing to say.
   */
  lemma UnsyncedCrashRepeatsAlerts(setup: Setup, key: string, first: Cycle, second: Cycle)
    returns (steps: seq<Step>, s: System)
    requires GoodSetup(setup) && setup.start == None && first.services == second.services
    requires exists name :: name in first.services && first.services[name].status != OK
    ensures Reached(setup, [key], steps, s)
    ensures var batch := Batch(None, first.services, setup.n);
      && batch != [] && Batches(None, [first, second], setup.n) == [batch, []]
      && s.runners == [Runner(key, Idle, [first, second], [batch, batch], [Delivery(0, batch), Delivery(1, batch)], {})]
  {
    var batch := Batch(None, first.services, setup.n);
    FirstBatchAlerts(first.services, setup.n);
    SameAgainIsSilent(first, setup.n);
    TwoBatches(first, second, setup.n);
    steps := SentAndUndone(setup, key, first, batch);
    var once := Runner(key, Idle, [first], [batch], [Delivery(0, batch)], {});
    steps, s := DeliverOne(setup, key, steps, Disk(None, None, {None}), once, second, true, batch);
    Pair(first, second);
    Pair(batch, batch);
    Pair(Delivery(0, batch), Delivery(1, batch));
  }

  lemma Single<T>(x: T)
    ensures [] + [x] == [x]
  {
  }

  lemma Pair<T>(x: T, y: T)
    ensures [x] + [y] == [x, y]
  {
  }

  lemma SentAndUndone(setup: Setup, key: string, cycle: Cycle, batch: Alerts) returns (steps: seq<Step>)
    requires setup.start == None && batch == Batch(None, cycle.services, setup.n) && batch != []
    ensures var once := Runner(key, Idle, [cycle], [batch], [Delivery(0, batch)], {});
      Reached(setup, [key], steps, System([once], None, Disk(None, None, {None})))
  {
    var s0 := StartSystem(setup, [key]);
    assert s0 == System([IdleRunner(key)], None, Disk(None, None, {None}));
    assert Reached(setup, [key], [], s0);
    var s;
    steps, s := DeliverOne(setup, key, [], s0.disk, IdleRunner(key), cycle, false, batch);
    var once := Runner(key, Idle, [cycle], [batch], [Delivery(0, batch)], {});
    Single(cycle);
    Single(batch);
    Single(Delivery(0, batch));
    assert s == System([once], None, s.disk);
    steps := BackToNothing(setup, key, steps, s.disk, once);
  }

  lemma BackToNothing(setup: Setup, key: string, steps: seq<Step>, disk: Disk, r: Runner) returns (steps': seq<Step>)
    requires Reached(setup, [key], steps, System([r], None, disk)) && r.phase == Idle && None in disk.revertible
    ensures Reached(setup, [key], steps', System([r], None, Disk(None, None, {None})))
  {
    var s := System([r], None, disk);
    steps' := steps + [Crash(None)];
    OneMoreStep(setup, [key], steps, s, Crash(None));
    assert Next(setup, s, Crash(None)) == System([r], None, Disk(None, None, {None}));
  }

  lemma TwoBatches(first: Cycle, second: Cycle, n: int)
    ensures Batches(None, [first, second], n)
         == [Batch(None, first.services, n), Batch(Some(Snapshot(None, first, n)), second.services, n)]
  {
    OneBatch(first, n);
    AppendedBatches(None, [first], second, n);
    assert [first] + [second] == [first, second];
  }

  lemma OneBatch(cycle: Cycle, n: int)
    ensures After(None, [cycle], n) == Some(Snapshot(None, cycle, n))
    ensures Batches(None, [cycle], n) == [Batch(None, cycle.services, n)]
  {
    assert [] + [cycle] == [cycle];
    AppendedCycle(None, [], cycle, n);
    AppendedBatches(None, [], cycle, n);
  }

  /** A whole cycle of a single idle runner that finds no file, with its delivery. */
  lemma DeliverOne(setup: Setup, key: string, steps: seq<Step>, disk: Disk, r: Runner, cycle: Cycle, dirSynced: bool,
                   batch: Alerts)
    returns (steps': seq<Step>, s: System)
    requires Reached(setup, [key], steps, System([r], None, disk)) && r.key == key && r.phase == Idle
    requires disk.current == None && batch == Batch(None, cycle.services, setup.n) && batch != []
    ensures Reached(setup, [key], steps', s)
    ensures s.owner == None && s.disk.revertible >= if dirSynced then {} else disk.revertible
    ensures s.runners == [Runner(key, Idle, r.committed + [cycle], r.batches + [batch],
                                 r.delivered + [Delivery(|r.committed|, batch)], r.lost)]
  {
    var done;
    steps', done := CycleOfOne(setup, key, steps, disk, r, cycle, dirSynced);
    steps', s := HandOver(setup, key, steps', done, CycleDone(setup, r, None, cycle));
  }

  lemma CycleOfOne(setup: Setup, key: string, steps: seq<Step>, disk: Disk, r: Runner, cycle: Cycle, dirSynced: bool)
    returns (steps': seq<Step>, disk': Disk)
    requires Reached(setup, [key], steps, System([r], None, disk)) && r.phase == Idle
    ensures Reached(setup, [key], steps', System([CycleDone(setup, r, disk.current, cycle)], None, disk'))
    ensures disk' == Installed(disk, NextFile(setup.codec, disk.current, r.key, cycle, setup.n), dirSynced)
  {
    var done := CycleCompletes(setup, [key], steps, System([r], None, disk), 0, cycle, dirSynced);
    assert done.runners == [CycleDone(setup, r, disk.current, cycle)];
    steps', disk' := steps + CycleSteps(0, cycle, dirSynced), done.disk;
    assert done == System([CycleDone(setup, r, disk.current, cycle)], None, disk');
  }

  lemma HandOver(setup: Setup, key: string, steps: seq<Step>, disk: Disk, r: Runner)
    returns (steps': seq<Step>, s: System)
    requires Reached(setup, [key], steps, System([r], None, disk)) && r.phase.Notifying?
    ensures Reached(setup, [key], steps', s)
    ensures s == System([r.(phase := Idle, delivered := r.delivered + [r.phase.delivery])], None, disk)
  {
    s := System([r.(phase := Idle, delivered := r.delivered + [r.phase.delivery])], None, disk);
    steps' := steps + [Act(0, Notify)];
    assert Next(setup, System([r], None, disk), Act(0, Notify)) == s;
    ReachNext(setup, [key], steps, System([r], None, disk), 0, Notify, s);
  }
}
