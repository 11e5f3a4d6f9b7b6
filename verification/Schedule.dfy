/**
 The runners of a coordinator (internal/coordinator/coordinator.go) sharing one
 state file and one lock: evaluateAndPersist of internal/runner/runner.go as a
 transition system. Steps of different runners interleave freely; loads and saves
 may fail at any time; a save may or may not get its directory synced; the process
 may be killed, or the power fail, between any two steps or inside a save.
 */
module Schedule {
  import opened Wrappers
  import opened State
  import opened Transition
  import opened Debounce
  import opened FileStore

  type Alerts = seq<ServiceTransition>

  /** A batch handed to the notifier, and the saved cycle it belongs to. */
  datatype Delivery = Delivery(index: nat, batch: Alerts)

  /** Where one runner is in its cycle. */
  datatype Phase =
    | Idle
    | Waiting(cycle: Cycle)
    | Locked(cycle: Cycle)
    | Loaded(cycle: Cycle, state: State)
    | Saving(cycle: Cycle, next: State, batch: Alerts)
    | Committed(delivery: Delivery)
    | Notifying(delivery: Delivery)

  /**
   A runner, with the record of its saved cycles and the batch that went with each,
   of its deliveries, and of the cycles whose batch was lost to a crash.
   */
  datatype Runner = Runner(
    key: string,
    phase: Phase,
    committed: seq<Cycle>,
    batches: seq<Alerts>,
    delivered: seq<Delivery>,
    lost: set<nat>)

  datatype System = System(runners: seq<Runner>, owner: Option<nat>, disk: Disk)

  datatype Action =
    | Evaluate(cycle: Cycle)
    | Lock
    | Load
    | FailLoad
    | Compute
    | Save(dirSynced: bool)
    | FailSave
    | Unlock
    | Notify

  /**
   A killed process loses everything but the disk; it may have renamed the file of a
   save under way. A crash of the machine also comes with the file that is found at
   the state path afterwards.
   */
  datatype Step = Act(runner: nat, action: Action) | Kill(renamed: bool) | Crash(found: Option<File>)

  /** The fixed parameters of a run: codec, window and the file it starts from. */
  datatype Setup = Setup(codec: Codec, n: int, start: Option<File>)

  ghost predicate GoodSetup(setup: Setup) {
    RoundTrips(setup.codec) && (setup.start.Some? ==> setup.start.value.synced)
  }

  /** The file that a save under way may already have put in place. */
  function BeingSaved(setup: Setup, s: System): set<Option<File>> {
    if s.owner.Some? && s.owner.value < |s.runners| && s.runners[s.owner.value].phase.Saving?
    then {Some(Saved(setup.codec, s.runners[s.owner.value].phase.next))}
    else {}
  }

  /** CrashLeavesAWholeState shows that these are the files a crash can leave. */
  predicate Enabled(setup: Setup, s: System, step: Step) {
    match step
    case Kill(renamed) => renamed ==> BeingSaved(setup, s) != {}
    case Crash(found) => found in s.disk.revertible + BeingSaved(setup, s)
    case Act(r, action) =>
      r < |s.runners| &&
      var phase := s.runners[r].phase;
      match action
      case Evaluate(_) => phase.Idle?
      case Lock => phase.Waiting? && s.owner == None
      case Load => phase.Locked?
      case FailLoad => phase.Locked?
      case Compute => phase.Loaded?
      case Save(_) => phase.Saving?
      case FailSave => phase.Saving?
      case Unlock => phase.Committed?
      case Notify => phase.Notifying?
  }

  /** A runner whose save has put the new file in place. */
  function Commit(r: Runner): Runner
    requires r.phase.Saving?
  {
    r.(phase := Committed(Delivery(|r.committed|, r.phase.batch)),
       committed := r.committed + [r.phase.cycle],
       batches := r.batches + [r.phase.batch])
  }

  /** What the runner does to itself. */
  ghost function Moved(setup: Setup, s: System, r: Runner, action: Action): Runner
    requires match action
             case Lock => r.phase.Waiting?
             case Load => r.phase.Locked?
             case Compute => r.phase.Loaded?
             case Save(_) => r.phase.Saving?
             case Unlock => r.phase.Committed?
             case Notify => r.phase.Notifying?
             case _ => true
  {
    match action
    case Evaluate(cycle) => r.(phase := Waiting(cycle))
    case Lock => r.(phase := Locked(r.phase.cycle))
    case Load => r.(phase := Loaded(r.phase.cycle, LoadOf(setup.codec, s.disk.current)))
    case FailLoad => r.(phase := Idle)
    case Compute =>
      var prev := Stack(r.phase.state, r.key);
      var cycle := r.phase.cycle;
      r.(phase := Saving(cycle, WithStack(r.phase.state, r.key, Snapshot(prev, cycle, setup.n)),
                         Batch(prev, cycle.services, setup.n)))
    case Save(_) => Commit(r)
    case FailSave => r.(phase := Idle)
    case Unlock => r.(phase := if r.phase.delivery.batch == [] then Idle else Notifying(r.phase.delivery))
    case Notify => r.(phase := Idle, delivered := r.delivered + [r.phase.delivery])
  }

  /** A stopped runner's batch that was not yet handed over is lost. */
  function Stopped(r: Runner): Runner {
    r.(phase := Idle,
       lost := if r.phase.Committed? || r.phase.Notifying? then r.lost + {r.phase.delivery.index} else r.lost)
  }

  /** A save under way counts if its file was renamed. */
  function Killed(r: Runner, renamed: bool): Runner {
    if r.phase.Saving? && renamed then Stopped(Commit(r)) else Stopped(r)
  }

  /** A save under way counts if its file is the one found afterwards. */
  function Crashed(setup: Setup, r: Runner, found: Option<File>): Runner {
    Killed(r, r.phase.Saving? && found == Some(Saved(setup.codec, r.phase.next)))
  }

  ghost function Next(setup: Setup, s: System, step: Step): System
    requires Enabled(setup, s, step)
  {
    match step
    case Kill(renamed) =>
      System(seq(|s.runners|, i requires 0 <= i < |s.runners| => Killed(s.runners[i], renamed)), None,
             if renamed then Installed(s.disk, Saved(setup.codec, s.runners[s.owner.value].phase.next), false)
                 else s.disk)
    case Crash(found) =>
      System(seq(|s.runners|, i requires 0 <= i < |s.runners| => Crashed(setup, s.runners[i], found)), None,
             Disk(found, None, {found}))
    case Act(r, action) =>
      var runner := s.runners[r];
      System(s.runners[r := Moved(setup, s, runner, action)],
             match action
             case Lock => Some(r)
             case FailLoad => None
             case FailSave => None
             case Unlock => None
             case _ => s.owner,
             if action.Save? then Installed(s.disk, Saved(setup.codec, runner.phase.next), action.dirSynced)
                 else s.disk)
  }

  predicate Initial(setup: Setup, s: System) {
    && s.owner == None && s.disk == Disk(setup.start, None, {setup.start})
    && forall r | r in s.runners ::
        r.phase == Idle && r.committed == [] && r.batches == [] && r.delivered == [] && r.lost == {}
  }

  /** `s` can be reached from an initial system over these keys by these steps. */
  ghost predicate Reached(setup: Setup, keys: seq<string>, steps: seq<Step>, s: System)
    decreases |steps|
  {
    if steps == [] then Initial(setup, s) && Keys(s) == keys
    else
      var last := steps[|steps| - 1];
      exists before :: Reached(setup, keys, steps[..|steps| - 1], before) && Enabled(setup, before, last)
          && s == Next(setup, before, last)
  }

  function Keys(s: System): seq<string> {
    seq(|s.runners|, i requires 0 <= i < |s.runners| => s.runners[i].key)
  }

  ghost predicate DistinctKeys(keys: seq<string>) {
    forall i, j | 0 <= i < j < |keys| :: keys[i] != keys[j]
  }

  // ----- What must hold -----

  /** What the disk holds for one key, and what it held when the run began. */
  function StoredOf(setup: Setup, file: Option<File>, key: string): Option<StackSnapshot> {
    Stack(LoadOf(setup.codec, file), key)
  }

  function StartOf(setup: Setup, key: string): Option<StackSnapshot> {
    StoredOf(setup, setup.start, key)
  }

  /** The batches a runner would produce alone on its saved cycles. */
  ghost function BatchesOf(setup: Setup, r: Runner): seq<Alerts> {
    Batches(StartOf(setup, r.key), r.committed, setup.n)
  }

  /** A runner's record and stored snapshot are those of a runner that had been alone. */
  ghost predicate AsIfAlone(setup: Setup, file: Option<File>, r: Runner) {
    && StoredOf(setup, file, r.key) == After(StartOf(setup, r.key), r.committed, setup.n)
    && r.batches == BatchesOf(setup, r)
  }

  /** Isolation: so it is for every runner, and other keys keep what the file held at the start. */
  ghost predicate Isolated(setup: Setup, keys: seq<string>, s: System) {
    && (forall i | 0 <= i < |s.runners| :: AsIfAlone(setup, s.disk.current, s.runners[i]))
    && (forall key | key !in keys :: StoredOf(setup, s.disk.current, key) == StartOf(setup, key))
  }

  /** The last rename has not been synced, and no crash of the machine has settled what is on the disk since. */
  predicate Unsynced(steps: seq<Step>) {
    if steps == [] then false
    else
      var last := steps[|steps| - 1];
      match last
      case Crash(_) => false
      case Kill(renamed) => renamed || Unsynced(steps[..|steps| - 1])
      case Act(_, action) => if action.Save? then !action.dirSynced else Unsynced(steps[..|steps| - 1])
  }

  /** No crash of the machine hits while a completed save is unsynced. */
  predicate CrashesSynced(steps: seq<Step>) {
    steps == [] ||
    var init := steps[..|steps| - 1];
    CrashesSynced(init) && (steps[|steps| - 1].Crash? ==> !Unsynced(init))
  }

  function CrashCount(steps: seq<Step>): nat {
    if steps == [] then 0
    else CrashCount(steps[..|steps| - 1]) + if steps[|steps| - 1].Act? then 0 else 1
  }

  /**
   The deliveries owed for the first `upto` of these batches: one for each that is
   not empty, in order, except those lost in a crash.
   */
  ghost function Owed(batches: seq<Alerts>, lost: set<nat>, upto: nat): seq<Delivery>
    requires upto <= |batches|
  {
    if upto == 0 then []
    else
      var i := upto - 1;
      if batches[i] == [] || i in lost then Owed(batches, lost, i)
      else Owed(batches, lost, i) + [Delivery(i, batches[i])]
  }

  predicate InFlight(phase: Phase) {
    phase.Committed? || phase.Notifying?
  }

  predicate HoldsLock(phase: Phase) {
    phase.Locked? || phase.Loaded? || phase.Saving? || phase.Committed?
  }

  /** The saved cycles whose batch is no longer under way. */
  function Closed(r: Runner): nat {
    if InFlight(r.phase) && |r.batches| > 0 then |r.batches| - 1 else |r.batches|
  }

  /** A runner's deliveries are what it owes, and a batch under way is its latest. */
  ghost predicate LogInv(r: Runner) {
    && |r.batches| == |r.committed|
    && (InFlight(r.phase) ==>
        |r.batches| > 0 && r.phase.delivery == Delivery(|r.batches| - 1, r.batches[|r.batches| - 1]))
    && (r.phase.Notifying? ==> r.phase.delivery.batch != [])
    && (forall i | i in r.lost :: i < Closed(r))
    && r.delivered == Owed(r.batches, r.lost, Closed(r))
  }

  /** What a runner holds while it has the lock is what is on the disk, brought up to date. */
  ghost predicate PhaseInv(setup: Setup, file: Option<File>, r: Runner) {
    && (r.phase.Loaded? ==> r.phase.state == LoadOf(setup.codec, file))
    && (r.phase.Saving? ==>
          && r.phase.next == WithStack(LoadOf(setup.codec, file), r.key,
                                       Snapshot(StoredOf(setup, file, r.key), r.phase.cycle, setup.n))
          && r.phase.batch == Batch(StoredOf(setup, file, r.key), r.phase.cycle.services, setup.n))
  }

  ghost predicate LockInv(s: System) {
    && (s.owner.Some? ==> s.owner.value < |s.runners|)
    && forall i | 0 <= i < |s.runners| :: s.owner == Some(i) <==> HoldsLock(s.runners[i].phase)
  }

  /** Every runner's record and phase are in order. */
  ghost predicate RunnersInv(setup: Setup, s: System) {
    forall i | 0 <= i < |s.runners| :: LogInv(s.runners[i]) && PhaseInv(setup, s.disk.current, s.runners[i])
  }

  /** Holds in every run, whatever its crashes find. */
  ghost predicate Inv(setup: Setup, keys: seq<string>, s: System) {
    Keys(s) == keys && Clean(s.disk) && LockInv(s) && RunnersInv(setup, s)
  }

  // ----- Every run: the log of each runner -----

  lemma {:induction false} OwedFrame(batches: seq<Alerts>, more: seq<Alerts>, lost: set<nat>, lost': set<nat>,
                                     upto: nat)
    requires upto <= |batches|
    requires forall i | 0 <= i < upto :: i in lost <==> i in lost'
    ensures Owed(batches + more, lost', upto) == Owed(batches, lost, upto)
  {
    if upto > 0 {
      OwedFrame(batches, more, lost, lost', upto - 1);
    }
  }

  /** Moves that neither commit nor end a batch change nothing in the log. */
  lemma LogUnchanged(r: Runner, r': Runner)
    requires LogInv(r)
    requires r'.committed == r.committed && r'.batches == r.batches && r'.delivered == r.delivered && r'.lost == r.lost
    requires InFlight(r'.phase) <==> InFlight(r.phase)
    requires InFlight(r.phase) ==> r'.phase.delivery == r.phase.delivery
    requires r'.phase.Notifying? ==> r'.phase.delivery.batch != []
    ensures LogInv(r')
  {
  }

  /** An empty batch ends at the unlock: nothing was owed for it. */
  lemma EmptyBatchEnds(r: Runner)
    requires LogInv(r) && r.phase.Committed? && r.phase.delivery.batch == []
    ensures LogInv(r.(phase := Idle))
  {
  }

  /** Handing over the batch under way delivers what is owed for its cycle. */
  lemma HandoverEnds(r: Runner)
    requires LogInv(r) && r.phase.Notifying?
    ensures LogInv(r.(phase := Idle, delivered := r.delivered + [r.phase.delivery]))
  {
  }

  /** Committing a cycle puts its batch under way; what was owed is still owed. */
  lemma CommitKeepsLog(r: Runner)
    requires LogInv(r) && r.phase.Saving?
    ensures LogInv(Commit(r))
  {
    OwedFrame(r.batches, [r.phase.batch], r.lost, r.lost, |r.batches|);
  }

  lemma MoveKeepsLog(setup: Setup, s: System, r: nat, action: Action)
    requires Enabled(setup, s, Act(r, action)) && LogInv(s.runners[r])
    ensures LogInv(Moved(setup, s, s.runners[r], action))
  {
    var runner := s.runners[r];
    if action.Save? {
      CommitKeepsLog(runner);
    } else if action.Notify? {
      HandoverEnds(runner);
    } else if action.Unlock? && runner.phase.delivery.batch == [] {
      EmptyBatchEnds(runner);
    } else {
      LogUnchanged(runner, Moved(setup, s, runner, action));
    }
  }

  /** A crash with a batch under way closes that cycle as lost, and owes nothing new. */
  lemma StopKeepsLog(r: Runner)
    requires LogInv(r)
    ensures LogInv(Stopped(r))
  {
    assert r.batches + [] == r.batches;
    OwedFrame(r.batches, [], r.lost, Stopped(r).lost, Closed(r));
  }

  lemma KillKeepsLog(r: Runner, renamed: bool)
    requires LogInv(r)
    ensures LogInv(Killed(r, renamed))
  {
    StopKeepsLog(r);
    if r.phase.Saving? {
      CommitKeepsLog(r);
      StopKeepsLog(Commit(r));
    }
  }

  // ----- Every run: lock and phases -----

  lemma ActKeepsLock(setup: Setup, s: System, r: nat, action: Action)
    requires LockInv(s) && Enabled(setup, s, Act(r, action))
    ensures LockInv(Next(setup, s, Act(r, action)))
    ensures Keys(Next(setup, s, Act(r, action))) == Keys(s)
  {
  }

  /** A save leaves every other runner outside the lock, so nothing loaded goes stale. */
  lemma ActKeepsPhases(setup: Setup, s: System, r: nat, action: Action, i: nat)
    requires LockInv(s) && Enabled(setup, s, Act(r, action)) && i < |s.runners|
    requires PhaseInv(setup, s.disk.current, s.runners[i])
    ensures var s' := Next(setup, s, Act(r, action)); PhaseInv(setup, s'.disk.current, s'.runners[i])
  {
  }

  lemma ActKeepsRunners(setup: Setup, s: System, r: nat, action: Action)
    requires LockInv(s) && RunnersInv(setup, s) && Enabled(setup, s, Act(r, action))
    ensures RunnersInv(setup, Next(setup, s, Act(r, action)))
  {
    var s' := Next(setup, s, Act(r, action));
    MoveKeepsLog(setup, s, r, action);
    forall i | 0 <= i < |s.runners| ensures LogInv(s'.runners[i]) && PhaseInv(setup, s'.disk.current, s'.runners[i]) {
      assert s'.runners[i] == if i == r then Moved(setup, s, s.runners[r], action) else s.runners[i];
      ActKeepsPhases(setup, s, r, action, i);
    }
  }

  lemma ActPreservesInv(setup: Setup, keys: seq<string>, s: System, r: nat, action: Action)
    requires Inv(setup, keys, s) && Enabled(setup, s, Act(r, action))
    ensures Inv(setup, keys, Next(setup, s, Act(r, action)))
  {
    ActKeepsLock(setup, s, r, action);
    ActKeepsRunners(setup, s, r, action);
  }

  ghost predicate Rests(r': Runner, r: Runner) {
    LogInv(r') && r'.phase == Idle && r'.key == r.key
  }

  lemma RestingInv(setup: Setup, keys: seq<string>, s: System, s': System)
    requires Keys(s) == keys && Clean(s'.disk) && s'.owner == None && |s'.runners| == |s.runners|
    requires forall i | 0 <= i < |s.runners| :: Rests(s'.runners[i], s.runners[i])
    ensures Inv(setup, keys, s')
  {
    assert forall i | 0 <= i < |s.runners| :: Rests(s'.runners[i], s.runners[i]) && keys[i] == s.runners[i].key;
  }

  lemma CrashPreservesInv(setup: Setup, keys: seq<string>, s: System, found: Option<File>)
    requires Inv(setup, keys, s) && Enabled(setup, s, Crash(found))
    ensures Inv(setup, keys, Next(setup, s, Crash(found)))
  {
    var s' := Next(setup, s, Crash(found));
    forall i | 0 <= i < |s.runners| ensures Rests(s'.runners[i], s.runners[i]) {
      var r := s.runners[i];
      KillKeepsLog(r, r.phase.Saving? && found == Some(Saved(setup.codec, r.phase.next)));
    }
    RestingInv(setup, keys, s, s');
  }

  lemma KillPreservesInv(setup: Setup, keys: seq<string>, s: System, renamed: bool)
    requires Inv(setup, keys, s) && Enabled(setup, s, Kill(renamed))
    ensures Inv(setup, keys, Next(setup, s, Kill(renamed)))
  {
    var s' := Next(setup, s, Kill(renamed));
    forall i | 0 <= i < |s.runners| ensures Rests(s'.runners[i], s.runners[i]) {
      KillKeepsLog(s.runners[i], renamed);
    }
    RestingInv(setup, keys, s, s');
  }

  lemma StepPreservesInv(setup: Setup, keys: seq<string>, s: System, step: Step)
    requires Inv(setup, keys, s) && Enabled(setup, s, step)
    ensures Inv(setup, keys, Next(setup, s, step))
  {
    match step
    case Kill(renamed) => KillPreservesInv(setup, keys, s, renamed);
    case Crash(found) => CrashPreservesInv(setup, keys, s, found);
    case Act(r, action) => ActPreservesInv(setup, keys, s, r, action);
  }

  lemma InitialInv(setup: Setup, s: System)
    requires GoodSetup(setup) && Initial(setup, s)
    ensures Inv(setup, Keys(s), s) && Isolated(setup, Keys(s), s)
  {
    assert forall i | 0 <= i < |s.runners| :: s.runners[i] in s.runners;
  }

  lemma {:induction false} ReachedInv(setup: Setup, keys: seq<string>, steps: seq<Step>, s: System)
    requires GoodSetup(setup) && Reached(setup, keys, steps, s)
    ensures Inv(setup, keys, s)
    decreases |steps|
  {
    if steps == [] {
      InitialInv(setup, s);
    } else {
      var before := Predecessor(setup, keys, steps, s);
      ReachedInv(setup, keys, steps[..|steps| - 1], before);
      StepPreservesInv(setup, keys, before, steps[|steps| - 1]);
    }
  }

  /** The state before the last step of a run. */
  ghost function Predecessor(setup: Setup, keys: seq<string>, steps: seq<Step>, s: System): (before: System)
    requires Reached(setup, keys, steps, s) && steps != []
    ensures Reached(setup, keys, steps[..|steps| - 1], before)
    ensures Enabled(setup, before, steps[|steps| - 1]) && s == Next(setup, before, steps[|steps| - 1])
  {
    var before :| Reached(setup, keys, steps[..|steps| - 1], before)
                  && Enabled(setup, before, steps[|steps| - 1]) && s == Next(setup, before, steps[|steps| - 1]);
    before
  }

  // ----- Isolation -----

  /** What a save under way will make of each key. */
  lemma SavedFileOf(setup: Setup, s: System, r: nat, key: string)
    requires RoundTrips(setup.codec) && r < |s.runners| && s.runners[r].phase.Saving?
    requires PhaseInv(setup, s.disk.current, s.runners[r])
    ensures var saver := s.runners[r];
      StoredOf(setup, Some(Saved(setup.codec, saver.phase.next)), key)
        == if key == saver.key then Some(Snapshot(StoredOf(setup, s.disk.current, key), saver.phase.cycle, setup.n))
           else StoredOf(setup, s.disk.current, key)
  {
    var saver := s.runners[r];
    SaveChangesOneStack(setup.codec, s.disk.current, saver.key,
                        Snapshot(StoredOf(setup, s.disk.current, saver.key), saver.phase.cycle, setup.n), key);
  }

  /** Committing the new file is one more cycle of a runner that is alone. */
  lemma CommitIsAlone(setup: Setup, s: System, r: nat)
    requires RoundTrips(setup.codec) && r < |s.runners| && s.runners[r].phase.Saving?
    requires PhaseInv(setup, s.disk.current, s.runners[r]) && AsIfAlone(setup, s.disk.current, s.runners[r])
    ensures AsIfAlone(setup, Some(Saved(setup.codec, s.runners[r].phase.next)), Commit(s.runners[r]))
  {
    var saver := s.runners[r];
    SavedFileOf(setup, s, r, saver.key);
    AppendedCycle(StartOf(setup, saver.key), saver.committed, saver.phase.cycle, setup.n);
    AppendedBatches(StartOf(setup, saver.key), saver.committed, saver.phase.cycle, setup.n);
  }

  /** Isolation looks at no phase, only at a runner's key, cycles and batches. */
  predicate SameRecord(a: Runner, b: Runner) {
    a.key == b.key && a.committed == b.committed && a.batches == b.batches
  }

  /** Putting the new file in place and committing its runner keeps isolation. */
  lemma CommitKeepsIsolation(setup: Setup, keys: seq<string>, s: System, r: nat, s': System)
    requires GoodSetup(setup) && DistinctKeys(keys) && Inv(setup, keys, s) && Isolated(setup, keys, s)
    requires r < |s.runners| == |s'.runners| && s.runners[r].phase.Saving?
    requires SameRecord(s'.runners[r], Commit(s.runners[r]))
    requires forall i | 0 <= i < |s.runners| && i != r :: SameRecord(s'.runners[i], s.runners[i])
    requires s'.disk.current == Some(Saved(setup.codec, s.runners[r].phase.next))
    ensures Isolated(setup, keys, s')
  {
    var file := s'.disk.current;
    assert keys[r] == s.runners[r].key;
    forall i | 0 <= i < |s'.runners| ensures AsIfAlone(setup, file, s'.runners[i]) {
      if i == r {
        CommitIsAlone(setup, s, r);
      } else {
        assert keys[i] == s.runners[i].key && SameRecord(s'.runners[i], s.runners[i]);
        SavedFileOf(setup, s, r, keys[i]);
      }
    }
    forall key | key !in keys ensures StoredOf(setup, file, key) == StartOf(setup, key) {
      SavedFileOf(setup, s, r, key);
    }
  }

  lemma IsolationFrame(setup: Setup, keys: seq<string>, s: System, s': System)
    requires Isolated(setup, keys, s) && |s'.runners| == |s.runners| && s'.disk.current == s.disk.current
    requires forall i | 0 <= i < |s.runners| :: SameRecord(s'.runners[i], s.runners[i])
    ensures Isolated(setup, keys, s')
  {
    forall i | 0 <= i < |s.runners| ensures AsIfAlone(setup, s'.disk.current, s'.runners[i]) {
      assert SameRecord(s'.runners[i], s.runners[i]) && AsIfAlone(setup, s.disk.current, s.runners[i]);
    }
  }

  lemma SaveKeepsIsolation(setup: Setup, keys: seq<string>, s: System, r: nat, dirSynced: bool)
    requires GoodSetup(setup) && DistinctKeys(keys) && Inv(setup, keys, s) && Isolated(setup, keys, s)
    requires Enabled(setup, s, Act(r, Save(dirSynced)))
    ensures Isolated(setup, keys, Next(setup, s, Act(r, Save(dirSynced))))
  {
    CommitKeepsIsolation(setup, keys, s, r, Next(setup, s, Act(r, Save(dirSynced))));
  }

  lemma MoveKeepsIsolation(setup: Setup, keys: seq<string>, s: System, r: nat, action: Action)
    requires Isolated(setup, keys, s) && Enabled(setup, s, Act(r, action)) && !action.Save?
    ensures Isolated(setup, keys, Next(setup, s, Act(r, action)))
  {
    IsolationFrame(setup, keys, s, Next(setup, s, Act(r, action)));
  }

  /** A crash leaves a record as it was, but for a save found to have happened. */
  lemma CrashedRecord(setup: Setup, s: System, found: Option<File>, i: nat)
    requires LockInv(s) && i < |s.runners|
    ensures SameRecord(Crashed(setup, s.runners[i], found),
                       if found in BeingSaved(setup, s) && s.owner == Some(i) then Commit(s.runners[i])
                       else s.runners[i])
  {
  }

  lemma CrashedRecords(setup: Setup, s: System, found: Option<File>)
    requires LockInv(s) && Enabled(setup, s, Crash(found))
    ensures var s' := Next(setup, s, Crash(found));
      && |s'.runners| == |s.runners|
      && (found in BeingSaved(setup, s) ==> SameRecord(s'.runners[s.owner.value], Commit(s.runners[s.owner.value])))
      && (forall i | 0 <= i < |s.runners| && (found !in BeingSaved(setup, s) || i != s.owner.value) ::
            SameRecord(s'.runners[i], s.runners[i]))
  {
    var s' := Next(setup, s, Crash(found));
    forall i | 0 <= i < |s.runners|
      ensures SameRecord(s'.runners[i],
                         if found in BeingSaved(setup, s) && s.owner == Some(i) then Commit(s.runners[i])
                       else s.runners[i])
    {
      CrashedRecord(setup, s, found, i);
    }
  }

  lemma KillKeepsIsolation(setup: Setup, keys: seq<string>, s: System, renamed: bool)
    requires GoodSetup(setup) && DistinctKeys(keys) && Inv(setup, keys, s) && Isolated(setup, keys, s)
    requires Enabled(setup, s, Kill(renamed))
    ensures Isolated(setup, keys, Next(setup, s, Kill(renamed)))
  {
    var s' := Next(setup, s, Kill(renamed));
    if renamed {
      KilledRecords(setup, s);
      CommitKeepsIsolation(setup, keys, s, s.owner.value, s');
    } else {
      IsolationFrame(setup, keys, s, s');
    }
  }

  /** Only the runner inside the lock can be saving. */
  lemma KilledRecord(s: System, i: nat)
    requires LockInv(s) && i < |s.runners| && s.owner != Some(i)
    ensures SameRecord(Killed(s.runners[i], true), s.runners[i])
  {
  }

  lemma KilledRecords(setup: Setup, s: System)
    requires LockInv(s) && Enabled(setup, s, Kill(true))
    ensures var s' := Next(setup, s, Kill(true));
      && |s'.runners| == |s.runners|
      && SameRecord(s'.runners[s.owner.value], Commit(s.runners[s.owner.value]))
      && forall i | 0 <= i < |s.runners| && i != s.owner.value :: SameRecord(s'.runners[i], s.runners[i])
  {
    forall i | 0 <= i < |s.runners| && i != s.owner.value
      ensures SameRecord(Next(setup, s, Kill(true)).runners[i], s.runners[i])
    {
      KilledRecord(s, i);
    }
  }

  /** A crash that finds the current file, or the one being saved. */
  lemma CrashKeepsIsolation(setup: Setup, keys: seq<string>, s: System, found: Option<File>)
    requires GoodSetup(setup) && DistinctKeys(keys) && Inv(setup, keys, s) && Isolated(setup, keys, s)
    requires found in {s.disk.current} + BeingSaved(setup, s) && Enabled(setup, s, Crash(found))
    ensures Isolated(setup, keys, Next(setup, s, Crash(found)))
  {
    var s' := Next(setup, s, Crash(found));
    CrashedRecords(setup, s, found);
    if found in BeingSaved(setup, s) {
      CommitKeepsIsolation(setup, keys, s, s.owner.value, s');
    } else {
      IsolationFrame(setup, keys, s, s');
    }
  }

  /** While saves are synced the directory can show the current file only. */
  lemma {:induction false} SyncedDisk(setup: Setup, keys: seq<string>, steps: seq<Step>, s: System)
    requires Reached(setup, keys, steps, s) && !Unsynced(steps)
    ensures s.disk.revertible == {s.disk.current}
    decreases |steps|
  {
    if steps != [] {
      var before := Predecessor(setup, keys, steps, s);
      var last := steps[|steps| - 1];
      if last.Kill? || (last.Act? && !last.action.Save?) {
        SyncedDisk(setup, keys, steps[..|steps| - 1], before);
      }
    }
  }

  lemma {:induction false} SyncedRunIsIsolated(setup: Setup, keys: seq<string>, steps: seq<Step>, s: System)
    requires GoodSetup(setup) && DistinctKeys(keys)
    requires Reached(setup, keys, steps, s) && CrashesSynced(steps)
    ensures Isolated(setup, keys, s)
    decreases |steps|
  {
    if steps == [] {
      InitialInv(setup, s);
    } else {
      var init := steps[..|steps| - 1];
      var before := Predecessor(setup, keys, steps, s);
      ReachedInv(setup, keys, init, before);
      SyncedRunIsIsolated(setup, keys, init, before);
      match steps[|steps| - 1]
      case Kill(renamed) =>
        KillKeepsIsolation(setup, keys, before, renamed);
      case Crash(found) =>
        SyncedDisk(setup, keys, init, before);
        CrashKeepsIsolation(setup, keys, before, found);
      case Act(r, action) =>
        if action.Save? {
          SaveKeepsIsolation(setup, keys, before, r, action.dirSynced);
        } else {
          MoveKeepsIsolation(setup, keys, before, r, action);
        }
    }
  }

  lemma OneMoreStep(setup: Setup, keys: seq<string>, steps: seq<Step>, s: System, step: Step)
    requires Reached(setup, keys, steps, s) && Enabled(setup, s, step)
    ensures Reached(setup, keys, steps + [step], Next(setup, s, step))
  {
    var all := steps + [step];
    assert all[..|all| - 1] == steps && all[|all| - 1] == step;
    assert Reached(setup, keys, all[..|all| - 1], s);
  }

  // ----- Theorems -----

  /**
   What isolation gives each stack: its stored snapshot and its batches are what its
   runner would have stored and sent alone, from its own saved cycles; keys of no
   runner are untouched.
   */
  lemma RunnersAreIsolated(setup: Setup, keys: seq<string>, steps: seq<Step>, s: System, i: nat)
    requires GoodSetup(setup) && DistinctKeys(keys)
    requires Reached(setup, keys, steps, s) && CrashesSynced(steps) && i < |keys|
    ensures |s.runners| == |keys| && s.runners[i].key == keys[i]
    ensures StoredOf(setup, s.disk.current, keys[i]) == After(StartOf(setup, keys[i]), s.runners[i].committed, setup.n)
    ensures s.runners[i].batches == Batches(StartOf(setup, keys[i]), s.runners[i].committed, setup.n)
    ensures forall key | key !in keys :: StoredOf(setup, s.disk.current, key) == StartOf(setup, key)
  {
    ReachedInv(setup, keys, steps, s);
    SyncedRunIsIsolated(setup, keys, steps, s);
    assert Keys(s)[i] == keys[i];
  }

  /** In every run at most one runner is inside the lock, and it works on what is on the disk. */
  lemma LockIsExclusive(setup: Setup, keys: seq<string>, steps: seq<Step>, s: System, i: nat, j: nat)
    requires GoodSetup(setup) && Reached(setup, keys, steps, s)
    requires i < |s.runners| && j < |s.runners| && i != j
    ensures !(HoldsLock(s.runners[i].phase) && HoldsLock(s.runners[j].phase))
    ensures PhaseInv(setup, s.disk.current, s.runners[i])
  {
    ReachedInv(setup, keys, steps, s);
  }

  lemma {:induction false} OwedIsSound(batches: seq<Alerts>, lost: set<nat>, upto: nat)
    requires upto <= |batches|
    ensures forall d | d in Owed(batches, lost, upto) ::
              d.index < upto && d.index !in lost && d.batch == batches[d.index] && d.batch != []
  {
    if upto > 0 {
      OwedIsSound(batches, lost, upto - 1);
    }
  }

  lemma {:induction false} OwedIsComplete(batches: seq<Alerts>, lost: set<nat>, upto: nat)
    requires upto <= |batches|
    ensures forall b: nat | b < upto && batches[b] != [] && b !in lost ::
              Delivery(b, batches[b]) in Owed(batches, lost, upto)
  {
    if upto > 0 {
      OwedIsComplete(batches, lost, upto - 1);
    }
  }

  /** Each index at most once, in order, and below the bound. */
  predicate InOrder(owed: seq<Delivery>, upto: nat) {
    && (forall k | 0 <= k < |owed| :: owed[k].index < upto)
    && (forall j, k | 0 <= j < k < |owed| :: owed[j].index < owed[k].index)
  }

  lemma {:induction false} OwedIsOrdered(batches: seq<Alerts>, lost: set<nat>, upto: nat)
    requires upto <= |batches|
    ensures InOrder(Owed(batches, lost, upto), upto)
  {
    if upto > 0 {
      OwedIsOrdered(batches, lost, upto - 1);
    }
  }

  /** What a log in order says of the deliveries. */
  lemma LogFacts(r: Runner)
    requires LogInv(r)
    ensures |r.batches| == |r.committed|
    ensures forall d | d in r.delivered ::
              d.index < |r.batches| && d.batch == r.batches[d.index] && d.batch != [] && d.index !in r.lost
    ensures forall j, k | 0 <= j < k < |r.delivered| :: r.delivered[j].index < r.delivered[k].index
    ensures forall b: nat | b < |r.batches| && r.batches[b] != [] && b !in r.lost
              && !(InFlight(r.phase) && b == |r.batches| - 1) ::
              Delivery(b, r.batches[b]) in r.delivered
  {
    OwedIsSound(r.batches, r.lost, Closed(r));
    OwedIsComplete(r.batches, r.lost, Closed(r));
    OwedIsOrdered(r.batches, r.lost, Closed(r));
  }

  /**
   Persist before notify, at most once, in every run whatever its crashes find:
   whatever was handed to the notifier belongs to a cycle whose save had succeeded,
   is exactly the batch of that save, and no save's batch is handed over twice.
   Conversely every batch of a saved cycle that is neither lost to a kill or crash nor still
   under way was handed over.
   */
  lemma DeliveredOnceAndOnlyAfterSave(setup: Setup, keys: seq<string>, steps: seq<Step>, s: System, i: nat)
    requires GoodSetup(setup) && Reached(setup, keys, steps, s) && i < |s.runners|
    ensures var r := s.runners[i];
      && |r.batches| == |r.committed|
      && (forall d | d in r.delivered ::
            d.index < |r.batches| && d.batch == r.batches[d.index] && d.batch != [] && d.index !in r.lost)
      && (forall j, k | 0 <= j < k < |r.delivered| :: r.delivered[j].index < r.delivered[k].index)
      && (forall b: nat | b < |r.batches| && r.batches[b] != [] && b !in r.lost
          && !(InFlight(r.phase) && b == |r.batches| - 1) ::
            Delivery(b, r.batches[b]) in r.delivered)
  {
    ReachedInv(setup, keys, steps, s);
    LogFacts(s.runners[i]);
  }

  /** A kill or crash loses at most the one batch a runner has under way. */
  lemma KillLosesAtMostOne(r: Runner, renamed: bool)
    ensures |Killed(r, renamed).lost| <= |r.lost| + 1
  {
  }

  /** Only kills and crashes lose batches, and each loses at most one of a runner. */
  lemma {:induction false} LossesAreBoundedByCrashes(setup: Setup, keys: seq<string>, steps: seq<Step>, s: System,
                                                     i: nat)
    requires Reached(setup, keys, steps, s) && i < |s.runners|
    ensures |s.runners[i].lost| <= CrashCount(steps)
    decreases |steps|
  {
    if steps == [] {
      assert s.runners[i] in s.runners;
    } else {
      var before := Predecessor(setup, keys, steps, s);
      LossesAreBoundedByCrashes(setup, keys, steps[..|steps| - 1], before, i);
      var last := steps[|steps| - 1];
      if !last.Act? {
        KillLosesAtMostOne(before.runners[i], true);
        KillLosesAtMostOne(before.runners[i], false);
      }
    }
  }
}
