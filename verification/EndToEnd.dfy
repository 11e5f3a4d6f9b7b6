/**
 The pieces together: what operators receive, in any run of the whole process with
 interleaved runners, failures and crashes, against the history of each stack.
 */
module EndToEnd {
  import opened Wrappers
  import opened Names
  import opened Compose
  import opened DockerClient
  import opened Health
  import opened State
  import opened Transition
  import opened Debounce
  import opened History
  import opened Lifetimes
  import opened FileStore
  import opened Config
  import opened Schedule
  import opened Durability
  import opened Cycles

  /** A process started without a state file, for the stacks of a valid mapping file. */
  ghost predicate MappedRun(setup: Setup, mappings: seq<StackMapping>, steps: seq<Step>, s: System) {
    && GoodSetup(setup) && setup.start == None && setup.n >= 1
    && DistinctNames(mappings) && (forall i | 0 <= i < |mappings| :: mappings[i].name != "")
    && Reached(setup, MappedKeys(mappings), steps, s)
  }

  /** What was saved with a cycle is what the stack's history calls for. */
  lemma BatchesAreHistory(setup: Setup, mappings: seq<StackMapping>, steps: seq<Step>, s: System, i: nat)
    requires MappedRun(setup, mappings, steps, s) && CrashesSynced(steps) && i < |s.runners|
    ensures s.runners[i].batches == Batches(None, s.runners[i].committed, setup.n)
  {
    MappedKeysAreDistinct(mappings);
    ReachedInv(setup, MappedKeys(mappings), steps, s);
    RunnersAreIsolated(setup, MappedKeys(mappings), steps, s, i);
  }

  /**
   Soundness: every alert handed to a notifier is one the stack's own history calls
   for, in the cycle it was saved, with the contents that history determines.
   */
  lemma DeliveredAlertsAreSpecified(setup: Setup, mappings: seq<StackMapping>, steps: seq<Step>, s: System,
                                    i: nat, d: Delivery, a: ServiceTransition)
    requires MappedRun(setup, mappings, steps, s) && CrashesSynced(steps) && i < |s.runners|
    requires d in s.runners[i].delivered && a in d.batch
    ensures d.index < |s.runners[i].committed|
    ensures Alerted(s.runners[i].committed, a.name, d.index, setup.n)
    ensures a == AlertFor(s.runners[i].committed, a.name, d.index, setup.n)
  {
    BatchesAreHistory(setup, mappings, steps, s, i);
    DeliveredOnceAndOnlyAfterSave(setup, MappedKeys(mappings), steps, s, i);
    BatchIsSpecified(s.runners[i].committed, setup.n, d.index);
  }

  /**
   Completeness: every alert a stack's history calls for has been handed over, unless
   its cycle is still under way or is one of those whose batch was lost; and each kill
   or crash loses at most one of those.
   */
  lemma SpecifiedAlertsAreDelivered(setup: Setup, mappings: seq<StackMapping>, steps: seq<Step>, s: System,
                                    i: nat, name: string, t: nat)
    requires MappedRun(setup, mappings, steps, s) && CrashesSynced(steps) && i < |s.runners|
    requires var r := s.runners[i];
      && t < |r.committed| && Alerted(r.committed, name, t, setup.n)
      && t !in r.lost && !(InFlight(r.phase) && t == |r.committed| - 1)
    ensures exists d :: d in s.runners[i].delivered && d.index == t
              && AlertFor(s.runners[i].committed, name, t, setup.n) in d.batch
    ensures |s.runners[i].lost| <= CrashCount(steps)
  {
    var r := s.runners[i];
    BatchesAreHistory(setup, mappings, steps, s, i);
    DeliveredOnceAndOnlyAfterSave(setup, MappedKeys(mappings), steps, s, i);
    LossesAreBoundedByCrashes(setup, MappedKeys(mappings), steps, s, i);
    BatchIsSpecified(r.committed, setup.n, t);
    assert AlertFor(r.committed, name, t, setup.n) in r.batches[t];
    assert Delivery(t, r.batches[t]) in r.delivered;
  }

  // ----- No false alarm -----

  predicate AllOK(cycle: Cycle) {
    forall name | name in cycle.services :: cycle.services[name].status == OK
  }

  /** Nothing but OK is stored or was ever announced. */
  predicate StoredOK(stored: Option<StackSnapshot>) {
    stored.Some? ==>
      forall name | name in stored.value.services ::
        stored.value.services[name].status == OK && stored.value.services[name].lastNotifiedStatus in {None, Some(OK)}
  }

  lemma OKStep(prev: Option<StackSnapshot>, cycle: Cycle, n: int)
    requires StoredOK(prev) && AllOK(cycle)
    ensures Batch(prev, cycle.services, n) == []
    ensures StoredOK(Some(Snapshot(prev, cycle, n)))
  {
    forall name | name in cycle.services
      ensures name !in Debounce.Alerts(prev, cycle.services, n)
      ensures UpdatedServices(prev, cycle.services, n)[name].status == OK
      ensures UpdatedServices(prev, cycle.services, n)[name].lastNotifiedStatus in {None, Some(OK)}
    {
      AlertOfName(prev, cycle.services, n, name);
    }
    BatchHasAlerts(prev, cycle.services, n);
  }

  lemma {:induction false} OKCycles(cycles: seq<Cycle>, n: int, stored: Option<StackSnapshot>)
    requires FromSome(None, cycles, n, stored) && forall c | c in cycles :: AllOK(c)
    ensures StoredOK(stored)
  {
    if cycles != [] {
      var init, last := cycles[..|cycles| - 1], cycles[|cycles| - 1];
      assert last in cycles && forall c | c in init :: c in cycles;
      if FromSome(None, init, n, stored) {
        OKCycles(init, n, stored);
      } else {
        var prev :| FromSome(None, init, n, prev) && stored == Some(Snapshot(prev, last, n));
        OKCycles(init, n, prev);
        OKStep(prev, last, n);
      }
    }
  }

  /** A runner that has seen only OK cycles and has no batch to send. */
  ghost predicate Quiet(r: Runner) {
    && (HasCycle(r.phase) ==> AllOK(r.phase.cycle))
    && (r.phase.Saving? ==> r.phase.batch == [])
    && (forall c | c in r.committed :: AllOK(c))
    && (forall b | b in r.batches :: b == [])
  }

  lemma QuietMove(setup: Setup, s: System, r: nat, action: Action)
    requires Enabled(setup, s, Act(r, action)) && Quiet(s.runners[r])
    requires PhaseInv(setup, s.disk.current, s.runners[r])
              && StoredOK(StoredOf(setup, s.disk.current, s.runners[r].key))
    requires action.Evaluate? ==> AllOK(action.cycle)
    ensures Quiet(Moved(setup, s, s.runners[r], action))
  {
    if action.Compute? {
      OKStep(StoredOf(setup, s.disk.current, s.runners[r].key), s.runners[r].phase.cycle, setup.n);
    }
  }

  lemma QuietKill(r: Runner, renamed: bool)
    requires Quiet(r)
    ensures Quiet(Killed(r, renamed))
  {
  }

  ghost predicate AllQuiet(s: System) {
    forall i | 0 <= i < |s.runners| :: Quiet(s.runners[i])
  }

  lemma QuietStep(setup: Setup, keys: seq<string>, s: System, step: Step)
    requires Inv(setup, keys, s) && OwnInv(setup, keys, s) && setup.start == None
    requires Enabled(setup, s, step) && AllQuiet(s)
    requires step.Act? && step.action.Evaluate? ==> AllOK(step.action.cycle)
    ensures AllQuiet(Next(setup, s, step))
  {
    match step
    case Kill(renamed) =>
      forall i | 0 <= i < |s.runners| ensures Quiet(Killed(s.runners[i], renamed)) {
        QuietKill(s.runners[i], renamed);
      }
    case Crash(found) =>
      forall i | 0 <= i < |s.runners| ensures Quiet(Crashed(setup, s.runners[i], found)) {
        var r := s.runners[i];
        QuietKill(r, r.phase.Saving? && found == Some(Saved(setup.codec, r.phase.next)));
      }
    case Act(r, action) =>
      assert OwnFile(setup, keys, s.runners, s.disk.current);
      OKCycles(s.runners[r].committed, setup.n, StoredOf(setup, s.disk.current, s.runners[r].key));
      QuietMove(setup, s, r, action);
  }

  /** Every evaluation of the run grades every service OK. */
  ghost predicate AllEvaluateOK(steps: seq<Step>) {
    forall step | step in steps && step.Act? && step.action.Evaluate? :: AllOK(step.action.cycle)
  }

  lemma {:induction false} QuietRun(setup: Setup, keys: seq<string>, steps: seq<Step>, s: System)
    requires GoodSetup(setup) && DistinctKeys(keys) && setup.start == None
    requires Reached(setup, keys, steps, s) && AllEvaluateOK(steps)
    ensures AllQuiet(s)
    decreases |steps|
  {
    if steps == [] {
      assert forall i | 0 <= i < |s.runners| :: s.runners[i] in s.runners;
    } else {
      var init, last := steps[..|steps| - 1], steps[|steps| - 1];
      var before := Predecessor(setup, keys, steps, s);
      assert last in steps && forall step | step in init :: step in steps;
      ReachedInv(setup, keys, init, before);
      ReachedOwn(setup, keys, init, before);
      QuietRun(setup, keys, init, before);
      QuietStep(setup, keys, before, last);
    }
  }

  /** Every evaluation of the run found the swarm running what the compose file describes. */
  ghost predicate AllAgree(steps: seq<Step>) {
    forall step | step in steps && step.Act? && step.action.Evaluate? ::
      exists o: Observation ::
          StackAgrees(o.desired, o.actual, true) && step.action.cycle == Lifetimes.Evaluate(o, true)
  }

  /**
   No false alarm: if whenever a runner evaluates its stack the swarm runs what the
   compose file describes, no notifier is ever called, whatever interleaving, failures
   and crashes there are, even crashes that undo a save.
   */
  lemma NoFalseAlarms(setup: Setup, mappings: seq<StackMapping>, steps: seq<Step>, s: System, i: nat)
    requires MappedRun(setup, mappings, steps, s) && AllAgree(steps) && i < |s.runners|
    ensures s.runners[i].delivered == []
  {
    forall step | step in steps && step.Act? && step.action.Evaluate? ensures AllOK(step.action.cycle) {
      var o: Observation :| StackAgrees(o.desired, o.actual, true) && step.action.cycle == Lifetimes.Evaluate(o, true);
      StackOKIffAgrees(o.desired, o.actual, true);
    }
    MappedKeysAreDistinct(mappings);
    QuietRun(setup, MappedKeys(mappings), steps, s);
    DeliveredOnceAndOnlyAfterSave(setup, MappedKeys(mappings), steps, s, i);
    var r := s.runners[i];
    assert forall k | 0 <= k < |r.batches| :: r.batches[k] in r.batches && r.batches[k] == [];
    HeadIsMember(r.delivered);
  }

  // ----- Drift of what is really compared -----

  lemma CollectedHasNameLists(service: Service, stackName: string, tasks: set<Task>)
    ensures NameList(Collected(service, stackName, tasks).configs)
              && NameList(Collected(service, stackName, tasks).secrets)
  {
  }

  function ResolvedSet(refs: seq<string>, defined: map<string, string>): set<string> {
    set s | s in refs && s in defined :: Resolved(s, defined)
  }

  lemma ElementsOfSorted(names: set<string>)
    ensures Elements(SortedNames(names)) == names
  {
  }

  /**
   Drift detection on the lists it is given, those of a parsed compose service and of
   a collected swarm service: exactly the resolved names that no running task has, and
   the names of running tasks that are not resolved ones, each in strict order.
   */
  lemma DriftOfCollectedIsExact(service: ComposeService, project: Project, running: Service, stackName: string,
                                tasks: set<Task>)
    requires Parses(service, project)
    ensures var desired, actual := Parsed(service, project), Collected(running, stackName, tasks);
      var configs := ResolvedSet(service.configRefs, project.configs);
      var secrets := ResolvedSet(service.secretRefs, project.secrets);
      && MissingNames(desired.configs, actual.configs) == SortedNames(configs - ConfigsIn(tasks))
      && ExtraNames(desired.configs, actual.configs) == SortedNames(ConfigsIn(tasks) - configs)
      && MissingNames(desired.secrets, actual.secrets) == SortedNames(secrets - SecretsIn(tasks))
      && ExtraNames(desired.secrets, actual.secrets) == SortedNames(SecretsIn(tasks) - secrets)
  {
    var desired, actual := Parsed(service, project), Collected(running, stackName, tasks);
    ParsedNameLists(service, project);
    CollectedHasNameLists(running, stackName, tasks);
    DriftIsExact(desired.configs, actual.configs);
    DriftIsExact(desired.secrets, actual.secrets);
    ElementsOfSorted(ResolvedSet(service.configRefs, project.configs));
    ElementsOfSorted(ResolvedSet(service.secretRefs, project.secrets));
    ElementsOfSorted(ConfigsIn(tasks));
    ElementsOfSorted(SecretsIn(tasks));
  }
}
