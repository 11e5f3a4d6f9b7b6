/** internal/runner/runner.go: the runner's own methods over its fields. */
module Runner {
  import opened Wrappers
  import opened Names
  import opened Compose
  import opened Swarm
  import opened Health
  import opened State
  import opened Transition
  import opened Debounce
  import opened FileStore
  import opened Persistence
  import opened DesiredCache
  import opened Polling
  import opened Config

  /** What the notifier was given, in order; whether it succeeds is not looked at. */
  class Notifier {
    var calls: seq<(string, seq<ServiceTransition>)>

    constructor ()
      ensures calls == []
    {
      calls := [];
    }

    method Notify(stack: string, transitions: seq<ServiceTransition>)
      modifies this
      ensures calls == old(calls) + [(stack, transitions)]
    {
      calls := calls + [(stack, transitions)];
    }
  }

  datatype CycleError = RefreshFailed(refresh: RefreshError) | ActualStateFailed | EvaluationFailed(store: StoreError)

  class Runner {
    const reader: Reader
    const stackName: string
    const alertStabilizationCycles: int
    const store: Store
    const notifier: Notifier
    var composeETag: string
    var composeHash: string
    var lastDesiredState: Option<DesiredState>
    var lastActualState: Option<ActualState>

    constructor (reader: Reader, stackName: string, cycles: int, store: Store, notifier: Notifier)
      ensures this.reader == reader && this.stackName == stackName && alertStabilizationCycles == cycles
      ensures this.store == store && this.notifier == notifier
      ensures CacheNow() == EMPTY_CACHE && lastActualState == None
    {
      this.reader, this.stackName, this.alertStabilizationCycles := reader, stackName, cycles;
      this.store, this.notifier := store, notifier;
      composeETag, composeHash, lastDesiredState, lastActualState := "", "", None, None;
    }

    /** The cached part of the runner. */
    function CacheNow(): Cache
      reads this
    {
      Cache(composeETag, composeHash, lastDesiredState)
    }

    /** The first half of defaultRunOnce. */
    method RefreshDesiredState(outcome: FetchOutcome) returns (error: Option<RefreshError>)
      modifies this`composeETag, this`composeHash, this`lastDesiredState
      ensures CacheNow() == Refreshed(reader, old(CacheNow()), outcome)
      ensures error == RefreshFails(reader, old(CacheNow()), outcome)
      ensures composeETag == if !outcome.FetchFailed? && outcome.etag != "" then outcome.etag else old(composeETag)
      ensures outcome.FetchFailed? ==> error == Some(FetchError)
      ensures outcome.Fetched? && outcome.body == "" ==> error == Some(FingerprintError)
    {
      if outcome.FetchFailed? {
        return Some(FetchError);
      }
      if outcome.etag != "" {
        composeETag := outcome.etag;
      }
      if outcome.Fetched? {
        if outcome.body == "" {
          return Some(FingerprintError);
        }
        var fingerprint := reader.fingerprint(outcome.body);
        if fingerprint != composeHash {
          composeHash := fingerprint;
          var desiredState := reader.parse(outcome.body);
          if desiredState.None? {
            return Some(ParseFailed);
          }
          lastDesiredState := desiredState;
        }
      }
      return None;
    }

    /** One service's pass through the loop of stabilizeTransitions. */
    method StabilizeService(firstRun: bool, prev: Option<ServiceHealth>, current: ServiceHealth, stabilization: int)
      returns (service: ServiceHealth, shouldNotify: bool)
      requires stabilization >= 1
      ensures service == Counted(prev, current)
      ensures shouldNotify == Eligible(firstRun, prev, current, stabilization)
    {
      var consecutive := 1;
      if prev.Some? && prev.value.status == current.status {
        if prev.value.consecutiveCycles > 0 {
          consecutive := prev.value.consecutiveCycles + 1;
        } else {
          consecutive := 2;
        }
      }
      var lastNotified := if prev.Some? then prev.value.lastNotifiedStatus else None;
      if lastNotified == None && prev.Some? {
        lastNotified := Some(prev.value.status);
      }
      service := current.(consecutiveCycles := consecutive, lastNotifiedStatus := lastNotified);
      shouldNotify := false;
      if firstRun {
        shouldNotify := service.status != OK;
      } else if Some(service.status) != lastNotified {
        shouldNotify := stabilization <= 1 || consecutive >= stabilization;
      }
    }

    /** The loop of stabilizeTransitions: fills both maps, in any order. */
    method StabilizeServices(prev: Option<StackSnapshot>, current: StackHealth, stabilization: int)
      returns (updatedServices: map<string, ServiceHealth>, eligibleServices: map<string, ServiceHealth>)
      requires stabilization >= 1
      ensures updatedServices == UpdatedServices(prev, current.services, stabilization)
      ensures eligibleServices == EligibleServices(prev, current.services, stabilization)
    {
      var prevServices := if prev.Some? then prev.value.services else map[];
      var firstRun := prev.None? || |prevServices| == 0;
      ghost var allUpdated := UpdatedServices(prev, current.services, stabilization);
      ghost var allEligible := EligibleServices(prev, current.services, stabilization);
      updatedServices, eligibleServices := map[], map[];
      var todo := current.services.Keys;
      while todo != {}
        invariant todo <= current.services.Keys
        invariant updatedServices == allUpdated - todo
        invariant eligibleServices == allEligible - todo
      {
        var name :| name in todo;
        var prevService := if name in prevServices then Some(prevServices[name]) else None;
        var service, shouldNotify := StabilizeService(firstRun, prevService, current.services[name], stabilization);
        MapsOfName(prev, current.services, stabilization, name);
        VisitKey(allUpdated, todo, name);
        VisitKey(allEligible, todo, name);
        if shouldNotify {
          eligibleServices := eligibleServices[name := service];
          service := service.(lastNotifiedStatus := Some(service.status));
        }
        updatedServices := updatedServices[name := service];
        todo := todo - {name};
      }
      assert allUpdated - {} == allUpdated && allEligible - {} == allEligible;
    }

    /** Stabilises every service, then runs the second detector on the eligible ones. */
    method StabilizeTransitions(prev: Option<StackSnapshot>, current: StackHealth)
      returns (updatedServices: map<string, ServiceHealth>, transitions: seq<ServiceTransition>)
      ensures updatedServices == UpdatedServices(prev, current.services, Window(alertStabilizationCycles))
      ensures transitions == Batch(prev, current.services, Window(alertStabilizationCycles))
      ensures alertStabilizationCycles >= 1 ==>
                && updatedServices == UpdatedServices(prev, current.services, alertStabilizationCycles)
                && transitions == Batch(prev, current.services, alertStabilizationCycles)
      ensures alertStabilizationCycles <= 0 ==>
                && updatedServices == UpdatedServices(prev, current.services, 1)
                && transitions == Batch(prev, current.services, 1)
    {
      var stabilization := alertStabilizationCycles;
      if stabilization <= 0 {
        stabilization := 1;
      }
      var eligibleServices;
      updatedServices, eligibleServices := StabilizeServices(prev, current, stabilization);
      transitions := DetectServiceTransitions(prev, eligibleServices);
    }

    /** What this runner brings to an evaluation at time `now`. */
    function CycleNow(now: int): Cycle
      requires lastDesiredState.Some?
      reads this
    {
      Cycle(EvaluatedStack(lastDesiredState.value, lastActualState, stackName != "").services, composeHash, now)
    }

    /** The function evaluateAndPersist runs while it holds the state lock. */
    method PersistUnderLock(stackKey: string, stackHealth: StackHealth, now: int,
                            loadFault: LoadFault, saveFault: SaveFault, dirSyncFails: bool)
      returns (error: Option<StoreError>, transitions: seq<ServiceTransition>)
      requires Clean(store.disk)
      modifies store`disk, store`trace
      ensures Clean(store.disk)
      ensures error.Some? ==> store.disk == old(store.disk)
      ensures error.None? <==> saveFault == NoSaveFault && Loads(loadFault, old(store.disk))
      ensures error.None? ==>
                var cycle, n := Cycle(stackHealth.services, composeHash, now), Window(alertStabilizationCycles);
                && transitions == NextBatch(store.codec, old(store.disk.current), stackKey, cycle, n)
                && var file := NextFile(store.codec, old(store.disk.current), stackKey, cycle, n);
                   store.disk == Installed(old(store.disk), file, !dirSyncFails)
    {
      transitions := [];
      var loaded := store.Load(loadFault);
      if loaded.Err? {
        return Some(loaded.error), transitions;
      }
      var state := loaded.value;
      var stacks := if state.stacks.Some? then state.stacks.value else map[];
      var snapshot := if stackKey in stacks then Some(stacks[stackKey]) else None;
      var updatedServices;
      updatedServices, transitions := StabilizeTransitions(snapshot, stackHealth);
      assert state == LoadOf(store.codec, store.disk.current);
      assert snapshot == Stack(state, stackKey);
      state := state.(stacks := Some(stacks[stackKey := StackSnapshot(composeHash, updatedServices, now)]));
      error := store.Save(state, saveFault, dirSyncFails);
    }

    /** The rest of evaluateAndPersist, for grades already computed. */
    method PersistAndNotify(stackHealth: StackHealth, now: int, loadFault: LoadFault, saveFault: SaveFault,
                            dirSyncFails: bool)
      returns (error: Option<StoreError>)
      requires Clean(store.disk)
      modifies store`disk, store`trace, notifier
      ensures Clean(store.disk)
      ensures error.Some? ==> store.disk == old(store.disk) && notifier.calls == old(notifier.calls)
      ensures error.None? <==> saveFault == NoSaveFault && Loads(loadFault, old(store.disk))
      ensures error.None? ==> Evaluated(old(store.disk), !dirSyncFails, old(notifier.calls),
                                        Cycle(stackHealth.services, composeHash, now))
    {
      var stackKey := if stackName != "" then stackName else "default";
      var transitions;
      error, transitions := PersistUnderLock(stackKey, stackHealth, now, loadFault, saveFault, dirSyncFails);
      if error.Some? {
        return error;
      }
      if |transitions| > 0 {
        notifier.Notify(stackKey, transitions);
      }
    }

    /**
     One evaluation has happened: the file holds the loaded state with this stack
     brought up to date, and the notifier was given exactly the batch of that
     snapshot, once, if it is not empty.
     */
    ghost predicate Evaluated(diskBefore: Disk, dirSynced: bool, callsBefore: seq<(string, seq<ServiceTransition>)>,
                              cycle: Cycle)
      reads this, store, notifier
    {
      var key := if stackName == "" then "default" else stackName;
      var n := if alertStabilizationCycles >= 1 then alertStabilizationCycles else 1;
      var batch := NextBatch(store.codec, diskBefore.current, key, cycle, n);
      && store.disk == Installed(diskBefore, NextFile(store.codec, diskBefore.current, key, cycle, n), dirSynced)
      && notifier.calls == callsBefore + (if batch == [] then [] else [(key, batch)])
    }

    /**
     Grade the stack, then under the lock load, change this stack's entry and save;
     then notify. When the load or the save fails the file is as before and nothing
     was sent.
     */
    method EvaluateAndPersist(now: int, loadFault: LoadFault, saveFault: SaveFault, dirSyncFails: bool)
      returns (error: Option<StoreError>)
      requires lastDesiredState.Some? && Clean(store.disk)
      modifies store`disk, store`trace, notifier
      ensures Clean(store.disk)
      ensures error.Some? ==> store.disk == old(store.disk) && notifier.calls == old(notifier.calls)
      ensures error.None? <==> saveFault == NoSaveFault && Loads(loadFault, old(store.disk))
      ensures error.None? ==> Evaluated(old(store.disk), !dirSyncFails, old(notifier.calls), CycleNow(now))
    {
      var stackHealth := EvaluateStackHealth(lastDesiredState.value, lastActualState, stackName != "");
      assert Cycle(stackHealth.services, composeHash, now) == CycleNow(now);
      error := PersistAndNotify(stackHealth, now, loadFault, saveFault, dirSyncFails);
    }

    /**
     defaultRunOnce with a fetcher, a client and a store: refresh, collect, evaluate.
     A failed refresh or collection evaluates nothing; without a desired state only
     the actual state is collected.
     */
    method RunOnce(outcome: FetchOutcome, actual: Result<ActualState, ()>, now: int,
                   loadFault: LoadFault, saveFault: SaveFault, dirSyncFails: bool)
      returns (error: Option<CycleError>)
      requires Clean(store.disk)
      modifies this, store`disk, store`trace, notifier
      ensures Clean(store.disk)
      ensures CacheNow() == Refreshed(reader, old(CacheNow()), outcome)
      ensures RefreshFails(reader, old(CacheNow()), outcome).Some? || actual.Err? ==>
                error.Some? && lastActualState == old(lastActualState)
      ensures RefreshFails(reader, old(CacheNow()), outcome).None? && actual.Ok? ==>
                lastActualState == Some(actual.value)
      ensures error.None? <==>
                && RefreshFails(reader, old(CacheNow()), outcome).None? && actual.Ok?
                && (lastDesiredState.Some? ==> saveFault == NoSaveFault && Loads(loadFault, old(store.disk)))
      ensures RefreshFails(reader, old(CacheNow()), outcome).Some? ==>
                error == Some(RefreshFailed(RefreshFails(reader, old(CacheNow()), outcome).value))
      ensures RefreshFails(reader, old(CacheNow()), outcome).None? && actual.Err? ==> error == Some(ActualStateFailed)
      ensures error.Some? || lastDesiredState.None? ==>
                store.disk == old(store.disk) && notifier.calls == old(notifier.calls)
      ensures error.None? && lastDesiredState.Some? ==>
                Evaluated(old(store.disk), !dirSyncFails, old(notifier.calls), CycleNow(now))
    {
      var refreshError := RefreshDesiredState(outcome);
      if refreshError.Some? {
        return Some(RefreshFailed(refreshError.value));
      }
      if actual.Err? {
        return Some(ActualStateFailed);
      }
      lastActualState := Some(actual.value);
      if lastDesiredState.Some? {
        var evaluationError := EvaluateAndPersist(now, loadFault, saveFault, dirSyncFails);
        if evaluationError.Some? {
          return Some(EvaluationFailed(evaluationError.value));
        }
      }
      return None;
    }

    /** The file holds these cycles of this runner's stack, and their batches were sent. */
    ghost predicate HasRun(run: RunStart, cycles: seq<Cycle>)
      reads this, store, notifier
    {
      var key := if stackName == "" then "default" else stackName;
      var n := if alertStabilizationCycles >= 1 then alertStabilizationCycles else 1;
      RunHolds(store.codec, key, n, run, store.disk.current, notifier.calls, cycles)
    }

    /** What a run finds. */
    ghost function StartNow(): RunStart
      reads this, store, notifier
    {
      var key := if stackName == "" then "default" else stackName;
      RunStart(Stack(LoadOf(store.codec, store.disk.current), key), store.disk.current.Some?, notifier.calls)
    }

    /**
     The loop of Run, from a start until it is stopped: a failed cycle is logged, and the
     next tick tries again.
     */
    method Run(polls: seq<Poll>)
      requires Clean(store.disk) && RoundTrips(store.codec) && CacheNow() == EMPTY_CACHE
      modifies this, store`disk, store`trace, notifier
      ensures Clean(store.disk)
      ensures CacheNow() == CacheAfter(reader, Exchanges(polls))
      ensures HasRun(old(StartNow()), Evaluations(reader, stackName != "", old(StartNow()).hadFile, polls))
      ensures old(notifier.calls) <= notifier.calls
      ensures old(StartNow()).stored == None && alertStabilizationCycles >= 1 ==>
                SentAreHeld(notifier.calls[|old(notifier.calls)|..],
                            Evaluations(reader, stackName != "", old(StartNow()).hadFile, polls),
                                alertStabilizationCycles)
    {
      ghost var run := StartNow();
      RunBegins(store.codec, StackKey(stackName), Window(alertStabilizationCycles), store.disk.current, notifier.calls);
      for i := 0 to |polls|
        invariant Clean(store.disk)
        invariant CacheNow() == CacheAfter(reader, Exchanges(polls[..i]))
        invariant HasRun(run, Evaluations(reader, stackName != "", run.hadFile, polls[..i]))
      {
        OneMoreTick(reader, stackName != "", run.hadFile, polls, i);
        Tick(polls[i], run, Evaluations(reader, stackName != "", run.hadFile, polls[..i]));
      }
      assert polls[..|polls|] == polls;
      if alertStabilizationCycles >= 1 {
        RunSendsHeld(store.codec, StackKey(stackName), alertStabilizationCycles, run, store.disk.current,
                     notifier.calls,
                     Evaluations(reader, stackName != "", run.hadFile, polls));
      }
    }

    /** One tick of the loop. */
    method Tick(poll: Poll, ghost run: RunStart, ghost done: seq<Cycle>)
      requires Clean(store.disk) && RoundTrips(store.codec) && HasRun(run, done)
      modifies this, store`disk, store`trace, notifier
      ensures Clean(store.disk)
      ensures CacheNow() == Refreshed(reader, old(CacheNow()), OutcomeOf(poll.exchange))
      ensures HasRun(run, NextEvaluations(reader, stackName != "", run.hadFile, old(CacheNow()), done, poll))
    {
      ghost var calls := notifier.calls;
      ghost var next := NextEvaluations(reader, stackName != "", run.hadFile, CacheNow(), done, poll);
      ghost var before, cache := store.disk, CacheNow();
      var error := RunOnce(OutcomeOf(poll.exchange), poll.actual, poll.now, poll.loadFault, poll.saveFault,
                           poll.dirSyncFails);
      assert CacheNow() == Refreshed(reader, cache, OutcomeOf(poll.exchange));
      assert Saves(poll, run.hadFile || done != []) <==>
             poll.saveFault == NoSaveFault && Loads(poll.loadFault, before);
      if error.None? && lastDesiredState.Some? {
        assert lastActualState == Some(poll.actual.value);
        ghost var key, n := StackKey(stackName), Window(alertStabilizationCycles);
        assert next == done + [CycleNow(poll.now)];
        RunGrows(store.codec, key, n, run, before.current, calls, done, CycleNow(poll.now));
      } else {
        assert next == done;
      }
    }
  }
}
