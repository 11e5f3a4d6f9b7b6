/**
 Interleaved runners fed by their own servers: each stack's evaluations come from the
 compose exchanges and swarm answers of its own ticks, through its own cache, which a
 restart of the process empties.
 */
module Fleet {
  import opened Wrappers
  import opened Transition
  import opened Debounce
  import opened History
  import opened FileStore
  import opened DesiredCache
  import opened Polling
  import opened Config
  import opened Schedule
  import opened Durability
  import opened Cycles
  import opened EndToEnd

  // ----- What a stack's ticks evaluate -----

  /** The cycles that one process grades for a stack in these ticks, from its cache. */
  ghost function AttemptsOver(reader: Reader, polls: seq<Poll>): seq<Cycle> {
    if polls == [] then []
    else
      var init, last := polls[..|polls| - 1], polls[|polls| - 1];
      var cache := CacheAfter(reader, Exchanges(init));
      AttemptsOver(reader, init) + if Attempts(reader, cache, last) then [AttemptOf(reader, cache, last, true)] else []
  }

  /** The same, read off the exchanges. */
  ghost function ServedOver(reader: Reader, polls: seq<Poll>): seq<Cycle> {
    if polls == [] then []
    else
      var xs, last := Exchanges(polls), polls[|polls| - 1];
      ServedOver(reader, polls[..|polls| - 1])
      + if ServedAttempt(reader, xs, last) then [ServedCycle(reader, xs, last, true)] else []
  }

  lemma {:induction false} AttemptsAreServed(reader: Reader, tag: Bytes -> string, polls: seq<Poll>)
    requires HonestPolls(reader, tag, polls)
    ensures AttemptsOver(reader, polls) == ServedOver(reader, polls)
    decreases |polls|
  {
    if polls != [] {
      HonestInit(reader, tag, polls);
      AttemptsAreServed(reader, tag, polls[..|polls| - 1]);
      AttemptIsServed(reader, tag, true, polls);
    }
  }

  /** Over the successive processes of a stack. */
  ghost function ServedInAll(reader: Reader, sessions: seq<seq<Poll>>): seq<Cycle> {
    if sessions == [] then []
    else ServedInAll(reader, sessions[..|sessions| - 1]) + ServedOver(reader, sessions[|sessions| - 1])
  }

  // ----- What a run evaluates -----

  /** The cycle that a step makes runner i evaluate, if any. */
  function EvaluationIn(step: Step, i: nat): seq<Cycle> {
    if step.Act? && step.runner == i && step.action.Evaluate? then [step.action.cycle] else []
  }

  /** The cycles that runner i evaluates in these steps. */
  function EvaluatedBy(steps: seq<Step>, i: nat): seq<Cycle> {
    if steps == [] then []
    else EvaluatedBy(steps[..|steps| - 1], i) + EvaluationIn(steps[|steps| - 1], i)
  }

  /** The same, one list for each process; a kill or a crash starts a new one. */
  function SessionsOf(steps: seq<Step>, i: nat): (r: seq<seq<Cycle>>)
    ensures r != []
  {
    if steps == [] then [[]]
    else
      var before, last := SessionsOf(steps[..|steps| - 1], i), steps[|steps| - 1];
      if last.Act? then before[|before| - 1 := before[|before| - 1] + EvaluationIn(last, i)] else before + [[]]
  }

  function Joined<T>(lists: seq<seq<T>>): seq<T> {
    if lists == [] then [] else Joined(lists[..|lists| - 1]) + lists[|lists| - 1]
  }

  lemma JoinedGrows<T>(lists: seq<seq<T>>, more: seq<T>)
    requires lists != []
    ensures Joined(lists[|lists| - 1 := lists[|lists| - 1] + more]) == Joined(lists) + more
    ensures Joined(lists + [[]]) == Joined(lists)
  {
    var last := |lists| - 1;
    assert lists[last := lists[last] + more][..last] == lists[..last];
    assert (lists + [[]])[..|lists|] == lists;
  }

  lemma {:induction false} SessionsJoin(steps: seq<Step>, i: nat)
    ensures Joined(SessionsOf(steps, i)) == EvaluatedBy(steps, i)
  {
    if steps == [] {
      var sessions: seq<seq<Cycle>> := [[]];
      assert sessions[..0] == [];
    } else {
      var init := steps[..|steps| - 1];
      SessionsJoin(init, i);
      JoinedGrows(SessionsOf(init, i), EvaluationIn(steps[|steps| - 1], i));
    }
  }

  /**
   Each stack's evaluations are those of its own ticks: process j of stack i sees the
   ticks polls[i][j], and evaluates exactly those that get as far as grading.
   */
  ghost predicate Fed(reader: Reader, polls: seq<seq<seq<Poll>>>, steps: seq<Step>) {
    forall i: nat | i < |polls| ::
      && |SessionsOf(steps, i)| == |polls[i]|
      && forall j | 0 <= j < |polls[i]| :: SessionsOf(steps, i)[j] == AttemptsOver(reader, polls[i][j])
  }

  /** Each stack has an honest compose server, whose ETags are kept. */
  ghost predicate HonestFeeds(reader: Reader, tags: seq<Bytes -> string>, polls: seq<seq<seq<Poll>>>) {
    |tags| == |polls| && forall i, j | 0 <= i < |polls| && 0 <= j < |polls[i]| ::
        HonestPolls(reader, tags[i], polls[i][j])
  }

  lemma {:induction false} JoinedServed(
    reader: Reader, tag: Bytes -> string, lists: seq<seq<Cycle>>, sessions: seq<seq<Poll>>)
    requires |lists| == |sessions|
    requires forall j | 0 <= j < |sessions| ::
               HonestPolls(reader, tag, sessions[j]) && lists[j] == AttemptsOver(reader, sessions[j])
    ensures Joined(lists) == ServedInAll(reader, sessions)
    decreases |lists|
  {
    if lists != [] {
      var last := |lists| - 1;
      JoinedServed(reader, tag, lists[..last], sessions[..last]);
      AttemptsAreServed(reader, tag, sessions[last]);
    }
  }

  lemma FedIsServed(reader: Reader, tags: seq<Bytes -> string>, polls: seq<seq<seq<Poll>>>, steps: seq<Step>, i: nat)
    requires Fed(reader, polls, steps) && HonestFeeds(reader, tags, polls) && i < |polls|
    ensures EvaluatedBy(steps, i) == ServedInAll(reader, polls[i])
  {
    SessionsJoin(steps, i);
    JoinedServed(reader, tags[i], SessionsOf(steps, i), polls[i]);
  }

  // ----- What a run saves -----

  /** `part` is `whole` with some items left out, in the same order. */
  predicate Within<T(==)>(part: seq<T>, whole: seq<T>) {
    if whole == [] then part == []
    else
      var init := whole[..|whole| - 1];
      || Within(part, init)
      || (part != [] && part[|part| - 1] == whole[|whole| - 1] && Within(part[..|part| - 1], init))
  }

  lemma WithinGrows<T>(part: seq<T>, whole: seq<T>, x: T)
    requires Within(part, whole)
    ensures Within(part, whole + [x]) && Within(part + [x], whole + [x])
  {
    assert (whole + [x])[..|whole|] == whole && (part + [x])[..|part|] == part;
  }

  /** The saved cycles are among the evaluated ones, and one under way is the latest of these. */
  ghost predicate SavedFrom(r: Runner, evaluated: seq<Cycle>) {
    if HasCycle(r.phase) then
      var last := |evaluated| - 1;
      evaluated != [] && evaluated[last] == r.phase.cycle && Within(r.committed, evaluated[..last])
    else Within(r.committed, evaluated)
  }

  /** Saving or dropping the cycle under way. */
  lemma CycleEnds(r: Runner, evaluated: seq<Cycle>)
    requires SavedFrom(r, evaluated) && HasCycle(r.phase)
    ensures Within(r.committed, evaluated) && Within(r.committed + [r.phase.cycle], evaluated)
  {
    var last := |evaluated| - 1;
    assert evaluated == evaluated[..last] + [evaluated[last]];
    WithinGrows(r.committed, evaluated[..last], evaluated[last]);
  }

  lemma MoveSavesFrom(setup: Setup, s: System, r: nat, action: Action, evaluated: seq<Cycle>)
    requires Enabled(setup, s, Act(r, action)) && SavedFrom(s.runners[r], evaluated)
    ensures SavedFrom(Moved(setup, s, s.runners[r], action), evaluated + EvaluationIn(Act(r, action), r))
  {
    assert evaluated + [] == evaluated;
    if action.Evaluate? {
      EvaluateSavesFrom(s.runners[r], action.cycle, evaluated);
    } else if action.FailLoad? || action.FailSave? || action.Save? {
      CycleEnds(s.runners[r], evaluated);
    }
  }

  lemma EvaluateSavesFrom(r: Runner, cycle: Cycle, evaluated: seq<Cycle>)
    requires SavedFrom(r, evaluated) && r.phase.Idle?
    ensures SavedFrom(r.(phase := Waiting(cycle)), evaluated + [cycle])
  {
    assert (evaluated + [cycle])[..|evaluated|] == evaluated;
  }

  lemma KillSavesFrom(r: Runner, renamed: bool, evaluated: seq<Cycle>)
    requires SavedFrom(r, evaluated)
    ensures SavedFrom(Killed(r, renamed), evaluated)
  {
    if HasCycle(r.phase) {
      CycleEnds(r, evaluated);
    }
  }

  lemma StepSavesFrom(setup: Setup, s: System, step: Step, i: nat, evaluated: seq<Cycle>)
    requires Enabled(setup, s, step) && i < |s.runners| && SavedFrom(s.runners[i], evaluated)
    ensures SavedFrom(Next(setup, s, step).runners[i], evaluated + EvaluationIn(step, i))
  {
    assert evaluated + [] == evaluated;
    match step
    case Kill(renamed) => KillSavesFrom(s.runners[i], renamed, evaluated);
    case Crash(found) =>
      var r := s.runners[i];
      KillSavesFrom(r, r.phase.Saving? && found == Some(Saved(setup.codec, r.phase.next)), evaluated);
    case Act(r, action) =>
      if r == i {
        MoveSavesFrom(setup, s, r, action, evaluated);
      }
  }

  /** In every run a runner saves some of the cycles it evaluated, in order. */
  lemma {:induction false} SavedAreEvaluated(setup: Setup, keys: seq<string>, steps: seq<Step>, s: System, i: nat)
    requires Reached(setup, keys, steps, s) && i < |s.runners|
    ensures SavedFrom(s.runners[i], EvaluatedBy(steps, i))
    decreases |steps|
  {
    if steps == [] {
      assert s.runners[i] in s.runners;
    } else {
      var init, last := steps[..|steps| - 1], steps[|steps| - 1];
      var before := Predecessor(setup, keys, steps, s);
      SavedAreEvaluated(setup, keys, init, before, i);
      StepSavesFrom(setup, before, last, i, EvaluatedBy(init, i));
    }
  }

  /** The failed loads and saves of runner i, and the kills and crashes of the process. */
  function FaultsOf(steps: seq<Step>, i: nat): nat {
    if steps == [] then 0
    else
      var last := steps[|steps| - 1];
      FaultsOf(steps[..|steps| - 1], i)
      + if !last.Act? || (last.runner == i && (last.action.FailLoad? || last.action.FailSave?)) then 1 else 0
  }

  lemma StepDrops(setup: Setup, s: System, step: Step, i: nat)
    requires Enabled(setup, s, step) && i < |s.runners|
    ensures var r, r' := s.runners[i], Next(setup, s, step).runners[i];
      |r.committed| + (if HasCycle(r.phase) then 1 else 0) + |EvaluationIn(step, i)|
        <= |r'.committed| + (if HasCycle(r'.phase) then 1 else 0) + FaultsOf([step], i)
  {
    assert [step][..0] == [];
    assert FaultsOf([], i) == 0;
  }

  /** An evaluated cycle goes unsaved only through a fault, one for each, or because it is under way. */
  lemma {:induction false} NoneDroppedWithoutFault(setup: Setup, keys: seq<string>, steps: seq<Step>, s: System, i: nat)
    requires Reached(setup, keys, steps, s) && i < |s.runners|
    ensures |EvaluatedBy(steps, i)|
         <= |s.runners[i].committed| + (if HasCycle(s.runners[i].phase) then 1 else 0) + FaultsOf(steps, i)
    decreases |steps|
  {
    if steps != [] {
      var init, last := steps[..|steps| - 1], steps[|steps| - 1];
      var before := Predecessor(setup, keys, steps, s);
      NoneDroppedWithoutFault(setup, keys, init, before, i);
      StepDrops(setup, before, last, i);
      assert [last][..0] == [];
    }
  }

  lemma SavedIsWithin(r: Runner, evaluated: seq<Cycle>)
    requires SavedFrom(r, evaluated)
    ensures Within(r.committed, evaluated)
  {
    if HasCycle(r.phase) {
      CycleEnds(r, evaluated);
    }
  }

  /** Each stack's saved cycles are some of those that its own exchanges call for, in order. */
  lemma SavedAreServed(setup: Setup, keys: seq<string>, reader: Reader, tags: seq<Bytes -> string>,
                       polls: seq<seq<seq<Poll>>>, steps: seq<Step>, s: System, i: nat)
    requires Reached(setup, keys, steps, s) && Fed(reader, polls, steps) && HonestFeeds(reader, tags, polls)
    requires i < |s.runners| && i < |polls|
    ensures Within(s.runners[i].committed, ServedInAll(reader, polls[i]))
  {
    SavedAreEvaluated(setup, keys, steps, s, i);
    SavedIsWithin(s.runners[i], EvaluatedBy(steps, i));
    FedIsServed(reader, tags, polls, steps, i);
  }

  /**
   From the servers to the notifiers, over interleaved runners: every alert handed over
   for a stack is one that a history calls for, whose cycles are some of those that the
   stack's own exchanges and swarm answers determine, in order. No other stack, no ETag
   and no cached state appears in them.
   */
  lemma DeliveredAlertsAreServed(setup: Setup, mappings: seq<StackMapping>, reader: Reader, tags: seq<Bytes -> string>,
                                 polls: seq<seq<seq<Poll>>>, steps: seq<Step>, s: System,
                                 i: nat, d: Delivery, a: ServiceTransition)
    requires MappedRun(setup, mappings, steps, s) && CrashesSynced(steps)
    requires Fed(reader, polls, steps) && HonestFeeds(reader, tags, polls)
    requires i < |s.runners| && i < |polls| && d in s.runners[i].delivered && a in d.batch
    ensures var h := s.runners[i].committed;
      && Within(h, ServedInAll(reader, polls[i]))
      && d.index < |h| && Alerted(h, a.name, d.index, setup.n) && a == AlertFor(h, a.name, d.index, setup.n)
  {
    DeliveredAlertsAreSpecified(setup, mappings, steps, s, i, d, a);
    SavedAreServed(setup, MappedKeys(mappings), reader, tags, polls, steps, s, i);
  }
}
