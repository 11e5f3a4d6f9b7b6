/** The rule of stabilizeTransitions in internal/runner/runner.go, one cycle at a time. */
module Debounce {
  import opened Wrappers
  import opened Names
  import opened Health
  import opened State
  import opened Transition

  /** What a runner brings to one evaluation. */
  datatype Cycle = Cycle(services: map<string, ServiceHealth>, fingerprint: string, evaluatedAt: int)

  /** The configured number of cycles, at least 1. */
  function Window(configured: int): (n: int)
    ensures configured >= 1 ==> n == configured
    ensures configured < 1 ==> n == 1
  {
    if configured <= 0 then 1 else configured
  }

  function Consecutive(prev: Option<ServiceHealth>, status: Status): (c: int)
    ensures c >= 1
  {
    if prev.Some? && prev.value.status == status then
      if prev.value.consecutiveCycles > 0 then prev.value.consecutiveCycles + 1 else 2
    else 1
  }

  /** The runner's own rule for letting a service through to the detector. */
  predicate Eligible(firstRun: bool, prev: Option<ServiceHealth>, current: ServiceHealth, n: int) {
    if firstRun then current.status != OK
    else Some(current.status) != StoredBaseline(prev) && Consecutive(prev, current.status) >= n
  }

  function Counted(prev: Option<ServiceHealth>, current: ServiceHealth): ServiceHealth {
    current.(consecutiveCycles := Consecutive(prev, current.status), lastNotifiedStatus := StoredBaseline(prev))
  }

  function Updated(firstRun: bool, prev: Option<ServiceHealth>, current: ServiceHealth, n: int): ServiceHealth {
    if Eligible(firstRun, prev, current, n) then Counted(prev, current).(lastNotifiedStatus := Some(current.status))
    else Counted(prev, current)
  }

  /** An entry stored without a counter counts as one cycle of its status, which is then its baseline. */
  lemma EntryWithoutCounter(firstRun: bool, entry: ServiceHealth, current: ServiceHealth, n: int)
    requires entry.consecutiveCycles <= 0
    ensures Updated(firstRun, Some(entry), current, n)
              == Updated(firstRun, Some(entry.(consecutiveCycles := 1)), current, n)
    ensures Eligible(firstRun, Some(entry), current, n) <==>
              Eligible(firstRun, Some(entry.(consecutiveCycles := 1)), current, n)
    ensures current.status == entry.status ==> Updated(firstRun, Some(entry), current, n).consecutiveCycles == 2
  {
  }

  function UpdatedServices(prev: Option<StackSnapshot>, services: map<string, ServiceHealth>,
                           n: int): map<string, ServiceHealth> {
    map name | name in services :: Updated(FirstRun(prev), Entry(PrevServices(prev), name), services[name], n)
  }

  function EligibleServices(prev: Option<StackSnapshot>, services: map<string, ServiceHealth>,
                            n: int): map<string, ServiceHealth> {
    map name | name in services && Eligible(FirstRun(prev), Entry(PrevServices(prev), name), services[name], n)
             :: Counted(Entry(PrevServices(prev), name), services[name])
  }

  /** The alerts of one cycle, by name. */
  function Alerts(prev: Option<StackSnapshot>, services: map<string, ServiceHealth>,
                  n: int): map<string, ServiceTransition> {
    Changes(prev, EligibleServices(prev, services, n))
  }

  lemma MapsOfName(prev: Option<StackSnapshot>, services: map<string, ServiceHealth>, n: int, name: string)
    requires name in services
    ensures var before := Entry(PrevServices(prev), name);
      && name in UpdatedServices(prev, services, n)
      && UpdatedServices(prev, services, n)[name] == Updated(FirstRun(prev), before, services[name], n)
      && (name in EligibleServices(prev, services, n) <==> Eligible(FirstRun(prev), before, services[name], n))
      && (name in EligibleServices(prev, services, n) ==>
          EligibleServices(prev, services, n)[name] == Counted(before, services[name]))
  {
  }

  lemma AlertOfName(prev: Option<StackSnapshot>, services: map<string, ServiceHealth>, n: int, name: string)
    requires name in services
    ensures var before := Entry(PrevServices(prev), name);
      && (name in UpdatedServices(prev, services, n)
          && UpdatedServices(prev, services, n)[name] == Updated(FirstRun(prev), before, services[name], n))
      && (name in Alerts(prev, services, n) <==>
            Eligible(FirstRun(prev), before, services[name], n) && Reported(FirstRun(prev), before, services[name]))
      && (name in Alerts(prev, services, n) ==> Alerts(prev, services, n)[name] == Change(name, before, services[name]))
  {
  }

  ghost function Batch(prev: Option<StackSnapshot>, services: map<string, ServiceHealth>,
                       n: int): seq<ServiceTransition> {
    Listing(Alerts(prev, services, n))
  }

  function Snapshot(prev: Option<StackSnapshot>, cycle: Cycle, n: int): StackSnapshot {
    StackSnapshot(cycle.fingerprint, UpdatedServices(prev, cycle.services, n), cycle.evaluatedAt)
  }

  /** The stored snapshot after a runner has completed these cycles, alone. */
  function After(init: Option<StackSnapshot>, cycles: seq<Cycle>, n: int): Option<StackSnapshot> {
    if cycles == [] then init
    else Some(Snapshot(After(init, cycles[..|cycles| - 1], n), cycles[|cycles| - 1], n))
  }

  /** The alerts of cycle `i` of such a run. */
  ghost function BatchAt(init: Option<StackSnapshot>, cycles: seq<Cycle>, n: int, i: nat): seq<ServiceTransition>
    requires i < |cycles|
  {
    Batch(After(init, cycles[..i], n), cycles[i].services, n)
  }

  /** The alerts of every cycle of such a run. */
  ghost function Batches(init: Option<StackSnapshot>, cycles: seq<Cycle>, n: int): (r: seq<seq<ServiceTransition>>)
    ensures |r| == |cycles|
  {
    seq(|cycles|, i requires 0 <= i < |cycles| => BatchAt(init, cycles, n, i))
  }

  /**
   The two detectors compose exactly. On a first run every service that is not OK
   is announced. Otherwise: every service with a prior entry whose baseline
   differs and whose counter reached n, none of them dropped by the second
   detector; and new services that are not OK, only when n is 1.
   */
  lemma DetectorsCompose(prev: Option<StackSnapshot>, services: map<string, ServiceHealth>, n: int)
    requires n >= 1
    ensures var stored := PrevServices(prev);
      forall name :: name in Alerts(prev, services, n) <==>
        && name in services
        && (if FirstRun(prev) then services[name].status != OK
            else if name in stored then
              StoredBaseline(Some(stored[name])) != Some(services[name].status)
              && UpdatedServices(prev, services, n)[name].consecutiveCycles >= n
            else services[name].status != OK && n == 1)
    ensures forall name | name in EligibleServices(prev, services, n) && name in PrevServices(prev) ::
              name in Alerts(prev, services, n)
  {
  }

  lemma BatchHasAlerts(prev: Option<StackSnapshot>, services: map<string, ServiceHealth>, n: int)
    ensures StrictlySortedBy(Batch(prev, services, n), BY_NAME)
    ensures forall t :: t in Batch(prev, services, n) <==>
              t.name in Alerts(prev, services, n) && Alerts(prev, services, n)[t.name] == t
    ensures Batch(prev, services, n) == [] <==> Alerts(prev, services, n) == map[]
  {
    var alerts := Alerts(prev, services, n);
    var names := SortedNames(alerts.Keys);
    var batch := Listing(alerts);
    forall t ensures t in batch <==> t.name in alerts && alerts[t.name] == t {
      if t.name in alerts && alerts[t.name] == t {
        assert t.name in names;
        var i :| 0 <= i < |names| && names[i] == t.name;
        assert batch[i] == t;
      }
    }
    assert |alerts| == 0 <==> alerts == map[];
  }

  lemma AfterPrefix(init: Option<StackSnapshot>, cycles: seq<Cycle>, n: int, t: nat)
    requires t < |cycles|
    ensures After(init, cycles[..t + 1], n) == Some(Snapshot(After(init, cycles[..t], n), cycles[t], n))
  {
    assert cycles[..t + 1][..t] == cycles[..t];
  }

  lemma BatchAtPrefix(init: Option<StackSnapshot>, cycles: seq<Cycle>, more: seq<Cycle>, n: int, i: nat)
    requires i < |cycles|
    ensures BatchAt(init, cycles + more, n, i) == BatchAt(init, cycles, n, i)
  {
    assert (cycles + more)[..i] == cycles[..i];
  }

  lemma AppendedBatch(init: Option<StackSnapshot>, cycles: seq<Cycle>, cycle: Cycle, n: int)
    ensures BatchAt(init, cycles + [cycle], n, |cycles|) == Batch(After(init, cycles, n), cycle.services, n)
  {
    assert (cycles + [cycle])[..|cycles|] == cycles;
  }

  lemma AppendedCycle(init: Option<StackSnapshot>, cycles: seq<Cycle>, cycle: Cycle, n: int)
    ensures After(init, cycles + [cycle], n) == Some(Snapshot(After(init, cycles, n), cycle, n))
  {
    assert (cycles + [cycle])[..|cycles|] == cycles;
  }

  lemma AppendedBatches(init: Option<StackSnapshot>, cycles: seq<Cycle>, cycle: Cycle, n: int)
    ensures Batches(init, cycles + [cycle], n)
              == Batches(init, cycles, n) + [Batch(After(init, cycles, n), cycle.services, n)]
  {
    var longer, shorter := Batches(init, cycles + [cycle], n), Batches(init, cycles, n);
    forall i: nat | i < |cycles| ensures longer[i] == shorter[i] {
      BatchAtPrefix(init, cycles, [cycle], n, i);
    }
    AppendedBatch(init, cycles, cycle, n);
    ByElements(longer, shorter, Batch(After(init, cycles, n), cycle.services, n));
  }

  lemma ByElements<T>(longer: seq<T>, shorter: seq<T>, last: T)
    requires |longer| == |shorter| + 1 && longer[|shorter|] == last
    requires forall i | 0 <= i < |shorter| :: longer[i] == shorter[i]
    ensures longer == shorter + [last]
  {
  }
}

/**
 Alerts read off the whole history. No counter and no stored baseline appears in
 these definitions; the theorem says the stored-counter machine agrees with them.
 */
module History {
  import opened Wrappers
  import opened Names
  import opened Health
  import opened State
  import opened Transition
  import opened Debounce

  predicate Present(h: seq<Cycle>, name: string, t: int) {
    0 <= t < |h| && name in h[t].services
  }

  function Grade(h: seq<Cycle>, name: string, t: int): Status
    requires Present(h, name, t)
  {
    h[t].services[name].status
  }

  /** The first cycle of a lifetime. */
  predicate Born(h: seq<Cycle>, name: string, t: int) {
    Present(h, name, t) && !Present(h, name, t - 1)
  }

  /** Nothing was evaluated in the cycle before. */
  predicate NothingBefore(h: seq<Cycle>, t: int)
    requires 0 <= t < |h|
  {
    t == 0 || h[t - 1].services == map[]
  }

  /** The service has been present with its current grade for the last k cycles. */
  ghost predicate Held(h: seq<Cycle>, name: string, t: int, k: int)
    requires Present(h, name, t)
  {
    forall u | t - k < u <= t :: Present(h, name, u) && Grade(h, name, u) == Grade(h, name, t)
  }

  /** The grade most recently held for n cycles in this lifetime, else the birth grade. */
  ghost function Settled(h: seq<Cycle>, name: string, t: int, n: int): Status
    requires Present(h, name, t)
    decreases t
  {
    if Held(h, name, t, n) || Born(h, name, t) then Grade(h, name, t) else Settled(h, name, t - 1, n)
  }

  /**
   The specification of an alert. At birth: a grade other than OK, if nothing ran
   before or n is 1. Later: the settled grade has just changed.
   */
  ghost predicate Alerted(h: seq<Cycle>, name: string, t: int, n: int) {
    && Present(h, name, t)
    && if Born(h, name, t) then Grade(h, name, t) != OK && (NothingBefore(h, t) || n == 1)
       else Settled(h, name, t, n) != Settled(h, name, t - 1, n)
  }

  ghost function AlertFor(h: seq<Cycle>, name: string, t: int, n: int): ServiceTransition
    requires Present(h, name, t)
  {
    var current := h[t].services[name];
    var before := if Born(h, name, t) then None else Some(h[t - 1].services[name]);
    ServiceTransition(name, if Born(h, name, t) then None else Some(Settled(h, name, t - 1, n)), current.status,
                      current.reasons, current.drift,
                      BuildReplicaChange(before, current), BuildImageChange(before, current))
  }

  /** What the store must hold as the last announced status. */
  ghost function Announced(h: seq<Cycle>, name: string, t: int, n: int): Option<Status>
    requires Present(h, name, t)
  {
    if !Born(h, name, t) then Some(Settled(h, name, t, n))
    else if (if NothingBefore(h, t) then Grade(h, name, t) != OK else n == 1) then Some(Grade(h, name, t))
    else None
  }

  /** The stored entry agrees with the history up to cycle t. */
  ghost predicate EntryMatches(h: seq<Cycle>, name: string, t: int, n: int, entry: ServiceHealth)
    requires Present(h, name, t)
  {
    && entry.consecutiveCycles >= 1
    && Held(h, name, t, entry.consecutiveCycles)
    && !Held(h, name, t, entry.consecutiveCycles + 1)
    && entry.lastNotifiedStatus == Announced(h, name, t, n)
    && entry == h[t].services[name].(consecutiveCycles := entry.consecutiveCycles,
                                     lastNotifiedStatus := entry.lastNotifiedStatus)
  }

  ghost predicate StoreMatches(h: seq<Cycle>, t: int, n: int, stored: Option<StackSnapshot>)
    requires 0 <= t < |h|
  {
    && stored.Some?
    && stored.value.desiredFingerprint == h[t].fingerprint && stored.value.evaluatedAt == h[t].evaluatedAt
    && stored.value.services.Keys == h[t].services.Keys
    && forall name | name in h[t].services :: EntryMatches(h, name, t, n, stored.value.services[name])
  }

  /** The stored counter is the length of the trailing block, so it decides every window. */
  lemma HeldIffCounted(h: seq<Cycle>, name: string, t: int, c: int, k: int)
    requires Present(h, name, t) && c >= 1
    requires Held(h, name, t, c) && !Held(h, name, t, c + 1)
    ensures Held(h, name, t, k) <==> k <= c
  {
  }

  lemma HeldExtends(h: seq<Cycle>, name: string, t: int, k: int)
    requires Present(h, name, t) && !Born(h, name, t) && k >= 1
    ensures Held(h, name, t, k + 1) <==> Grade(h, name, t - 1) == Grade(h, name, t) && Held(h, name, t - 1, k)
  {
  }

  /** One service, one cycle: counters, baseline and eligibility follow the history. */
  lemma EntryStep(h: seq<Cycle>, name: string, t: int, n: int, entry: ServiceHealth)
    requires n >= 1 && Present(h, name, t) && !Born(h, name, t)
    requires EntryMatches(h, name, t - 1, n, entry)
    ensures EntryMatches(h, name, t, n, Updated(false, Some(entry), h[t].services[name], n))
    ensures StoredBaseline(Some(entry)) == Some(Settled(h, name, t - 1, n))
    ensures Eligible(false, Some(entry), h[t].services[name], n) <==> Alerted(h, name, t, n)
  {
    var c := entry.consecutiveCycles;
    var c' := Consecutive(Some(entry), Grade(h, name, t));
    HeldExtends(h, name, t, c);
    HeldExtends(h, name, t, c + 1);
    if Grade(h, name, t - 1) != Grade(h, name, t) {
      HeldExtends(h, name, t, 1);
    }
    assert Held(h, name, t, c') && !Held(h, name, t, c' + 1);
    HeldIffCounted(h, name, t, c', n);
    assert Born(h, name, t - 1) ==> Settled(h, name, t - 1, n) == Grade(h, name, t - 1);
    assert StoredBaseline(Some(entry)) == Some(Settled(h, name, t - 1, n));
    assert Settled(h, name, t, n) == if c' >= n then Grade(h, name, t) else Settled(h, name, t - 1, n);
  }

  lemma BirthStep(h: seq<Cycle>, name: string, t: int, n: int)
    requires n >= 1 && Born(h, name, t)
    ensures EntryMatches(h, name, t, n, Updated(NothingBefore(h, t), None, h[t].services[name], n))
  {
    assert Held(h, name, t, 1);
    assert !Held(h, name, t, 2);
  }

  /** `prev` is what the store holds when cycle t starts. */
  ghost predicate StoreBefore(h: seq<Cycle>, t: int, n: int, prev: Option<StackSnapshot>)
    requires 0 <= t < |h|
  {
    if t == 0 then prev == None else StoreMatches(h, t - 1, n, prev)
  }

  /** What the history says of the entry and the alert of one name. */
  ghost predicate NameMatches(h: seq<Cycle>, name: string, t: int, n: int, prev: Option<StackSnapshot>)
    requires Present(h, name, t)
  {
    var alerts := Alerts(prev, h[t].services, n);
    && name in UpdatedServices(prev, h[t].services, n)
    && EntryMatches(h, name, t, n, UpdatedServices(prev, h[t].services, n)[name])
    && (name in alerts <==> Alerted(h, name, t, n))
    && (name in alerts ==> alerts[name] == AlertFor(h, name, t, n))
  }

  lemma NameStep(h: seq<Cycle>, name: string, t: int, n: int, prev: Option<StackSnapshot>)
    requires n >= 1 && Present(h, name, t) && StoreBefore(h, t, n, prev)
    ensures NameMatches(h, name, t, n, prev)
  {
    assert FirstRun(prev) == NothingBefore(h, t);
    AlertOfName(prev, h[t].services, n, name);
    var before := Entry(PrevServices(prev), name);
    var current := h[t].services[name];
    if Born(h, name, t) {
      assert before == None;
      BirthStep(h, name, t, n);
      assert Change(name, before, current) == AlertFor(h, name, t, n);
    } else {
      assert before == Some(prev.value.services[name]);
      assert !FirstRun(prev);
      EntryStep(h, name, t, n, before.value);
      ChangeIgnoresCounters(name, before.value, h[t - 1].services[name], current);
    }
  }

  lemma ChangeIgnoresCounters(name: string, entry: ServiceHealth, plain: ServiceHealth, current: ServiceHealth)
    requires entry == plain.(consecutiveCycles := entry.consecutiveCycles,
                             lastNotifiedStatus := entry.lastNotifiedStatus)
    ensures BuildReplicaChange(Some(entry), current) == BuildReplicaChange(Some(plain), current)
    ensures BuildImageChange(Some(entry), current) == BuildImageChange(Some(plain), current)
  {
  }

  lemma StoreStep(h: seq<Cycle>, t: int, n: int, prev: Option<StackSnapshot>)
    requires n >= 1 && 0 <= t < |h| && StoreBefore(h, t, n, prev)
    ensures StoreMatches(h, t, n, Some(Snapshot(prev, h[t], n)))
  {
    forall name | name in h[t].services ensures NameMatches(h, name, t, n, prev) {
      NameStep(h, name, t, n, prev);
    }
  }

  lemma BatchStep(h: seq<Cycle>, t: int, n: int, prev: Option<StackSnapshot>)
    requires n >= 1 && 0 <= t < |h| && StoreBefore(h, t, n, prev)
    ensures forall a :: a in Batch(prev, h[t].services, n) <==>
              Alerted(h, a.name, t, n) && a == AlertFor(h, a.name, t, n)
  {
    BatchHasAlerts(prev, h[t].services, n);
    forall a: ServiceTransition
      ensures a in Batch(prev, h[t].services, n) <==> Alerted(h, a.name, t, n) && a == AlertFor(h, a.name, t, n)
    {
      if a.name in h[t].services {
        NameStep(h, a.name, t, n, prev);
      }
    }
  }

  lemma {:induction false} StoreBeforeCycle(h: seq<Cycle>, n: int, t: nat)
    requires n >= 1 && t < |h|
    ensures StoreBefore(h, t, n, After(None, h[..t], n))
  {
    if t == 0 {
      assert h[..0] == [];
    } else {
      var prev := After(None, h[..t - 1], n);
      StoreBeforeCycle(h, n, t - 1);
      StoreStep(h, t - 1, n, prev);
      AfterPrefix(None, h, n, t - 1);
    }
  }

  lemma BatchIsSpecified(h: seq<Cycle>, n: int, t: nat)
    requires n >= 1 && t < |h|
    ensures forall a :: a in BatchAt(None, h, n, t) <==> Alerted(h, a.name, t, n) && a == AlertFor(h, a.name, t, n)
  {
    StoreBeforeCycle(h, n, t);
    BatchStep(h, t, n, After(None, h[..t], n));
  }

  /**
   Refinement of the history specification, for every run from an empty store,
   every window and every cycle: what is stored is determined by the history (the
   counter is exactly the trailing block of equal grades), and the alerts given out
   are exactly the specified ones, in name order.
   */
  lemma DebouncerRefinesHistory(h: seq<Cycle>, n: int, t: nat)
    requires n >= 1 && t < |h|
    ensures StoreMatches(h, t, n, After(None, h[..t + 1], n))
    ensures StrictlySortedBy(BatchAt(None, h, n, t), BY_NAME)
    ensures forall a :: a in BatchAt(None, h, n, t) <==> Alerted(h, a.name, t, n) && a == AlertFor(h, a.name, t, n)
  {
    var prev := After(None, h[..t], n);
    StoreBeforeCycle(h, n, t);
    StoreStep(h, t, n, prev);
    BatchIsSpecified(h, n, t);
    BatchHasAlerts(prev, h[t].services, n);
    AfterPrefix(None, h, n, t);
  }
}
