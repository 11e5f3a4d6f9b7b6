/**
 Whole-run consequences of the alert specification: how often a service can be
 announced, how its alerts chain, and which failures stay silent.
 By DebouncerRefinesHistory they hold of the stored-counter machine.
 */
module Lifetimes {
  import opened Wrappers
  import opened Names
  import opened Compose
  import opened Swarm
  import opened Health
  import opened State
  import opened Transition
  import opened Debounce
  import opened History

  /** Cycles a..b lie in one lifetime. */
  predicate Alive(h: seq<Cycle>, name: string, a: int, b: int) {
    0 <= a <= b < |h| && forall u | a <= u <= b :: Present(h, name, u)
  }

  /** The alerts for one service in cycles a..b. */
  ghost function AlertCount(h: seq<Cycle>, name: string, a: int, b: int, n: int): nat
    decreases b - a
  {
    if b < a then 0 else AlertCount(h, name, a, b - 1, n) + if Alerted(h, name, b, n) then 1 else 0
  }

  /** The settled grade moves only in a cycle that raises an alert. */
  lemma {:induction false} SettledBetweenAlerts(h: seq<Cycle>, name: string, a: int, b: int, n: int)
    requires Alive(h, name, a, b)
    requires forall u | a < u <= b :: !Alerted(h, name, u, n)
    ensures Settled(h, name, b, n) == Settled(h, name, a, n)
    decreases b - a
  {
    if a < b {
      SettledBetweenAlerts(h, name, a, b - 1, n);
      assert !Born(h, name, b) && !Alerted(h, name, b, n);
    }
  }

  /** While a grade stays constant from a cycle in which it is settled, it remains settled. */
  lemma {:induction false} ConstantStaysSettled(h: seq<Cycle>, name: string, a: int, b: int, n: int)
    requires Alive(h, name, a, b)
    requires forall u | a <= u <= b :: Grade(h, name, u) == Grade(h, name, a)
    requires Settled(h, name, a, n) == Grade(h, name, a)
    ensures Settled(h, name, b, n) == Grade(h, name, a)
    decreases b - a
  {
    if a < b {
      ConstantStaysSettled(h, name, a, b - 1, n);
    }
  }

  /** The hold that an alert ends had not settled in any earlier cycle of it. */
  lemma UnsettledWithinHold(h: seq<Cycle>, name: string, t: int, n: int, u: int)
    requires n >= 1 && Alerted(h, name, t, n) && !Born(h, name, t)
    requires t - n < u < t
    ensures Held(h, name, t, n) && Present(h, name, u) && Settled(h, name, u, n) != Grade(h, name, u)
    ensures !Born(h, name, u) && !Held(h, name, u, n) && !Alerted(h, name, u, n)
  {
    if Settled(h, name, u, n) == Grade(h, name, u) {
      ConstantStaysSettled(h, name, u, t - 1, n);
    }
  }

  lemma HeldOneEarlier(h: seq<Cycle>, name: string, t: int, n: int)
    requires n >= 1 && Present(h, name, t) && Held(h, name, t, n)
    requires Present(h, name, t - n) && Grade(h, name, t - n) == Grade(h, name, t)
    ensures Present(h, name, t - 1) && Held(h, name, t - 1, n)
  {
  }

  lemma HoldFollowsAnotherGrade(h: seq<Cycle>, name: string, t: int, n: int)
    requires n >= 1 && Alerted(h, name, t, n) && !Born(h, name, t)
    requires Held(h, name, t, n) && Present(h, name, t - n)
    ensures Grade(h, name, t - n) != Grade(h, name, t)
  {
    if Grade(h, name, t - n) == Grade(h, name, t) {
      HeldOneEarlier(h, name, t, n);
    }
  }

  /**
   Every alert after birth reports a grade held for exactly n cycles up to and
   including its own, after a different grade in the same lifetime; none of those n
   cycles but the last is a birth or raised an alert.
   */
  lemma AlertEndsAHold(h: seq<Cycle>, name: string, t: int, n: int)
    requires n >= 1 && Alerted(h, name, t, n) && !Born(h, name, t)
    ensures Held(h, name, t, n) && !Held(h, name, t, n + 1) && Present(h, name, t - n)
    ensures Settled(h, name, t, n) == Grade(h, name, t)
    ensures forall u | t - n < u < t :: !Alerted(h, name, u, n)
    ensures forall u | t - n < u <= t :: !Born(h, name, u)
  {
    forall u | t - n < u < t ensures !Born(h, name, u) && !Alerted(h, name, u, n) {
      UnsettledWithinHold(h, name, t, n, u);
    }
    assert !Born(h, name, t - n + 1);
    HoldFollowsAnotherGrade(h, name, t, n);
  }

  lemma {:induction false} QuietCount(h: seq<Cycle>, name: string, a: int, m: int, b: int, n: int)
    requires a - 1 <= m <= b && forall u | m < u <= b :: !Alerted(h, name, u, n)
    ensures AlertCount(h, name, a, b, n) == AlertCount(h, name, a, m, n)
    decreases b - m
  {
    if m < b {
      QuietCount(h, name, a, m, b - 1, n);
    }
  }

  lemma AlertTakesWindow(h: seq<Cycle>, name: string, birth: int, t: int, n: int)
    requires n >= 1 && Alive(h, name, birth, t) && Born(h, name, birth) && birth < t
    requires Alerted(h, name, t, n)
    ensures birth <= t - n
    ensures AlertCount(h, name, birth + 1, t, n) == AlertCount(h, name, birth + 1, t - n, n) + 1
  {
    AlertEndsAHold(h, name, t, n);
    QuietCount(h, name, birth + 1, t - n, t - 1, n);
  }

  lemma OneMore(c: int, n: int, room: int)
    requires c * n <= room - n
    ensures (c + 1) * n <= room
  {
  }

  lemma {:induction false} LaterAlertRate(h: seq<Cycle>, name: string, birth: int, t: int, n: int)
    requires n >= 1 && Alive(h, name, birth, t) && Born(h, name, birth)
    ensures AlertCount(h, name, birth + 1, t, n) * n <= t - birth
    decreases t
  {
    if birth < t {
      if Alerted(h, name, t, n) {
        AlertTakesWindow(h, name, birth, t, n);
        LaterAlertRate(h, name, birth, t - n, n);
        OneMore(AlertCount(h, name, birth + 1, t - n, n), n, t - birth);
      } else {
        LaterAlertRate(h, name, birth, t - 1, n);
      }
    }
  }

  lemma {:induction false} CountFromBirth(h: seq<Cycle>, name: string, a: int, b: int, n: int)
    requires a <= b
    ensures AlertCount(h, name, a, b, n) == AlertCount(h, name, a + 1, b, n) + if Alerted(h, name, a, n) then 1 else 0
    decreases b - a
  {
    if a < b {
      CountFromBirth(h, name, a, b - 1, n);
    }
  }

  lemma OneLess(c: int, n: int)
    ensures (c - 1) * n == c * n - n
  {
  }

  /**
   Alert rate: j alerts after birth take at least j * n cycles, so with the one that
   birth may raise, k alerts in a lifetime of T cycles satisfy (k - 1) * n <= T - 1.
   */
  lemma AlertRate(h: seq<Cycle>, name: string, birth: int, t: int, n: int)
    requires n >= 1 && Alive(h, name, birth, t) && Born(h, name, birth)
    ensures AlertCount(h, name, birth + 1, t, n) * n <= t - birth
    ensures (AlertCount(h, name, birth, t, n) - 1) * n <= t - birth
  {
    LaterAlertRate(h, name, birth, t, n);
    CountFromBirth(h, name, birth, t, n);
    OneLess(AlertCount(h, name, birth + 1, t, n), n);
  }

  /** The last announced status the store holds after cycle t. */
  ghost function LastNotified(h: seq<Cycle>, name: string, t: nat, n: int): Option<Status>
    requires t < |h|
  {
    var entry := Entry(PrevServices(After(None, h[..t + 1], n)), name);
    if entry.Some? then entry.value.lastNotifiedStatus else None
  }

  lemma LastNotifiedIsAnnounced(h: seq<Cycle>, name: string, t: nat, n: int)
    requires n >= 1 && Present(h, name, t)
    ensures LastNotified(h, name, t, n) == Announced(h, name, t, n)
  {
    DebouncerRefinesHistory(h, n, t);
  }

  /**
   From an alert on, while the lifetime lasts and no other alert is raised, the store
   holds the grade announced by it as the last one announced.
   */
  lemma AnnouncedUntilNextAlert(h: seq<Cycle>, name: string, a: int, u: int, n: int)
    requires n >= 1 && Alive(h, name, a, u) && Alerted(h, name, a, n)
    requires forall v | a < v <= u :: !Alerted(h, name, v, n)
    ensures Settled(h, name, u, n) == AlertFor(h, name, a, n).currentStatus
    ensures LastNotified(h, name, u, n) == Some(AlertFor(h, name, a, n).currentStatus)
  {
    if !Born(h, name, a) {
      AlertEndsAHold(h, name, a, n);
    }
    SettledBetweenAlerts(h, name, a, u, n);
    LastNotifiedIsAnnounced(h, name, u, n);
    assert u == a || !Born(h, name, u);
  }

  /**
   Alert chaining: of two successive alerts in a lifetime, the later one starts from
   the grade the earlier one ended with, and ends with a different one. In every
   cycle from the earlier up to the later the store holds that grade as announced.
   */
  lemma AlertsChain(h: seq<Cycle>, name: string, a: int, b: int, n: int)
    requires n >= 1 && Alive(h, name, a, b) && a < b
    requires Alerted(h, name, a, n) && Alerted(h, name, b, n)
    requires forall u | a < u < b :: !Alerted(h, name, u, n)
    ensures AlertFor(h, name, b, n).previousStatus == Some(AlertFor(h, name, a, n).currentStatus)
    ensures AlertFor(h, name, b, n).currentStatus != AlertFor(h, name, a, n).currentStatus
    ensures forall u | a <= u < b :: LastNotified(h, name, u, n) == Some(AlertFor(h, name, a, n).currentStatus)
  {
    AlertEndsAHold(h, name, b, n);
    AnnouncedUntilNextAlert(h, name, a, b - 1, n);
    forall u | a <= u < b ensures LastNotified(h, name, u, n) == Some(AlertFor(h, name, a, n).currentStatus) {
      AnnouncedUntilNextAlert(h, name, a, u, n);
    }
  }

  /**
   The details of every alert given out compare with the cycle before in the same
   lifetime, and with nothing at birth: old value plus delta is the new value, and a
   change is left out only at birth when there is nothing to tell.
   */
  lemma DetailsCompareWithCycleBefore(h: seq<Cycle>, n: int, t: nat, alert: ServiceTransition)
    requires n >= 1 && t < |h| && alert in BatchAt(None, h, n, t)
    ensures Present(h, alert.name, t)
    ensures var now, born := h[t].services[alert.name], Born(h, alert.name, t);
      && (alert.replicaChange.None? <==> born && now.desiredReplicas == 0 && now.runningReplicas == 0)
      && (alert.imageChange.None? <==> born && now.desiredImage == "" && now.actualImage == "")
      && (alert.replicaChange.Some? ==>
            var c := alert.replicaChange.value;
            && c.previousDesired + c.desiredDelta == c.currentDesired == now.desiredReplicas
            && c.previousRunning + c.runningDelta == c.currentRunning == now.runningReplicas
            && c.previousDesired == (if born then 0 else h[t - 1].services[alert.name].desiredReplicas)
            && c.previousRunning == (if born then 0 else h[t - 1].services[alert.name].runningReplicas))
      && (alert.imageChange.Some? ==>
            var c := alert.imageChange.value;
            && c.currentDesired == now.desiredImage && c.currentActual == now.actualImage
            && c.previousDesired == (if born then "" else h[t - 1].services[alert.name].desiredImage)
            && c.previousActual == (if born then "" else h[t - 1].services[alert.name].actualImage))
  {
    BatchIsSpecified(h, n, t);
  }

  /** A maximal block of one grade, cycles s..e of a lifetime. */
  ghost predicate Block(h: seq<Cycle>, name: string, s: int, e: int) {
    && Alive(h, name, s, e)
    && (forall u | s <= u <= e :: Grade(h, name, u) == Grade(h, name, s))
    && (Born(h, name, s) || Grade(h, name, s - 1) != Grade(h, name, s))
  }

  /**
   A service that flaps faster than n cycles is silent after birth: an alert takes a
   block of one grade, begun after birth, that lasts n cycles.
   */
  lemma FlappingIsSilent(h: seq<Cycle>, name: string, birth: int, t: int, n: int)
    requires n >= 1 && Alive(h, name, birth, t) && Born(h, name, birth)
    requires forall s, e | birth < s <= e <= t && Block(h, name, s, e) :: e - s + 1 < n
    ensures forall u | birth < u <= t :: !Alerted(h, name, u, n)
  {
    forall u | birth < u <= t ensures !Alerted(h, name, u, n) {
      if Alerted(h, name, u, n) {
        AlertEndsAHold(h, name, u, n);
        assert Block(h, name, u - n + 1, u);
      }
    }
  }

  /**
   When a grade held for n cycles is announced. "Every failure that lasts n cycles
   is alerted" is false: the exact condition, known when the block begins, is that a
   birth block is not OK and either nothing ran before or n is 1, and that a later
   block differs from the grade settled before it.
   */
  lemma HeldBlockIsAnnouncedIff(h: seq<Cycle>, name: string, s: int, e: int, n: int)
    requires n >= 1 && Block(h, name, s, e) && e - s + 1 >= n
    ensures (exists u | s <= u <= e :: Alerted(h, name, u, n)) <==>
              if Born(h, name, s) then Grade(h, name, s) != OK && (NothingBefore(h, s) || n == 1)
              else Settled(h, name, s - 1, n) != Grade(h, name, s)
  {
    if Born(h, name, s) {
      forall u | s < u <= e ensures !Alerted(h, name, u, n) {
        ConstantStaysSettled(h, name, s, u, n);
        ConstantStaysSettled(h, name, s, u - 1, n);
      }
      var atBirth := Grade(h, name, s) != OK && (NothingBefore(h, s) || n == 1);
      assert Alerted(h, name, s, n) == atBirth;
    } else {
      LaterBlockIsAnnouncedIff(h, name, s, e, n);
    }
  }

  lemma LaterBlockIsAnnouncedIff(h: seq<Cycle>, name: string, s: int, e: int, n: int)
    requires n >= 1 && Block(h, name, s, e) && e - s + 1 >= n && !Born(h, name, s)
    ensures (exists u | s <= u <= e :: Alerted(h, name, u, n)) <==> Settled(h, name, s - 1, n) != Grade(h, name, s)
  {
    if Settled(h, name, s - 1, n) == Grade(h, name, s) {
      forall u | s <= u <= e ensures !Alerted(h, name, u, n) {
        SettledUnmoved(h, name, s, u, n);
        SettledUnmoved(h, name, s, u - 1, n);
      }
    } else if forall u | s <= u <= e :: !Alerted(h, name, u, n) {
      SettledBetweenAlerts(h, name, s - 1, s + n - 1, n);
      assert Held(h, name, s + n - 1, n);
    }
  }

  lemma {:induction false} SettledUnmoved(h: seq<Cycle>, name: string, s: int, u: int, n: int)
    requires n >= 1 && s - 1 <= u && Alive(h, name, s - 1, u) && Present(h, name, s)
    requires Settled(h, name, s - 1, n) == Grade(h, name, s)
    requires forall v | s <= v <= u :: Grade(h, name, v) == Grade(h, name, s)
    ensures Settled(h, name, u, n) == Settled(h, name, s - 1, n)
    decreases u - s
  {
    if s <= u {
      SettledUnmoved(h, name, s, u - 1, n);
    }
  }

  /** A cycle gives out nothing iff the history raises no alert for any name. */
  lemma SilentIff(h: seq<Cycle>, n: int, t: nat)
    requires n >= 1 && t < |h|
    ensures BatchAt(None, h, n, t) == [] <==> forall name :: !Alerted(h, name, t, n)
  {
    BatchIsSpecified(h, n, t);
    HeadIsMember(BatchAt(None, h, n, t));
    forall name | Alerted(h, name, t, n) ensures BatchAt(None, h, n, t) != [] {
      assert AlertFor(h, name, t, n).name == name;
      assert AlertFor(h, name, t, n) in BatchAt(None, h, n, t);
    }
  }

  /** A healthy service is joined, after the first run, by one that is born FAILED and stays so. */
  function LateFailure(length: nat): seq<Cycle> {
    var ok := ServiceHealth("a", OK, [], [], "", "", 1, 1, 0, None);
    var failed := ServiceHealth("b", Failed, [ServiceMissing], [], "", "", 1, 0, 0, None);
    seq(length, t => Cycle(if t == 0 then map["a" := ok] else map["a" := ok, "b" := failed], "", t))
  }

  /** A grade constant since birth raises no alert after birth. */
  lemma ConstantIsSilent(h: seq<Cycle>, name: string, birth: int, t: int, n: int)
    requires Alive(h, name, birth, t) && Born(h, name, birth) && birth < t
    requires forall u | birth <= u <= t :: Grade(h, name, u) == Grade(h, name, birth)
    ensures !Alerted(h, name, t, n)
  {
    ConstantStaysSettled(h, name, birth, t, n);
    ConstantStaysSettled(h, name, birth, t - 1, n);
  }

  lemma LateFailureRaisesNothing(length: nat, t: nat, name: string, n: int)
    requires t < length && n >= 2
    ensures !Alerted(LateFailure(length), name, t, n)
    ensures t > 0 ==> Present(LateFailure(length), "b", t) && Grade(LateFailure(length), "b", t) == Failed
  {
    var h := LateFailure(length);
    var birth := if name == "a" then 0 else 1;
    assert "a" in h[0].services;
    if Present(h, name, t) && birth < t {
      ConstantIsSilent(h, name, birth, t, n);
    }
  }

  /** The counterexample to that claim: with n >= 2 the failure is never announced, however long it lasts. */
  lemma LateFailureStaysSilent(length: nat, t: nat, n: int)
    requires t < length && n >= 2
    ensures BatchAt(None, LateFailure(length), n, t) == []
    ensures t > 0 ==> Present(LateFailure(length), "b", t) && Grade(LateFailure(length), "b", t) == Failed
  {
    SilentIff(LateFailure(length), n, t);
    forall name ensures !Alerted(LateFailure(length), name, t, n) {
      LateFailureRaisesNothing(length, t, name, n);
    }
    LateFailureRaisesNothing(length, t, "b", n);
  }

  /** With nothing but OK grades, nothing is ever announced. */
  lemma {:induction false} AllOKSettlesOK(h: seq<Cycle>, name: string, t: int, n: int)
    requires Present(h, name, t)
    requires forall u | 0 <= u < |h| && name in h[u].services :: h[u].services[name].status == OK
    ensures Settled(h, name, t, n) == OK
    decreases t
  {
    if !(Held(h, name, t, n) || Born(h, name, t)) {
      AllOKSettlesOK(h, name, t - 1, n);
    }
  }

  lemma AllOKRaisesNothing(h: seq<Cycle>, name: string, t: nat, n: int)
    requires t < |h|
    requires forall u, name | 0 <= u < |h| && name in h[u].services :: h[u].services[name].status == OK
    ensures !Alerted(h, name, t, n)
  {
    if Present(h, name, t) {
      AllOKSettlesOK(h, name, t, n);
      if !Born(h, name, t) {
        AllOKSettlesOK(h, name, t - 1, n);
      }
    }
  }

  lemma AllOKIsSilent(h: seq<Cycle>, n: int, t: nat)
    requires n >= 1 && t < |h|
    requires forall u, name | 0 <= u < |h| && name in h[u].services :: h[u].services[name].status == OK
    ensures BatchAt(None, h, n, t) == []
  {
    SilentIff(h, n, t);
    forall name ensures !Alerted(h, name, t, n) {
      AllOKRaisesNothing(h, name, t, n);
    }
  }

  /** What one cycle of one stack compares. */
  datatype Observation = Observation(desired: DesiredState, actual: Option<ActualState>, fingerprint: string, at: int)

  function Evaluate(o: Observation, scoped: bool): Cycle {
    Cycle(EvaluatedStack(o.desired, o.actual, scoped).services, o.fingerprint, o.at)
  }

  /**
   No false alarm, end to end: if in every cycle the swarm runs what the compose
   file describes, no batch of any cycle holds an alert, for every window, even as
   services appear and disappear.
   */
  lemma NoFalseAlarm(observations: seq<Observation>, scoped: bool, n: int, t: nat)
    requires n >= 1 && t < |observations|
    requires forall o | o in observations :: StackAgrees(o.desired, o.actual, scoped)
    ensures BatchAt(None, seq(|observations|, i requires 0 <= i < |observations| => Evaluate(observations[i], scoped)),
                    n, t) == []
  {
    var h := seq(|observations|, i requires 0 <= i < |observations| => Evaluate(observations[i], scoped));
    forall u, name | 0 <= u < |h| && name in h[u].services ensures h[u].services[name].status == OK {
      var o := observations[u];
      assert o in observations;
      StackOKIffAgrees(o.desired, o.actual, scoped);
    }
    AllOKIsSilent(h, n, t);
  }
}
