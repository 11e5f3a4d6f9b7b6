/** internal/transition/transition.go: from stored and current grades to transitions. */
module Transition {
  import opened Wrappers
  import opened Names
  import opened Health
  import opened State

  datatype ReplicaChange = ReplicaChange(
    previousDesired: int, currentDesired: int,
    previousRunning: int, currentRunning: int,
    desiredDelta: int, runningDelta: int)

  datatype ImageChange = ImageChange(
    previousDesired: string, currentDesired: string,
    previousActual: string, currentActual: string)

  datatype ServiceTransition = ServiceTransition(
    name: string,
    previousStatus: Option<Status>,
    currentStatus: Status,
    reasons: seq<Reason>,
    drift: seq<DriftDetail>,
    replicaChange: Option<ReplicaChange>,
    imageChange: Option<ImageChange>)

  /** A service without a prior entry is compared with Go's zero value. */
  function BuildReplicaChange(prev: Option<ServiceHealth>, current: ServiceHealth): Option<ReplicaChange> {
    if prev.None? && current.desiredReplicas == 0 && current.runningReplicas == 0 then None
    else
      var (desired, running) := if prev.Some? then (prev.value.desiredReplicas, prev.value.runningReplicas) else (0, 0);
      Some(ReplicaChange(desired, current.desiredReplicas, running, current.runningReplicas,
                         current.desiredReplicas - desired, current.runningReplicas - running))
  }

  function BuildImageChange(prev: Option<ServiceHealth>, current: ServiceHealth): Option<ImageChange> {
    if prev.None? && current.desiredImage == "" && current.actualImage == "" then None
    else
      var (desired, actual) := if prev.Some? then (prev.value.desiredImage, prev.value.actualImage) else ("", "");
      Some(ImageChange(desired, current.desiredImage, actual, current.actualImage))
  }

  function Entry(services: map<string, ServiceHealth>, name: string): Option<ServiceHealth> {
    if name in services then Some(services[name]) else None
  }

  /** The status a stored entry was last announced with, else its own. */
  function StoredBaseline(prev: Option<ServiceHealth>): Option<Status> {
    if prev.None? then None
    else if prev.value.lastNotifiedStatus.Some? then prev.value.lastNotifiedStatus
    else Some(prev.value.status)
  }

  /** The detector's own rule for one service it is shown. */
  predicate Reported(firstRun: bool, prev: Option<ServiceHealth>, current: ServiceHealth) {
    if firstRun || prev.None? then current.status != OK
    else StoredBaseline(prev) != Some(current.status)
  }

  function Change(name: string, prev: Option<ServiceHealth>, current: ServiceHealth): ServiceTransition {
    ServiceTransition(name, StoredBaseline(prev), current.status, current.reasons, current.drift,
                      BuildReplicaChange(prev, current), BuildImageChange(prev, current))
  }

  /** The transitions by name. */
  function Changes(prev: Option<StackSnapshot>, services: map<string, ServiceHealth>): map<string, ServiceTransition> {
    map n | n in services && Reported(FirstRun(prev), Entry(PrevServices(prev), n), services[n])
        :: Change(n, Entry(PrevServices(prev), n), services[n])
  }

  const BY_NAME: ServiceTransition -> string := (t: ServiceTransition) => t.name

  /**
   What is reported, in the source's own terms: on a first run and for a new service,
   whatever is not OK; otherwise whatever differs from the status last notified, or from
   the stored one where none was.
   */
  ghost predicate Told(prev: Option<StackSnapshot>, services: map<string, ServiceHealth>, name: string) {
    name in services &&
    if prev.None? || name !in prev.value.services then services[name].status != OK
    else
      var entry := prev.value.services[name];
      services[name].status != if entry.lastNotifiedStatus.Some? then entry.lastNotifiedStatus.value else entry.status
  }

  /** A reported change carries the grade, its reasons and drift, and the status it is compared with. */
  ghost predicate TellsOf(t: ServiceTransition, prev: Option<StackSnapshot>, current: ServiceHealth) {
    && t.currentStatus == current.status && t.reasons == current.reasons && t.drift == current.drift
    && if prev.None? || t.name !in prev.value.services then t.previousStatus == None
       else
         var entry := prev.value.services[t.name];
         t.previousStatus == if entry.lastNotifiedStatus.Some? then entry.lastNotifiedStatus else Some(entry.status)
  }

  lemma ListingTells(prev: Option<StackSnapshot>, services: map<string, ServiceHealth>, t: ServiceTransition)
    requires t in Listing(Changes(prev, services))
    ensures Told(prev, services, t.name) && TellsOf(t, prev, services[t.name])
  {
    ListingHas(Changes(prev, services), t);
  }

  lemma ToldIsListed(prev: Option<StackSnapshot>, services: map<string, ServiceHealth>, name: string)
    requires Told(prev, services, name)
    ensures exists t :: t in Listing(Changes(prev, services)) && t.name == name
  {
    var t := Changes(prev, services)[name];
    ListingHas(Changes(prev, services), t);
  }

  /** Exactly what there is to report, each with its contents. */
  ghost predicate TellsAll(transitions: seq<ServiceTransition>, prev: Option<StackSnapshot>,
                           services: map<string, ServiceHealth>) {
    && (forall t | t in transitions :: Told(prev, services, t.name) && TellsOf(t, prev, services[t.name]))
    && forall name | Told(prev, services, name) :: exists t :: t in transitions && t.name == name
  }

  lemma ChangesTellAll(prev: Option<StackSnapshot>, services: map<string, ServiceHealth>)
    ensures TellsAll(Listing(Changes(prev, services)), prev, services)
  {
    forall t | t in Listing(Changes(prev, services)) ensures Told(prev, services, t.name)
        && TellsOf(t, prev, services[t.name]) {
      ListingTells(prev, services, t);
    }
    forall name | Told(prev, services, name) ensures exists t ::
        t in Listing(Changes(prev, services)) && t.name == name {
      ToldIsListed(prev, services, name);
    }
  }

  /** Visits the map in any order, then sorts: the listing of the changes by name. */
  method DetectServiceTransitions(prev: Option<StackSnapshot>, services: map<string, ServiceHealth>)
    returns (transitions: seq<ServiceTransition>)
    ensures transitions == Listing(Changes(prev, services))
    ensures StrictlySortedBy(transitions, BY_NAME)
    ensures TellsAll(transitions, prev, services)
  {
    ChangesTellAll(prev, services);
    transitions := CollectTransitions(prev, services);
    SortedCollectionIsListing(transitions, Changes(prev, services), BY_NAME);
    transitions := SortBy(transitions, BY_NAME);
  }

  /** The loop over the map. */
  method CollectTransitions(prev: Option<StackSnapshot>, services: map<string, ServiceHealth>)
    returns (transitions: seq<ServiceTransition>)
    ensures forall t :: t in transitions <==> t in Changes(prev, services).Values
    ensures forall i, j | 0 <= i < j < |transitions| :: transitions[i] != transitions[j]
  {
    var prevServices := if prev.Some? then prev.value.services else map[];
    var firstRun := prev.None? || |prevServices| == 0;
    ghost var changes := Changes(prev, services);
    transitions := [];
    var todo := services.Keys;
    while todo != {}
      invariant todo <= services.Keys
      invariant forall n | n in changes && n !in todo :: changes[n] in transitions
      invariant forall i | 0 <= i < |transitions| ::
                  transitions[i].name in changes && transitions[i].name !in todo
                      && transitions[i] == changes[transitions[i].name]
      invariant forall i, j | 0 <= i < j < |transitions| :: transitions[i] != transitions[j]
    {
      var name :| name in todo;
      todo := todo - {name};
      var currentService := services[name];
      var hadPrev := name in prevServices;
      var prevStatus := if !hadPrev then None
                        else if prevServices[name].lastNotifiedStatus != None then prevServices[name].lastNotifiedStatus
                        else Some(prevServices[name].status);
      if firstRun {
        if currentService.status == OK {
          continue;
        }
      } else if hadPrev {
        if prevStatus == Some(currentService.status) {
          continue;
        }
      } else if currentService.status == OK {
        continue;
      }
      var prevService := if hadPrev then Some(prevServices[name]) else None;
      transitions := transitions + [ServiceTransition(
        name, prevStatus, currentService.status, currentService.reasons, currentService.drift,
        BuildReplicaChange(prevService, currentService), BuildImageChange(prevService, currentService))];
    }
  }
}
