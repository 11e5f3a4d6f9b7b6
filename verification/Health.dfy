/** internal/health: grading services and stacks. */
module Health {
  import opened Wrappers
  import opened Names
  import opened Compose
  import opened Swarm

  datatype Status = OK | Degraded | Failed

  datatype DriftKind = Missing | Extra | ExtraService

  datatype DriftDetail = DriftDetail(kind: DriftKind, resource: string, name: string)

  /** Why a service is not OK; the source formats these as text. */
  datatype Reason =
    | ServiceMissing
    | ServiceExtra
    | ImageMismatch(want: string, got: string)
    | NoRunningReplicas(desired: int)
    | ReplicasRunning(running: int, desired: int)
    | NameMissing(resource: string, name: string)
    | NameExtra(resource: string, name: string)

  /**
   A graded service. `consecutiveCycles` and `lastNotifiedStatus` belong to the
   runner; the empty Go status is `None`.
   */
  datatype ServiceHealth = ServiceHealth(
    name: string,
    status: Status,
    reasons: seq<Reason>,
    drift: seq<DriftDetail>,
    desiredImage: string,
    actualImage: string,
    desiredReplicas: int,
    runningReplicas: int,
    consecutiveCycles: int,
    lastNotifiedStatus: Option<Status>)

  datatype StackHealth = StackHealth(status: Status, services: map<string, ServiceHealth>)

  function Severity(status: Status): int {
    match status
    case Failed => 2
    case Degraded => 1
    case OK => 0
  }

  function WorsenStatus(current: Status, next: Status): Status {
    if Severity(next) > Severity(current) then next else current
  }

  // ----- Drift -----

  /** The entries of `names`, in order, that are not in `others`. */
  function Without(names: seq<string>, others: seq<string>): (r: seq<string>)
    ensures forall n :: n in r <==> n in names && n !in others
  {
    if names == [] then []
    else
      var last := names[|names| - 1];
      var rest := Without(names[..|names| - 1], others);
      assert names == names[..|names| - 1] + [last];
      if last in others then rest else rest + [last]
  }

  function MissingNames(desired: seq<string>, actual: seq<string>): seq<string> {
    SortBy(Without(desired, actual), SELF)
  }

  function ExtraNames(desired: seq<string>, actual: seq<string>): seq<string> {
    SortBy(Without(actual, desired), SELF)
  }

  method DiffNames(desired: seq<string>, actual: seq<string>) returns (missing: seq<string>, extra: seq<string>)
    ensures missing == MissingNames(desired, actual)
    ensures extra == ExtraNames(desired, actual)
  {
    missing, extra := [], [];
    if |desired| == 0 && |actual| == 0 {
      return;
    }
    var actualSet := set n | n in actual;
    for i := 0 to |desired|
      invariant missing == Without(desired[..i], actual)
    {
      assert desired[..i + 1][..i] == desired[..i];
      if desired[i] !in actualSet {
        missing := missing + [desired[i]];
      }
    }
    var desiredSet := set n | n in desired;
    for i := 0 to |actual|
      invariant extra == Without(actual[..i], desired)
    {
      assert actual[..i + 1][..i] == actual[..i];
      if actual[i] !in desiredSet {
        extra := extra + [actual[i]];
      }
    }
    assert desired[..|desired|] == desired && actual[..|actual|] == actual;
    missing := SortBy(missing, SELF);
    extra := SortBy(extra, SELF);
  }

  function Elements(names: seq<string>): set<string> {
    set n | n in names
  }

  lemma {:induction false} WithoutIsStrict(names: seq<string>, others: seq<string>)
    requires StrictlySortedBy(names, SELF)
    ensures StrictlySortedBy(Without(names, others), SELF)
  {
    if names != [] {
      var init := names[..|names| - 1];
      var last := names[|names| - 1];
      WithoutIsStrict(init, others);
      var rest := Without(init, others);
      forall i | 0 <= i < |rest| ensures Less(rest[i], last) {
        assert rest[i] in rest && rest[i] in init;
        var k :| 0 <= k < |init| && init[k] == rest[i];
        assert names[k] == rest[i];
      }
    }
  }

  lemma SortedSetDifference(names: seq<string>, others: seq<string>)
    requires StrictlySortedBy(names, SELF)
    ensures SortBy(Without(names, others), SELF) == SortedNames(Elements(names) - Elements(others))
  {
    var kept := Without(names, others);
    WithoutIsStrict(names, others);
    SortOfStrict(kept, SELF);
    var want := SortedNames(Elements(names) - Elements(others));
    StrictListingIsUnique(kept, want, SELF);
  }

  /** On lists as both sides produce them, drift is exactly the two set differences. */
  lemma DriftIsExact(desired: seq<string>, actual: seq<string>)
    requires NameList(desired) && NameList(actual)
    ensures MissingNames(desired, actual) == SortedNames(Elements(desired) - Elements(actual))
    ensures ExtraNames(desired, actual) == SortedNames(Elements(actual) - Elements(desired))
  {
    SortedSetDifference(desired, actual);
    SortedSetDifference(actual, desired);
  }

  /** For any two lists: no drift iff they name the same set. */
  lemma NoDriftIffSameNames(desired: seq<string>, actual: seq<string>)
    ensures MissingNames(desired, actual) == [] <==> Elements(desired) <= Elements(actual)
    ensures ExtraNames(desired, actual) == [] <==> Elements(actual) <= Elements(desired)
  {
    SortIsOrderedPermutation(Without(desired, actual), SELF);
    SortIsOrderedPermutation(Without(actual, desired), SELF);
    HeadIsMember(MissingNames(desired, actual));
    HeadIsMember(ExtraNames(desired, actual));
    assert forall n :: n in MissingNames(desired, actual) <==> n in Elements(desired) && n !in Elements(actual);
    assert forall n :: n in ExtraNames(desired, actual) <==> n in Elements(actual) && n !in Elements(desired);
  }

  function DetailsOf(kind: DriftKind, resource: string, names: seq<string>): (r: seq<DriftDetail>)
    ensures |r| == |names|
  {
    seq(|names|, i requires 0 <= i < |names| => DriftDetail(kind, resource, names[i]))
  }

  function DriftDetails(resource: string, desired: seq<string>, actual: seq<string>): seq<DriftDetail> {
    DetailsOf(Missing, resource, MissingNames(desired, actual))
        + DetailsOf(Extra, resource, ExtraNames(desired, actual))
  }

  /** The reason that goes with a drift detail. */
  function ReasonFor(detail: DriftDetail): Reason {
    if detail.kind == Missing then NameMissing(detail.resource, detail.name)
    else NameExtra(detail.resource, detail.name)
  }

  function ReasonsFor(details: seq<DriftDetail>): (r: seq<Reason>)
    ensures |r| == |details|
  {
    seq(|details|, i requires 0 <= i < |details| => ReasonFor(details[i]))
  }

  lemma ReasonsForConcat(a: seq<DriftDetail>, b: seq<DriftDetail>)
    ensures ReasonsFor(a + b) == ReasonsFor(a) + ReasonsFor(b)
  {
  }

  /** Either loop of applyDrift: a detail and its reason for each name. */
  method AppendDetails(reasons: seq<Reason>, drift: seq<DriftDetail>, kind: DriftKind, resource: string,
                       names: seq<string>)
    returns (reasons': seq<Reason>, drift': seq<DriftDetail>)
    requires kind == Missing || kind == Extra
    ensures drift' == drift + DetailsOf(kind, resource, names)
    ensures reasons' == reasons + ReasonsFor(DetailsOf(kind, resource, names))
  {
    reasons', drift' := reasons, drift;
    ghost var details := DetailsOf(kind, resource, names);
    for i := 0 to |names|
      invariant drift' == drift + details[..i]
      invariant reasons' == reasons + ReasonsFor(details)[..i]
    {
      reasons' := reasons'
          + [if kind == Missing then NameMissing(resource, names[i]) else NameExtra(resource, names[i])];
      drift' := drift' + [DriftDetail(kind, resource, names[i])];
    }
    assert details[..|names|] == details && ReasonsFor(details)[..|names|] == ReasonsFor(details);
  }

  /** Appends the drift and, one for one and in the same order, its reasons. */
  method ApplyDrift(reasons: seq<Reason>, drift: seq<DriftDetail>, resource: string, desired: seq<string>,
                    actual: seq<string>)
    returns (reasons': seq<Reason>, drift': seq<DriftDetail>)
    ensures drift' == drift + DriftDetails(resource, desired, actual)
    ensures reasons' == reasons + ReasonsFor(DriftDetails(resource, desired, actual))
  {
    var missing, extra := DiffNames(desired, actual);
    ReasonsForConcat(DetailsOf(Missing, resource, missing), DetailsOf(Extra, resource, extra));
    reasons', drift' := AppendDetails(reasons, drift, Missing, resource, missing);
    reasons', drift' := AppendDetails(reasons', drift', Extra, resource, extra);
  }

  // ----- One service -----

  predicate UpdateInProgress(updateState: string) {
    updateState == "updating" || updateState == "rollback_started"
  }

  /** The replica target: a global service takes the swarm's own. */
  function Target(desired: DesiredService, actual: ActualService): int {
    if desired.mode == GLOBAL_DEPLOY_MODE then actual.desiredReplicas else desired.replicas
  }

  function ImageStatus(desired: DesiredService, actual: ActualService): Status {
    if NormalizeImage(desired.image) == NormalizeImage(actual.image) then OK else Degraded
  }

  function ReplicaStatus(desired: DesiredService, actual: ActualService): Status {
    var target := Target(desired, actual);
    if target <= 0 || actual.runningReplicas == target then OK
    else if actual.runningReplicas == 0 then Failed
    else if UpdateInProgress(actual.updateState) then OK
    else Degraded
  }

  /** What the documentation promises of config and secret drift, on sets. */
  function NamesStatus(desired: seq<string>, actual: seq<string>): Status {
    if !(Elements(desired) <= Elements(actual)) then Failed
    else if Elements(desired) != Elements(actual) then Degraded
    else OK
  }

  /** The join of the four independent grades. */
  function JoinedStatus(desired: DesiredService, actual: ActualService): Status {
    WorsenStatus(WorsenStatus(ImageStatus(desired, actual), ReplicaStatus(desired, actual)),
                 WorsenStatus(NamesStatus(desired.configs, actual.configs),
                              NamesStatus(desired.secrets, actual.secrets)))
  }

  function ImageReasons(desired: DesiredService, actual: ActualService): seq<Reason> {
    if ImageStatus(desired, actual) == OK then []
    else [ImageMismatch(NormalizeImage(desired.image), NormalizeImage(actual.image))]
  }

  function ReplicaReasons(desired: DesiredService, actual: ActualService): seq<Reason> {
    match ReplicaStatus(desired, actual)
    case OK => []
    case Failed => [NoRunningReplicas(Target(desired, actual))]
    case Degraded => [ReplicasRunning(actual.runningReplicas, Target(desired, actual))]
  }

  function ServiceDrift(desired: DesiredService, actual: ActualService): seq<DriftDetail> {
    DriftDetails("config", desired.configs, actual.configs) + DriftDetails("secret", desired.secrets, actual.secrets)
  }

  function EvaluatedService(name: string, desired: DesiredService, actual: ActualService): ServiceHealth {
    ServiceHealth(
      name,
      JoinedStatus(desired, actual),
      ImageReasons(desired, actual) + ReplicaReasons(desired, actual) + ReasonsFor(ServiceDrift(desired, actual)),
      ServiceDrift(desired, actual),
      NormalizeImage(desired.image), NormalizeImage(actual.image),
      Target(desired, actual), actual.runningReplicas,
      0, None)
  }

  /** What the drift list alone does to a status. */
  function DriftStatus(drift: seq<DriftDetail>): (r: Status)
    ensures r == Failed <==> exists d :: d in drift && d.kind == Missing
    ensures r == OK <==> forall d | d in drift :: d.kind == ExtraService
  {
    if drift == [] then OK
    else
      var last := drift[|drift| - 1];
      var rest := DriftStatus(drift[..|drift| - 1]);
      assert drift == drift[..|drift| - 1] + [last];
      match last.kind
      case Missing => Failed
      case Extra => WorsenStatus(rest, Degraded)
      case ExtraService => rest
  }

  lemma DetailsHaveNames(resource: string, desired: seq<string>, actual: seq<string>)
    ensures var details := DriftDetails(resource, desired, actual);
      && ((exists d :: d in details && d.kind == Missing) <==> !(Elements(desired) <= Elements(actual)))
      && (details == [] <==> Elements(desired) == Elements(actual))
      && (forall d | d in details :: d.kind != ExtraService)
  {
    var details := DriftDetails(resource, desired, actual);
    NoDriftIffSameNames(desired, actual);
    var missing := MissingNames(desired, actual);
    if missing != [] {
      assert details[0] == DetailsOf(Missing, resource, missing)[0];
      assert details[0].kind == Missing && details[0] in details;
    }
    assert forall d | d in DetailsOf(Missing, resource, missing) :: d.kind == Missing;
    assert forall d | d in DetailsOf(Extra, resource, ExtraNames(desired, actual)) :: d.kind == Extra;
  }

  lemma DriftStatusIsNamesStatus(desired: DesiredService, actual: ActualService)
    ensures DriftStatus(ServiceDrift(desired, actual))
         == WorsenStatus(NamesStatus(desired.configs, actual.configs), NamesStatus(desired.secrets, actual.secrets))
  {
    DetailsHaveNames("config", desired.configs, actual.configs);
    DetailsHaveNames("secret", desired.secrets, actual.secrets);
    var drift := ServiceDrift(desired, actual);
    HeadIsMember(drift);
  }

  /** The last loop of evaluateService: the drift's effect on the grade. */
  method WorsenByDrift(status: Status, drift: seq<DriftDetail>) returns (r: Status)
    ensures r == WorsenStatus(status, DriftStatus(drift))
  {
    r := status;
    for i := 0 to |drift|
      invariant r == WorsenStatus(status, DriftStatus(drift[..i]))
    {
      assert drift[..i + 1][..i] == drift[..i];
      match drift[i].kind {
        case Missing => r := WorsenStatus(r, Failed);
        case Extra => r := WorsenStatus(r, Degraded);
        case ExtraService =>
      }
    }
    assert drift[..|drift|] == drift;
  }

  /** The image and replica checks of evaluateService. */
  method CheckImageAndReplicas(desired: DesiredService, actual: ActualService)
    returns (status: Status, reasons: seq<Reason>)
    ensures status == WorsenStatus(ImageStatus(desired, actual), ReplicaStatus(desired, actual))
    ensures reasons == ImageReasons(desired, actual) + ReplicaReasons(desired, actual)
  {
    status, reasons := OK, [];
    var desiredImage := NormalizeImage(desired.image);
    var actualImage := NormalizeImage(actual.image);
    if desiredImage != actualImage {
      status := WorsenStatus(status, Degraded);
      reasons := reasons + [ImageMismatch(desiredImage, actualImage)];
    }
    var desiredReplicas := desired.replicas;
    if desired.mode == GLOBAL_DEPLOY_MODE {
      desiredReplicas := actual.desiredReplicas;
    }
    var updateInProgress := actual.updateState == "updating" || actual.updateState == "rollback_started";
    if desiredReplicas > 0 {
      if actual.runningReplicas == 0 {
        status := WorsenStatus(status, Failed);
        reasons := reasons + [NoRunningReplicas(desiredReplicas)];
      } else if updateInProgress {
      } else if actual.runningReplicas < desiredReplicas {
        status := WorsenStatus(status, Degraded);
        reasons := reasons + [ReplicasRunning(actual.runningReplicas, desiredReplicas)];
      } else if actual.runningReplicas > desiredReplicas {
        status := WorsenStatus(status, Degraded);
        reasons := reasons + [ReplicasRunning(actual.runningReplicas, desiredReplicas)];
      }
    }
  }

  /** The config and secret drift of evaluateService. */
  method CheckDrift(reasons: seq<Reason>, desired: DesiredService, actual: ActualService)
    returns (reasons': seq<Reason>, drift: seq<DriftDetail>)
    ensures drift == ServiceDrift(desired, actual)
    ensures reasons' == reasons + ReasonsFor(ServiceDrift(desired, actual))
  {
    ReasonsForConcat(DriftDetails("config", desired.configs, actual.configs),
                     DriftDetails("secret", desired.secrets, actual.secrets));
    reasons', drift := ApplyDrift(reasons, [], "config", desired.configs, actual.configs);
    reasons', drift := ApplyDrift(reasons', drift, "secret", desired.secrets, actual.secrets);
  }

  method EvaluateService(name: string, desired: DesiredService, actual: ActualService) returns (health: ServiceHealth)
    ensures health == EvaluatedService(name, desired, actual)
  {
    var desiredReplicas := if desired.mode == GLOBAL_DEPLOY_MODE then actual.desiredReplicas else desired.replicas;
    var status, reasons := CheckImageAndReplicas(desired, actual);
    var drift;
    reasons, drift := CheckDrift(reasons, desired, actual);
    status := WorsenByDrift(status, drift);
    DriftStatusIsNamesStatus(desired, actual);
    health := ServiceHealth(name, status, reasons, drift, NormalizeImage(desired.image), NormalizeImage(actual.image),
                            desiredReplicas, actual.runningReplicas, 0, None);
  }

  lemma OKIffNoReasons(name: string, desired: DesiredService, actual: ActualService)
    ensures EvaluatedService(name, desired, actual).status == OK <==>
              EvaluatedService(name, desired, actual).reasons == []
  {
    DetailsHaveNames("config", desired.configs, actual.configs);
    DetailsHaveNames("secret", desired.secrets, actual.secrets);
    assert |ReasonsFor(ServiceDrift(desired, actual))| == |ServiceDrift(desired, actual)|;
  }

  lemma NamesFailedIffOneAbsent(desired: seq<string>, actual: seq<string>)
    ensures NamesStatus(desired, actual) == Failed <==> exists n :: n in desired && n !in actual
  {
    assert forall n :: n in desired <==> n in Elements(desired);
    assert forall n :: n in actual <==> n in Elements(actual);
  }

  /** The replicas that should run: as written, but in mode "global" the swarm's own count. */
  ghost function Wanted(desired: DesiredService, actual: ActualService): int {
    if desired.mode == "global" then actual.desiredReplicas else desired.replicas
  }

  /** An update or a rollback is under way. */
  ghost predicate Updating(actual: ActualService) {
    actual.updateState in {"updating", "rollback_started"}
  }

  /** OK iff there is nothing to report; FAILED iff something required is wholly absent. */
  lemma ServiceGradeIsExact(name: string, desired: DesiredService, actual: ActualService)
    ensures var h := EvaluatedService(name, desired, actual);
      && (h.status == OK <==> h.reasons == [])
      && (h.status == Failed <==>
           || (exists c :: c in desired.configs && c !in actual.configs)
           || (exists s :: s in desired.secrets && s !in actual.secrets)
           || (Wanted(desired, actual) > 0 && actual.runningReplicas == 0))
  {
    OKIffNoReasons(name, desired, actual);
    NamesFailedIffOneAbsent(desired.configs, actual.configs);
    NamesFailedIffOneAbsent(desired.secrets, actual.secrets);
  }

  /**
   An update in progress can only excuse a DEGRADED service, and only when the
   running count is its sole trouble; it never makes or hides a FAILED one.
   */
  lemma UpdateOnlyExcusesReplicas(name: string, desired: DesiredService, actual: ActualService, updating: string)
    requires !Updating(actual) && updating in {"updating", "rollback_started"}
    ensures var still := EvaluatedService(name, desired, actual);
      var moving := EvaluatedService(name, desired, actual.(updateState := updating));
      && (moving.status == Failed <==> still.status == Failed)
      && (moving.status == still.status || (still.status == Degraded && moving.status == OK))
      && (moving.status != still.status <==>
            && Wanted(desired, actual) > 0 && actual.runningReplicas != 0
            && actual.runningReplicas != Wanted(desired, actual)
            && NormalizeImage(desired.image) == NormalizeImage(actual.image)
            && Elements(desired.configs) == Elements(actual.configs)
            && Elements(desired.secrets) == Elements(actual.secrets))
  {
  }

  /** The image and replica reasons, as the source tells them apart. */
  ghost predicate FirstReasons(reasons: seq<Reason>, desired: DesiredService, actual: ActualService) {
    var want, got := NormalizeImage(desired.image), NormalizeImage(actual.image);
    var target, running := Wanted(desired, actual), actual.runningReplicas;
    reasons == (if want != got then [ImageMismatch(want, got)] else [])
               + (if target <= 0 then []
                  else if running == 0 then [NoRunningReplicas(target)]
                  else if Updating(actual) || running == target then []
                  else [ReplicasRunning(running, target)])
  }

  /** One detail for each of these names, in order. */
  ghost function Listed(kind: DriftKind, resource: string, names: set<string>): seq<DriftDetail> {
    var sorted := SortedNames(names);
    seq(|sorted|, i requires 0 <= i < |sorted| => DriftDetail(kind, resource, sorted[i]))
  }

  /** Missing configs, extra configs, missing secrets, extra secrets. */
  ghost function DriftOf(desired: DesiredService, actual: ActualService): seq<DriftDetail> {
    var dc, ac, ds, asec := Elements(desired.configs), Elements(actual.configs), Elements(desired.secrets),
        Elements(actual.secrets);
    Listed(Missing, "config", dc - ac) + Listed(Extra, "config", ac - dc)
    + Listed(Missing, "secret", ds - asec) + Listed(Extra, "secret", asec - ds)
  }

  lemma DetailsAreListed(resource: string, desired: seq<string>, actual: seq<string>)
    requires NameList(desired) && NameList(actual)
    ensures DriftDetails(resource, desired, actual)
         == Listed(Missing, resource, Elements(desired) - Elements(actual))
             + Listed(Extra, resource, Elements(actual) - Elements(desired))
  {
    DriftIsExact(desired, actual);
  }

  lemma ServiceDriftIsListed(desired: DesiredService, actual: ActualService)
    requires NameList(desired.configs) && NameList(desired.secrets)
    requires NameList(actual.configs) && NameList(actual.secrets)
    ensures ServiceDrift(desired, actual) == DriftOf(desired, actual)
  {
    DetailsAreListed("config", desired.configs, actual.configs);
    DetailsAreListed("secret", desired.secrets, actual.secrets);
  }

  /** The reason reported with each drift detail. */
  ghost predicate ToldBy(reason: Reason, detail: DriftDetail) {
    match detail.kind
    case Missing => reason == NameMissing(detail.resource, detail.name)
    case Extra => reason == NameExtra(detail.resource, detail.name)
    case ExtraService => false
  }

  lemma DriftReasonsAreTold(desired: DesiredService, actual: ActualService)
    ensures var drift := ServiceDrift(desired, actual);
      forall i | 0 <= i < |drift| :: ToldBy(ReasonsFor(drift)[i], drift[i])
  {
    var drift := ServiceDrift(desired, actual);
    DetailsHaveNames("config", desired.configs, actual.configs);
    DetailsHaveNames("secret", desired.secrets, actual.secrets);
    forall i | 0 <= i < |drift| ensures ToldBy(ReasonsFor(drift)[i], drift[i]) {
      assert drift[i] in drift;
    }
  }

  /** What is told first, and then one reason for each drift detail. */
  ghost predicate ReasonsTell(h: ServiceHealth, desired: DesiredService, actual: ActualService) {
    && |h.reasons| >= |h.drift|
    && var first := |h.reasons| - |h.drift|;
    && FirstReasons(h.reasons[..first], desired, actual)
    && (forall i | 0 <= i < |h.drift| :: ToldBy(h.reasons[first + i], h.drift[i]))
  }

  lemma ReasonsAreTold(name: string, desired: DesiredService, actual: ActualService)
    ensures ReasonsTell(EvaluatedService(name, desired, actual), desired, actual)
  {
    DriftReasonsAreTold(desired, actual);
    var first := ImageReasons(desired, actual) + ReplicaReasons(desired, actual);
    SplitReasons(first, ReasonsFor(ServiceDrift(desired, actual)));
    FirstReasonsAre(desired, actual);
  }

  /** The rest of a graded service, read off the two descriptions: images, counts, drift and reasons. */
  lemma ServiceDetailsAreExact(name: string, desired: DesiredService, actual: ActualService)
    requires NameList(desired.configs) && NameList(desired.secrets)
    requires NameList(actual.configs) && NameList(actual.secrets)
    ensures var h := EvaluatedService(name, desired, actual);
      && h.name == name
      && h.desiredImage == NormalizeImage(desired.image) && h.actualImage == NormalizeImage(actual.image)
      && h.desiredReplicas == Wanted(desired, actual) && h.runningReplicas == actual.runningReplicas
      && h.drift == DriftOf(desired, actual)
      && ReasonsTell(h, desired, actual)
  {
    ServiceDriftIsListed(desired, actual);
    ReasonsAreTold(name, desired, actual);
  }

  lemma SplitReasons(first: seq<Reason>, rest: seq<Reason>)
    ensures (first + rest)[..|first|] == first
    ensures forall i | 0 <= i < |rest| :: (first + rest)[|first| + i] == rest[i]
  {
  }

  lemma FirstReasonsAre(desired: DesiredService, actual: ActualService)
    ensures FirstReasons(ImageReasons(desired, actual) + ReplicaReasons(desired, actual), desired, actual)
  {
  }

  // ----- The stack -----

  function MissingHealth(name: string, desired: DesiredService): ServiceHealth {
    ServiceHealth(name, Failed, [ServiceMissing], [], NormalizeImage(desired.image), "", desired.replicas, 0, 0, None)
  }

  function ExtraHealth(name: string, actual: ActualService): ServiceHealth {
    ServiceHealth(name, Degraded, [ServiceExtra], [DriftDetail(ExtraService, "service", actual.name)],
                  "", NormalizeImage(actual.image), actual.desiredReplicas, actual.runningReplicas, 0, None)
  }

  function ActualServices(actual: Option<ActualState>): map<string, ActualService> {
    if actual.None? then map[] else actual.value.services
  }

  /** The grade of one name of the stack. */
  function Graded(name: string, desired: DesiredState, actual: map<string, ActualService>): ServiceHealth
    requires name in desired.services || name in actual
  {
    if name !in desired.services then ExtraHealth(name, actual[name])
    else if name !in actual then MissingHealth(name, desired.services[name])
    else EvaluatedService(name, desired.services[name], actual[name])
  }

  function GradedNames(desired: DesiredState, actual: map<string, ActualService>, scoped: bool): set<string> {
    if scoped then desired.services.Keys + actual.Keys else desired.services.Keys
  }

  function GradedOn(names: set<string>, desired: DesiredState,
                    actual: map<string, ActualService>): map<string, ServiceHealth>
    requires names <= desired.services.Keys + actual.Keys
  {
    map n | n in names :: Graded(n, desired, actual)
  }

  function GradedServices(desired: DesiredState, actual: map<string, ActualService>,
                          scoped: bool): map<string, ServiceHealth> {
    GradedOn(GradedNames(desired, actual, scoped), desired, actual)
  }

  /** "Any FAILED: FAILED; else any DEGRADED: DEGRADED; else OK." */
  function StackStatus(services: map<string, ServiceHealth>): Status {
    if exists n | n in services :: services[n].status == Failed then Failed
    else if exists n | n in services :: services[n].status == Degraded then Degraded
    else OK
  }

  /** The grades of these names and the grade of the stack they make. */
  function StackOn(names: set<string>, desired: DesiredState, actual: map<string, ActualService>): StackHealth
    requires names <= desired.services.Keys + actual.Keys
  {
    StackHealth(StackStatus(GradedOn(names, desired, actual)), GradedOn(names, desired, actual))
  }

  function EvaluatedStack(desired: DesiredState, actual: Option<ActualState>, scoped: bool): StackHealth {
    StackOn(GradedNames(desired, ActualServices(actual), scoped), desired, ActualServices(actual))
  }

  lemma StackStatusSingle(name: string, health: ServiceHealth)
    ensures StackStatus(map[name := health]) == health.status
  {
    assert map[name := health][name] == health;
  }

  lemma StackStatusUnion(a: map<string, ServiceHealth>, b: map<string, ServiceHealth>)
    requires a.Keys !! b.Keys
    ensures StackStatus(a + b) == WorsenStatus(StackStatus(a), StackStatus(b))
  {
    var u := a + b;
    assert forall n | n in a :: n in u && u[n] == a[n];
    assert forall n | n in b :: n in u && u[n] == b[n];
    assert forall n | n in u :: n in a || n in b;
  }

  lemma OneMoreStatus(services: map<string, ServiceHealth>, name: string, health: ServiceHealth)
    requires name !in services
    ensures StackStatus(services[name := health]) == WorsenStatus(StackStatus(services), health.status)
  {
    StackStatusUnion(services, map[name := health]);
    StackStatusSingle(name, health);
    assert services[name := health] == services + map[name := health];
  }

  lemma OneMoreGrade(names: set<string>, name: string, desired: DesiredState, actual: map<string, ActualService>)
    requires names <= desired.services.Keys + actual.Keys
    requires name in desired.services || name in actual
    ensures GradedOn(names, desired, actual)[name := Graded(name, desired, actual)]
              == GradedOn(names + {name}, desired, actual)
  {
  }

  /** Grading one more name is worsening the stack by its grade. */
  lemma StackOfOneMore(names: set<string>, name: string, desired: DesiredState, actual: map<string, ActualService>)
    requires names <= desired.services.Keys + actual.Keys
    requires name !in names && (name in desired.services || name in actual)
    ensures var before, health := StackOn(names, desired, actual), Graded(name, desired, actual);
      StackOn(names + {name}, desired, actual)
        == StackHealth(WorsenStatus(before.status, health.status), before.services[name := health])
  {
    OneMoreGrade(names, name, desired, actual);
    OneMoreStatus(GradedOn(names, desired, actual), name, Graded(name, desired, actual));
  }

  lemma StackOfNone(desired: DesiredState, actual: map<string, ActualService>)
    ensures StackOn({}, desired, actual) == StackHealth(OK, map[])
  {
    assert GradedOn({}, desired, actual) == map[];
  }

  /** The first loop's body: a desired service, present or missing. */
  method GradeDesired(name: string, desired: DesiredState, actual: map<string, ActualService>)
    returns (health: ServiceHealth)
    requires name in desired.services
    ensures health == Graded(name, desired, actual)
  {
    var desiredService := desired.services[name];
    if name !in actual {
      return ServiceHealth(name, Failed, [ServiceMissing], [], NormalizeImage(desiredService.image), "",
                           desiredService.replicas, 0, 0, None);
    }
    health := EvaluateService(name, desiredService, actual[name]);
  }

  /** The second loop's body: a service that runs but is not desired. */
  method GradeExtra(name: string, desired: DesiredState, actual: map<string, ActualService>)
    returns (health: ServiceHealth)
    requires name in actual && name !in desired.services
    ensures health == Graded(name, desired, actual)
  {
    var service := actual[name];
    health := ServiceHealth(name, Degraded, [ServiceExtra], [DriftDetail(ExtraService, "service", service.name)],
                            "", NormalizeImage(service.image),
                            service.desiredReplicas, service.runningReplicas, 0, None);
  }

  /** Adds one graded service: the common end of both loop bodies. */
  function AddHealth(result: StackHealth, name: string, health: ServiceHealth): StackHealth {
    StackHealth(WorsenStatus(result.status, health.status), result.services[name := health])
  }

  /** The first loop: every desired service, in any order. */
  method GradeAllDesired(desired: DesiredState, actual: map<string, ActualService>) returns (result: StackHealth)
    ensures result == StackOn(desired.services.Keys, desired, actual)
  {
    result := StackHealth(OK, map[]);
    StackOfNone(desired, actual);
    ghost var done: set<string> := {};
    var todo := desired.services.Keys;
    while todo != {}
      invariant todo !! done && todo + done == desired.services.Keys
      invariant result == StackOn(done, desired, actual)
    {
      var name :| name in todo;
      var health := GradeDesired(name, desired, actual);
      StackOfOneMore(done, name, desired, actual);
      result := AddHealth(result, name, health);
      todo, done := todo - {name}, done + {name};
    }
  }

  /** The names graded while these actual ones are still to be visited. */
  function GradedBut(todo: set<string>, desired: DesiredState, actual: map<string, ActualService>): set<string> {
    desired.services.Keys + (actual.Keys - todo)
  }

  lemma OneExtraLess(todo: set<string>, name: string, desired: DesiredState, actual: map<string, ActualService>)
    requires todo <= actual.Keys && name in todo
    ensures var before, after := GradedBut(todo, desired, actual), GradedBut(todo - {name}, desired, actual);
      StackOn(after, desired, actual)
        == if name in desired.services then StackOn(before, desired, actual)
           else AddHealth(StackOn(before, desired, actual), name, Graded(name, desired, actual))
  {
    var before, after := GradedBut(todo, desired, actual), GradedBut(todo - {name}, desired, actual);
    assert after == before + {name};
    if name in desired.services {
      assert after == before;
    } else {
      StackOfOneMore(before, name, desired, actual);
    }
  }

  /** The second loop: every undesired service that runs, in any order. */
  method GradeAllExtra(result: StackHealth, desired: DesiredState, actual: map<string, ActualService>)
    returns (result': StackHealth)
    requires result == StackOn(desired.services.Keys, desired, actual)
    ensures result' == StackOn(desired.services.Keys + actual.Keys, desired, actual)
  {
    result' := result;
    var todo := actual.Keys;
    assert GradedBut(todo, desired, actual) == desired.services.Keys;
    while todo != {}
      invariant todo <= actual.Keys
      invariant result' == StackOn(GradedBut(todo, desired, actual), desired, actual)
    {
      var name :| name in todo;
      OneExtraLess(todo, name, desired, actual);
      if name !in desired.services {
        var health := GradeExtra(name, desired, actual);
        result' := AddHealth(result', name, health);
      }
      todo := todo - {name};
    }
    assert GradedBut({}, desired, actual) == desired.services.Keys + actual.Keys;
  }

  /** Both maps are visited in any order; the result is a function of the inputs. */
  method EvaluateStackHealth(desired: DesiredState, actual: Option<ActualState>, scoped: bool)
    returns (result: StackHealth)
    ensures result == EvaluatedStack(desired, actual, scoped)
    ensures EachService(result, desired, if actual.None? then map[] else actual.value.services, scoped)
    ensures result.status == Failed <==>
              exists n :: n in desired.services
                          && Broken(n, desired.services[n], if actual.None? then map[] else actual.value.services)
    ensures result.status == OK <==> StackAgrees(desired, actual, scoped)
    ensures result.status == Degraded <==>
              && !StackAgrees(desired, actual, scoped)
              && forall n | n in desired.services ::
                   !Broken(n, desired.services[n], if actual.None? then map[] else actual.value.services)
  {
    EachServiceIsGraded(desired, actual, scoped);
    StackFailedIffBroken(desired, actual, scoped);
    StackOKIffAgrees(desired, actual, scoped);
    var actualServices := if actual.None? then map[] else actual.value.services;
    result := GradeAllDesired(desired, actualServices);
    if scoped {
      result := GradeAllExtra(result, desired, actualServices);
    }
  }

  lemma GradedOnUnion(a: set<string>, b: set<string>, desired: DesiredState, actual: map<string, ActualService>)
    requires a <= desired.services.Keys + actual.Keys && b <= desired.services.Keys + actual.Keys
    ensures GradedOn(a + b, desired, actual) == GradedOn(a, desired, actual) + GradedOn(b, desired, actual)
  {
    var m, u := GradedOn(a + b, desired, actual), GradedOn(a, desired, actual) + GradedOn(b, desired, actual);
    assert m.Keys == u.Keys;
  }

  lemma ExtrasAreDegraded(extras: set<string>, desired: DesiredState, actual: map<string, ActualService>)
    requires extras <= actual.Keys - desired.services.Keys
    ensures StackStatus(GradedOn(extras, desired, actual)) == if extras == {} then OK else Degraded
  {
    var added := GradedOn(extras, desired, actual);
    assert forall n | n in added :: added[n].status == Degraded;
    if extras != {} {
      var n :| n in extras;
      assert n in added;
    }
  }

  /**
   Scoping adds the undesired services and nothing else: on the desired names the
   two results agree, and the stack grade is worsened to DEGRADED at most.
   */
  lemma ScopingOnlyAddsExtras(desired: DesiredState, actual: Option<ActualState>)
    ensures var scoped, plain := EvaluatedStack(desired, actual, true), EvaluatedStack(desired, actual, false);
      var extras := ActualServices(actual).Keys - desired.services.Keys;
      && plain.services.Keys == desired.services.Keys
      && scoped.services.Keys == desired.services.Keys + extras
      && (forall n | n in desired.services :: scoped.services[n] == plain.services[n])
      && scoped.status == WorsenStatus(plain.status, if extras == {} then OK else Degraded)
  {
    ScopedIsPlainPlusExtras(desired, ActualServices(actual));
  }

  lemma ScopedIsPlainPlusExtras(desired: DesiredState, actual: map<string, ActualService>)
    ensures var extras := actual.Keys - desired.services.Keys;
      && GradedServices(desired, actual, true)
          == GradedServices(desired, actual, false) + GradedOn(extras, desired, actual)
      && StackStatus(GradedServices(desired, actual, true))
           == WorsenStatus(StackStatus(GradedServices(desired, actual, false)), if extras == {} then OK else Degraded)
  {
    var wanted, extras := desired.services.Keys, actual.Keys - desired.services.Keys;
    assert wanted + extras == GradedNames(desired, actual, true);
    GradedOnUnion(wanted, extras, desired, actual);
    ExtrasAreDegraded(extras, desired, actual);
    StackStatusUnion(GradedOn(wanted, desired, actual), GradedOn(extras, desired, actual));
  }

  /** Running as described, as far as the grading looks: it counts replicas only where some are asked for. */
  ghost predicate Agrees(desired: DesiredService, actual: ActualService) {
    && NormalizeImage(desired.image) == NormalizeImage(actual.image)
    && (Wanted(desired, actual) > 0 ==>
          actual.runningReplicas == Wanted(desired, actual) || (actual.runningReplicas != 0 && Updating(actual)))
    && Elements(desired.configs) == Elements(actual.configs)
    && Elements(desired.secrets) == Elements(actual.secrets)
  }

  /** Running as described, whatever the number of replicas asked for. */
  ghost predicate FullyAgrees(desired: DesiredService, actual: ActualService) {
    && NormalizeImage(desired.image) == NormalizeImage(actual.image)
    && (actual.runningReplicas == Wanted(desired, actual) || (actual.runningReplicas != 0 && Updating(actual)))
    && Elements(desired.configs) == Elements(actual.configs)
    && Elements(desired.secrets) == Elements(actual.secrets)
  }

  /** None are asked for, and yet the count differs. */
  ghost predicate Overlooked(desired: DesiredService, actual: ActualService) {
    && Wanted(desired, actual) <= 0 && actual.runningReplicas != Wanted(desired, actual)
    && !(actual.runningReplicas != 0 && Updating(actual))
  }

  /** Where the grade falls short of the full comparison: exactly where no replicas are asked for and some run. */
  lemma OKIffFullyAgreesOrOverlooked(name: string, desired: DesiredService, actual: ActualService)
    ensures FullyAgrees(desired, actual) <==>
              EvaluatedService(name, desired, actual).status == OK && !Overlooked(desired, actual)
    ensures Overlooked(desired, actual) ==> !FullyAgrees(desired, actual)
  {
    OKIffAgrees(name, desired, actual);
  }

  /** The failure: a service scaled to nothing that still runs is graded OK. */
  lemma ScaledDownButRunningIsOK(name: string, image: string, running: int)
    requires running > 0
    ensures var desired := DesiredService(image, DEFAULT_DEPLOY_MODE, 0, [], []);
      var actual := ActualService(name, image, "replicated", 0, running, [], [], "");
      && EvaluatedService(name, desired, actual).status == OK
      && Overlooked(desired, actual) && !FullyAgrees(desired, actual)
  {
    var desired := DesiredService(image, DEFAULT_DEPLOY_MODE, 0, [], []);
    OKIffAgrees(name, desired, ActualService(name, image, "replicated", 0, running, [], [], ""));
  }

  ghost predicate StackAgrees(desired: DesiredState, actual: Option<ActualState>, scoped: bool) {
    && (forall n | n in desired.services ::
        n in ActualServices(actual) && Agrees(desired.services[n], ActualServices(actual)[n]))
    && (scoped ==> ActualServices(actual).Keys <= desired.services.Keys)
  }

  lemma OKIffAgrees(name: string, desired: DesiredService, actual: ActualService)
    ensures EvaluatedService(name, desired, actual).status == OK <==> Agrees(desired, actual)
  {
  }

  lemma NameOKIffAgrees(name: string, desired: DesiredState, actual: map<string, ActualService>)
    requires name in desired.services || name in actual
    ensures Graded(name, desired, actual).status == OK <==>
              name in desired.services && name in actual && Agrees(desired.services[name], actual[name])
  {
    if name in desired.services && name in actual {
      OKIffAgrees(name, desired.services[name], actual[name]);
    }
  }

  lemma StackStatusOK(services: map<string, ServiceHealth>)
    ensures StackStatus(services) == OK <==> forall n | n in services :: services[n].status == OK
  {
  }

  /** The stack is OK iff it runs as described; then every service in it is OK. */
  lemma StackOKIffAgrees(desired: DesiredState, actual: Option<ActualState>, scoped: bool)
    ensures EvaluatedStack(desired, actual, scoped).status == OK <==> StackAgrees(desired, actual, scoped)
    ensures StackAgrees(desired, actual, scoped) <==>
              forall n | n in EvaluatedStack(desired, actual, scoped).services ::
                EvaluatedStack(desired, actual, scoped).services[n].status == OK
  {
    var services := ActualServices(actual);
    var names := GradedNames(desired, services, scoped);
    var graded := GradedServices(desired, services, scoped);
    StackStatusOK(graded);
    if forall n | n in names :: graded[n].status == OK {
      forall n | n in names ensures n in desired.services && n in services && Agrees(desired.services[n], services[n]) {
        NameOKIffAgrees(n, desired, services);
      }
    }
    if StackAgrees(desired, actual, scoped) {
      forall n | n in names ensures graded[n].status == OK {
        NameOKIffAgrees(n, desired, services);
      }
    }
  }

  /** A desired service that is absent, or lacks a config, a secret or every replica it should have. */
  ghost predicate Broken(name: string, desired: DesiredService, actual: map<string, ActualService>) {
    || name !in actual
    || (exists c :: c in desired.configs && c !in actual[name].configs)
    || (exists s :: s in desired.secrets && s !in actual[name].secrets)
    || (actual[name].runningReplicas == 0
        && (if desired.mode == "global" then actual[name].desiredReplicas else desired.replicas) > 0)
  }

  lemma FailedIffBroken(name: string, desired: DesiredState, actual: map<string, ActualService>)
    requires name in desired.services || name in actual
    ensures Graded(name, desired, actual).status == Failed <==>
              name in desired.services && Broken(name, desired.services[name], actual)
  {
    if name in desired.services && name in actual {
      ServiceGradeIsExact(name, desired.services[name], actual[name]);
    }
  }

  lemma StackStatusFailed(services: map<string, ServiceHealth>)
    ensures StackStatus(services) == Failed <==> exists n :: n in services && services[n].status == Failed
  {
  }

  lemma StackFailedIffBroken(desired: DesiredState, actual: Option<ActualState>, scoped: bool)
    ensures EvaluatedStack(desired, actual, scoped).status == Failed <==>
              exists n :: n in desired.services && Broken(n, desired.services[n], ActualServices(actual))
  {
    var services := ActualServices(actual);
    var graded := GradedServices(desired, services, scoped);
    StackStatusFailed(graded);
    forall n | n in graded
      ensures graded[n].status == Failed <==> n in desired.services && Broken(n, desired.services[n], services)
    {
      FailedIffBroken(n, desired, services);
    }
    assert forall n | n in desired.services :: n in graded;
  }

  /** Each service of the result: desired and running, only desired, or only running. */
  ghost predicate EachService(result: StackHealth, desired: DesiredState, actual: map<string, ActualService>,
                              scoped: bool) {
    && result.services.Keys == desired.services.Keys + (if scoped then actual.Keys else {})
    && (forall n | n in desired.services && n in actual ::
          result.services[n] == EvaluatedService(n, desired.services[n], actual[n]))
    && (forall n | n in desired.services && n !in actual ::
          var service := desired.services[n];
          result.services[n] == ServiceHealth(n, Failed, [ServiceMissing], [], NormalizeImage(service.image), "",
                                              service.replicas, 0, 0, None))
    && (scoped ==> forall n | n in actual && n !in desired.services ::
          var service := actual[n];
          result.services[n]
              == ServiceHealth(n, Degraded, [ServiceExtra], [DriftDetail(ExtraService, "service", service.name)],
                                              "", NormalizeImage(service.image),
                                              service.desiredReplicas, service.runningReplicas, 0, None))
  }

  lemma EachServiceIsGraded(desired: DesiredState, actual: Option<ActualState>, scoped: bool)
    ensures EachService(EvaluatedStack(desired, actual, scoped), desired, ActualServices(actual), scoped)
  {
  }
}
