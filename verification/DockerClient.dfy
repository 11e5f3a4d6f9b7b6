/** internal/swarm/docker_client.go: the actual state from the Docker API. */
module DockerClient {
  import opened Wrappers
  import opened Names
  import opened Swarm
  import opened Pagination

  datatype ContainerSpec = ContainerSpec(configs: seq<Option<string>>, secrets: seq<Option<string>>)

  /** A task; a nil config or secret reference is `None`. */
  datatype Task = Task(id: string, state: string, spec: Option<ContainerSpec>)

  datatype ServiceMode = Replicated(replicas: Option<int>) | Global | ReplicatedJob | GlobalJob | UnknownMode

  datatype Service = Service(
    id: string,
    name: string,
    mode: ServiceMode,
    desiredTasks: Option<int>,
    image: Option<string>,
    updateState: Option<string>)

  const TASK_ID: Task -> string := (t: Task) => t.id
  const SERVICE_ID: Service -> string := (s: Service) => s.id

  // ----- Listing -----

  /**
   What every success path of listServices and listTasks returns: everything, or
   (only after paging) everything that prefixes reach.
   */
  ghost predicate Lists<T(!new)>(items: seq<T>, all: set<T>, id: T -> string) {
    Exactly(items, all) || Exactly(items, FanReach(SOURCE_LIMITS, all, id, "", 0))
  }

  /** An answer that needs no retry and no paging. */
  predicate Direct<T>(answer: Result<seq<T>, ListError>) {
    answer.Ok? && |answer.value| <= 1000
  }

  /** Every request for a prefix is answered. */
  ghost predicate PrefixesAnswer<T(!new)>(reply: Reply<T>) {
    forall k, prefix | prefix != "" :: reply(k, prefix).Ok?
  }

  /** The last request, for a prefix, was not answered. */
  ghost predicate PagingFailed<T(!new)>(lister: Lister<T>)
    reads lister
  {
    lister.LastReply().Err? && lister.queries != [] && lister.queries[|lister.queries| - 1] != ""
  }

  lemma FailedPagingHasFailingPrefix<T(!new)>(lister: Lister<T>)
    requires PagingFailed(lister)
    ensures !PrefixesAnswer(lister.reply)
  {
    var k := lister.requests - 1;
    assert lister.requests > 0 && lister.reply(k, lister.queries[|lister.queries| - 1]).Err?;
  }

  method ListServices(lister: Lister<Service>, ghost all: set<Service>) returns (r: Result<seq<Service>, ListError>)
    requires Accurate(lister.reply, all, SERVICE_ID) && DistinctIDs(all, SERVICE_ID)
    modifies lister
    ensures r.Ok? ==> Lists(r.value, all, SERVICE_ID)
    ensures Direct(lister.reply(old(lister.requests), "")) ==> r == lister.reply(old(lister.requests), "")
    ensures r.Err? ==> exists k | old(lister.requests) <= k < lister.requests :: lister.reply(k, "") == r
    ensures r.Err? ==> PagingFailed(lister)
    ensures PrefixesAnswer(lister.reply) ==> r.Ok?
  {
    r := ListOrPage(lister, SERVICE_ID, all);
  }

  method ListTasks(lister: Lister<Task>, expected: int, ghost all: set<Task>) returns (r: Result<seq<Task>, ListError>)
    requires Accurate(lister.reply, all, TASK_ID) && DistinctIDs(all, TASK_ID)
    modifies lister
    ensures r.Ok? ==> Lists(r.value, all, TASK_ID)
    ensures r.Err? && expected > 1000 ==> lister.LastReply() == r
    ensures r.Err? && expected <= 1000 ==>
              exists k | old(lister.requests) <= k < lister.requests :: lister.reply(k, "") == r
    ensures r.Err? ==> PagingFailed(lister)
    ensures PrefixesAnswer(lister.reply) ==> r.Ok?
    ensures old(lister.queries) <= lister.queries
    ensures expected > 1000 ==> forall k | |old(lister.queries)| <= k < |lister.queries| :: lister.queries[k] != ""
    ensures expected <= 1000 ==> |lister.queries| > |old(lister.queries)| && lister.queries[|old(lister.queries)|] == ""
    ensures expected <= 1000 && Direct(lister.reply(old(lister.requests), "")) ==>
              r == lister.reply(old(lister.requests), "")
  {
    if expected > SOURCE_LIMITS.page {
      var paginator := new Paginator(SOURCE_LIMITS, lister, TASK_ID);
      r := paginator.PaginateByIDPrefix(all);
      if r.Err? {
        FailedPagingHasFailingPrefix(lister);
      }
      return;
    }
    r := ListOrPage(lister, TASK_ID, all);
  }

  /**
   List directly; when that fails or overflows a page, page by ID prefix; when
   paging fails too, fall back on the first error, or on the overfull listing.
   */
  method ListOrPage<T(!new)>(lister: Lister<T>, id: T -> string, ghost all: set<T>)
    returns (r: Result<seq<T>, ListError>)
    requires Accurate(lister.reply, all, id) && DistinctIDs(all, id)
    modifies lister
    ensures r.Ok? ==> Lists(r.value, all, id)
    ensures Direct(lister.reply(old(lister.requests), "")) ==> r == lister.reply(old(lister.requests), "")
    ensures r.Err? ==> exists k | old(lister.requests) <= k < lister.requests :: lister.reply(k, "") == r
    ensures r.Err? ==> PagingFailed(lister)
    ensures PrefixesAnswer(lister.reply) ==> r.Ok?
    ensures old(lister.queries) <= lister.queries
    ensures |lister.queries| > |old(lister.queries)| && lister.queries[|old(lister.queries)|] == ""
    ensures |lister.queries| == |old(lister.queries)| + 1 ==> Direct(r)
    ensures |lister.queries| > |old(lister.queries)| + 1 && !PagingFailed(lister) ==>
              r.Ok? && Exactly(r.value, FanReach(SOURCE_LIMITS, all, id, "", 0))
    ensures PagingFailed(lister) ==>
              exists k | old(lister.requests) <= k < lister.requests :: lister.reply(k, "") == r
  {
    var direct := lister.List("");
    assert lister.reply(lister.requests - 1, "") == direct;
    assert Page(all, id, "") == all;
    if direct.Ok? && |direct.value| <= SOURCE_LIMITS.page {
      return direct;
    }
    assert !Direct(lister.reply(old(lister.requests), ""));
    var paginator := new Paginator(SOURCE_LIMITS, lister, id);
    var paged := paginator.PaginateByIDPrefix(all);
    if paged.Err? {
      FailedPagingHasFailingPrefix(lister);
      return direct;
    }
    return paged;
  }

  /** With well-formed IDs every success path yields the same set of items. */
  lemma ListingPathsAgree<T(!new)>(a: seq<T>, b: seq<T>, all: set<T>, id: T -> string)
    requires forall x | x in all :: WellFormedID(SOURCE_LIMITS, id(x))
    requires Lists(a, all, id) && Lists(b, all, id)
    ensures Exactly(a, all) && Exactly(b, all)
  {
    WellFormedAllReached(SOURCE_LIMITS, all, id);
  }

  // ----- Tasks -----

  predicate Running(task: Task) {
    task.state == "running"
  }

  function Given(names: seq<Option<string>>): set<string> {
    set n | n in names && n.Some? && n.value != "" :: n.value
  }

  function ConfigsOf(task: Task): set<string> {
    if Running(task) && task.spec.Some? then Given(task.spec.value.configs) else {}
  }

  function SecretsOf(task: Task): set<string> {
    if Running(task) && task.spec.Some? then Given(task.spec.value.secrets) else {}
  }

  ghost function RunningIn(tasks: set<Task>): set<Task> {
    set t | t in tasks && Running(t)
  }

  ghost function ConfigsIn(tasks: set<Task>): set<string> {
    set t, c | t in tasks && c in ConfigsOf(t) :: c
  }

  ghost function SecretsIn(tasks: set<Task>): set<string> {
    set t, s | t in tasks && s in SecretsOf(t) :: s
  }

  /** swarm's normalizeNames: the names of a set, sorted. */
  method NormalizeNames(values: set<string>) returns (result: seq<string>)
    ensures result == SortedNames(values)
  {
    result := [];
    var todo := values;
    while todo != {}
      invariant todo <= values
      invariant forall v :: v in result <==> v in values - todo
      invariant forall i, j | 0 <= i < j < |result| :: result[i] != result[j]
    {
      var v :| v in todo;
      AppendDistinct(result, v);
      result := result + [v];
      todo := todo - {v};
    }
    SortingDistinctNames(result, values);
    result := SortBy(result, SELF);
  }

  lemma SortingDistinctNames(names: seq<string>, values: set<string>)
    requires forall v :: v in names <==> v in values
    requires forall i, j | 0 <= i < j < |names| :: names[i] != names[j]
    ensures SortBy(names, SELF) == SortedNames(values)
  {
    var asMap := map v | v in values :: v;
    ListingOfNames(asMap, values);
    SortedCollectionIsListing(names, asMap, SELF);
  }

  lemma ListingOfNames(asMap: map<string, string>, values: set<string>)
    requires asMap.Keys == values && forall v | v in values :: asMap[v] == v
    ensures asMap.Values == values && Listing(asMap) == SortedNames(values)
  {
    forall v | v in values ensures v in asMap.Values {
      assert asMap[v] in asMap.Values;
    }
  }

  method AddNames(names: seq<Option<string>>, into: set<string>) returns (r: set<string>)
    ensures r == into + Given(names)
  {
    r := into;
    for i := 0 to |names|
      invariant r == into + Given(names[..i])
    {
      assert names[..i + 1] == names[..i] + [names[i]];
      assert Given(names[..i + 1]) == Given(names[..i]) + Given([names[i]]);
      assert names[i] in [names[i]];
      if names[i].None? || names[i].value == "" {
        continue;
      }
      r := r + {names[i].value};
    }
    assert names[..|names|] == names;
  }

  /** One pass of the loop of summarizeTasks. */
  method AddTask(task: Task, running: nat, configs: set<string>, secrets: set<string>)
    returns (running': nat, configs': set<string>, secrets': set<string>)
    ensures running' == running + if Running(task) then 1 else 0
    ensures configs' == configs + ConfigsOf(task)
    ensures secrets' == secrets + SecretsOf(task)
  {
    running', configs', secrets' := running, configs, secrets;
    if task.state != "running" {
      return;
    }
    running' := running + 1;
    if task.spec.None? {
      return;
    }
    configs' := AddNames(task.spec.value.configs, configs);
    secrets' := AddNames(task.spec.value.secrets, secrets);
  }

  function CountRunning(tasks: seq<Task>): nat {
    if tasks == [] then 0
    else CountRunning(tasks[..|tasks| - 1]) + if Running(tasks[|tasks| - 1]) then 1 else 0
  }

  /** The union of the names that `of` finds in each task. */
  function Union(tasks: seq<Task>, of: Task -> set<string>): set<string> {
    if tasks == [] then {} else Union(tasks[..|tasks| - 1], of) + of(tasks[|tasks| - 1])
  }

  const CONFIGS: Task -> set<string> := (t: Task) => ConfigsOf(t)
  const SECRETS: Task -> set<string> := (t: Task) => SecretsOf(t)

  /** A running task whose container refers to this config, or secret. */
  ghost predicate UsesConfig(task: Task, name: string) {
    task.state == "running" && task.spec.Some? && Some(name) in task.spec.value.configs
  }

  ghost predicate UsesSecret(task: Task, name: string) {
    task.state == "running" && task.spec.Some? && Some(name) in task.spec.value.secrets
  }

  /** The positions of the running tasks. */
  ghost function RunningAt(tasks: seq<Task>): set<int> {
    set i | 0 <= i < |tasks| && tasks[i].state == "running"
  }

  /** How many tasks run, and the names that running tasks refer to, each list in strict order. */
  ghost predicate Summarizes(tasks: seq<Task>, running: nat, configs: seq<string>, secrets: seq<string>) {
    && running == |RunningAt(tasks)|
    && StrictlySortedBy(configs, SELF) && StrictlySortedBy(secrets, SELF)
    && (forall c :: c in configs <==> c != "" && exists t :: t in tasks && UsesConfig(t, c))
    && (forall s :: s in secrets <==> s != "" && exists t :: t in tasks && UsesSecret(t, s))
  }

  lemma {:induction false} CountIsOfRunning(tasks: seq<Task>)
    ensures CountRunning(tasks) == |RunningAt(tasks)|
  {
    if tasks != [] {
      var last := |tasks| - 1;
      CountIsOfRunning(tasks[..last]);
      OneMoreRunning(tasks);
    }
  }

  lemma OneMoreRunning(tasks: seq<Task>)
    requires tasks != []
    ensures var last := |tasks| - 1;
      |RunningAt(tasks)| == |RunningAt(tasks[..last])| + if tasks[last].state == "running" then 1 else 0
  {
    var last := |tasks| - 1;
    assert RunningAt(tasks) == RunningAt(tasks[..last]) + if tasks[last].state == "running" then {last} else {};
  }

  lemma SummaryIsOfRunning(tasks: seq<Task>)
    ensures Summarizes(tasks, CountRunning(tasks), SortedNames(Union(tasks, CONFIGS)),
                       SortedNames(Union(tasks, SECRETS)))
  {
    CountIsOfRunning(tasks);
    NamesAreOfRunning(tasks);
  }

  lemma NamesOfTask(task: Task, name: string)
    ensures name in ConfigsOf(task) <==> name != "" && UsesConfig(task, name)
    ensures name in SecretsOf(task) <==> name != "" && UsesSecret(task, name)
  {
    if task.spec.Some? {
      GivenHas(task.spec.value.configs, name);
      GivenHas(task.spec.value.secrets, name);
    }
  }

  lemma GivenHas(names: seq<Option<string>>, name: string)
    ensures name in Given(names) <==> name != "" && Some(name) in names
  {
    if name != "" && Some(name) in names {
      assert Some(name).value == name;
    }
  }

  lemma NamesAreOfRunning(tasks: seq<Task>)
    ensures forall c :: c in Union(tasks, CONFIGS) <==> c != "" && exists t :: t in tasks && UsesConfig(t, c)
    ensures forall s :: s in Union(tasks, SECRETS) <==> s != "" && exists t :: t in tasks && UsesSecret(t, s)
  {
    forall name
      ensures name in Union(tasks, CONFIGS) <==> name != "" && exists t :: t in tasks && UsesConfig(t, name)
      ensures name in Union(tasks, SECRETS) <==> name != "" && exists t :: t in tasks && UsesSecret(t, name)
    {
      UnionHas(tasks, CONFIGS, name);
      UnionHas(tasks, SECRETS, name);
      forall t ensures name in CONFIGS(t) <==> name != "" && UsesConfig(t, name)
               ensures name in SECRETS(t) <==> name != "" && UsesSecret(t, name)
      {
        NamesOfTask(t, name);
      }
    }
  }

  /** The loop of summarizeTasks. */
  method AddTasks(tasks: seq<Task>) returns (running: nat, configs: set<string>, secrets: set<string>)
    ensures running == CountRunning(tasks)
    ensures configs == Union(tasks, CONFIGS) && secrets == Union(tasks, SECRETS)
  {
    running, configs, secrets := 0, {}, {};
    for i := 0 to |tasks|
      invariant running == CountRunning(tasks[..i])
      invariant configs == Union(tasks[..i], CONFIGS)
      invariant secrets == Union(tasks[..i], SECRETS)
    {
      assert tasks[..i + 1][..i] == tasks[..i];
      running, configs, secrets := AddTask(tasks[i], running, configs, secrets);
    }
    assert tasks[..|tasks|] == tasks;
  }

  method SummarizeTasks(tasks: seq<Task>) returns (running: nat, configs: seq<string>, secrets: seq<string>)
    ensures running == CountRunning(tasks)
    ensures configs == SortedNames(Union(tasks, CONFIGS))
    ensures secrets == SortedNames(Union(tasks, SECRETS))
    ensures Summarizes(tasks, running, configs, secrets)
  {
    var configSet, secretSet;
    running, configSet, secretSet := AddTasks(tasks);
    configs := NormalizeNames(configSet);
    secrets := NormalizeNames(secretSet);
    SummaryIsOfRunning(tasks);
  }

  lemma {:induction false} UnionHas(tasks: seq<Task>, of: Task -> set<string>, name: string)
    ensures name in Union(tasks, of) <==> exists t :: t in tasks && name in of(t)
  {
    if tasks != [] {
      var init, last := tasks[..|tasks| - 1], tasks[|tasks| - 1];
      UnionHas(init, of, name);
      assert tasks == init + [last];
    }
  }

  lemma {:induction false} CountIsSize(tasks: seq<Task>, all: set<Task>)
    requires Exactly(tasks, all)
    ensures CountRunning(tasks) == |RunningIn(all)|
  {
    if tasks == [] {
      assert all == {};
    } else {
      ExactlyInit(tasks, all);
      CountIsSize(tasks[..|tasks| - 1], all - {tasks[|tasks| - 1]});
      RunningMinus(all, tasks[|tasks| - 1]);
    }
  }

  lemma RunningMinus(all: set<Task>, task: Task)
    requires task in all
    ensures |RunningIn(all)| == |RunningIn(all - {task})| + if Running(task) then 1 else 0
  {
    assert RunningIn(all) == RunningIn(all - {task}) + (if Running(task) then {task} else {});
  }

  lemma SummaryOfTasks(tasks: seq<Task>, all: set<Task>)
    requires Exactly(tasks, all)
    ensures CountRunning(tasks) == |RunningIn(all)|
    ensures Union(tasks, CONFIGS) == ConfigsIn(all) && Union(tasks, SECRETS) == SecretsIn(all)
  {
    CountIsSize(tasks, all);
    forall name
      ensures name in Union(tasks, CONFIGS) <==> name in ConfigsIn(all)
      ensures name in Union(tasks, SECRETS) <==> name in SecretsIn(all)
    {
      UnionHas(tasks, CONFIGS, name);
      UnionHas(tasks, SECRETS, name);
    }
  }

  /**
   The summary depends on the set of tasks alone, so every listing path and every
   order of the API's answers gives the same counts and the same sorted names.
   */
  lemma SummaryIgnoresOrder(a: seq<Task>, b: seq<Task>, all: set<Task>)
    requires Exactly(a, all) && Exactly(b, all)
    ensures CountRunning(a) == CountRunning(b)
    ensures Union(a, CONFIGS) == Union(b, CONFIGS) && Union(a, SECRETS) == Union(b, SECRETS)
  {
    SummaryOfTasks(a, all);
    SummaryOfTasks(b, all);
  }

  // ----- Services -----

  /** serviceModeAndReplicas. */
  function ModeAndReplicas(service: Service): (string, int) {
    var reported := if service.desiredTasks.Some? then service.desiredTasks.value else 0;
    match service.mode
    case Replicated(replicas) => ("replicated", if replicas.Some? then replicas.value else reported)
    case Global => ("global", reported)
    case ReplicatedJob => ("replicated-job", reported)
    case GlobalJob => ("global-job", reported)
    case UnknownMode => ("unknown", reported)
  }

  function StackPrefix(stackName: string): string {
    stackName + "_"
  }

  function NormalizeServiceName(name: string, stackName: string): string {
    if stackName == "" then name
    else if StackPrefix(stackName) <= name then name[|StackPrefix(stackName)|..]
    else name
  }

  /** Two service names collide exactly when one is the other, unprefixed, with the stack prefix added. */
  lemma NamesCollideIff(a: string, b: string, stackName: string)
    requires a != b
    ensures NormalizeServiceName(a, stackName) == NormalizeServiceName(b, stackName) <==>
              && stackName != ""
              && (|| (a == StackPrefix(stackName) + b && !(StackPrefix(stackName) <= b))
                  || (b == StackPrefix(stackName) + a && !(StackPrefix(stackName) <= a)))
  {
    var p := StackPrefix(stackName);
    assert p <= a ==> a == p + a[|p|..];
    assert p <= b ==> b == p + b[|p|..];
  }

  /** What collectServiceState makes of a service and its tasks. */
  ghost function Collected(service: Service, stackName: string, tasks: set<Task>): ActualService {
    var (mode, desired) := ModeAndReplicas(service);
    ActualService(
      NormalizeServiceName(service.name, stackName),
      if service.image.Some? then service.image.value else "",
      mode, desired,
      |RunningIn(tasks)|,
      SortedNames(ConfigsIn(tasks)),
      SortedNames(SecretsIn(tasks)),
      if service.updateState.Some? then service.updateState.value else "")
  }

  /** The mode and the swarm's own replica target, as the source words them. */
  ghost predicate ModeIs(service: Service, mode: string, desired: int) {
    var reported := if service.desiredTasks.Some? then service.desiredTasks.value else 0;
    match service.mode
    case Replicated(replicas) => mode == "replicated" && desired == if replicas.Some? then replicas.value else reported
    case Global => mode == "global" && desired == reported
    case ReplicatedJob => mode == "replicated-job" && desired == reported
    case GlobalJob => mode == "global-job" && desired == reported
    case UnknownMode => mode == "unknown" && desired == reported
  }

  /** Without the stack's prefix, if there is a stack and the name has it. */
  ghost predicate Stripped(name: string, stackName: string, r: string) {
    if stackName != "" && stackName + "_" <= name then name == stackName + "_" + r else r == name
  }

  /** A collected service, read off the service and its tasks. */
  ghost predicate CollectedFrom(r: ActualService, service: Service, stackName: string, tasks: set<Task>) {
    && Stripped(service.name, stackName, r.name)
    && r.image == (if service.image.Some? then service.image.value else "")
    && ModeIs(service, r.mode, r.desiredReplicas)
    && r.updateState == (if service.updateState.Some? then service.updateState.value else "")
    && r.runningReplicas == |set t | t in tasks && t.state == "running"|
    && StrictlySortedBy(r.configs, SELF) && StrictlySortedBy(r.secrets, SELF)
    && (forall c :: c in r.configs <==> c != "" && exists t :: t in tasks && UsesConfig(t, c))
    && (forall s :: s in r.secrets <==> s != "" && exists t :: t in tasks && UsesSecret(t, s))
  }

  lemma CollectedIsExact(service: Service, stackName: string, tasks: set<Task>)
    ensures CollectedFrom(Collected(service, stackName, tasks), service, stackName, tasks)
  {
    var p := StackPrefix(stackName);
    assert p <= service.name ==> service.name == p + service.name[|p|..];
    assert RunningIn(tasks) == set t | t in tasks && t.state == "running";
    forall name
      ensures name in ConfigsIn(tasks) <==> name != "" && exists t :: t in tasks && UsesConfig(t, name)
      ensures name in SecretsIn(tasks) <==> name != "" && exists t :: t in tasks && UsesSecret(t, name)
    {
      forall t ensures name in ConfigsOf(t) <==> name != "" && UsesConfig(t, name)
               ensures name in SecretsOf(t) <==> name != "" && UsesSecret(t, name)
      {
        NamesOfTask(t, name);
      }
    }
  }

  /** The Docker API: its service listing, and its task listing for each service ID. */
  datatype API = API(services: Reply<Service>, tasks: string -> Reply<Task>)

  /** The swarm behind it: the services of the stack, and the tasks of each service ID. */
  datatype Cluster = Cluster(services: set<Service>, tasks: string -> set<Task>)

  ghost predicate Faithful(api: API, cluster: Cluster) {
    && Accurate(api.services, cluster.services, SERVICE_ID) && DistinctIDs(cluster.services, SERVICE_ID)
    && (forall s | s in cluster.services :: WellFormedID(SOURCE_LIMITS, s.id))
    && forall s: string ::
         && Accurate(api.tasks(s), cluster.tasks(s), TASK_ID) && DistinctIDs(cluster.tasks(s), TASK_ID)
         && forall t | t in cluster.tasks(s) :: WellFormedID(SOURCE_LIMITS, t.id)
  }

  /** No request ever fails. */
  ghost predicate NeverFails(api: API) {
    && (forall k, prefix :: api.services(k, prefix).Ok?)
    && (forall s, k, prefix :: api.tasks(s)(k, prefix).Ok?)
  }

  /** No request for a prefix ever fails, whatever becomes of the others. */
  ghost predicate AllPrefixesAnswer(api: API) {
    PrefixesAnswer(api.services) && forall s: string :: PrefixesAnswer(api.tasks(s))
  }

  method CollectServiceState(api: API, service: Service, stackName: string, ghost cluster: Cluster)
    returns (r: Result<ActualService, ListError>)
    requires Faithful(api, cluster)
    ensures r.Ok? ==> r.value == Collected(service, stackName, cluster.tasks(service.id))
    ensures r.Ok? ==> CollectedFrom(r.value, service, stackName, cluster.tasks(service.id))
    ensures AllPrefixesAnswer(api) ==> r.Ok?
  {
    CollectedIsExact(service, stackName, cluster.tasks(service.id));
    var name := NormalizeServiceName(service.name, stackName);
    var (mode, desired) := ModeAndReplicas(service);
    var image := if service.image.Some? then service.image.value else "";
    var updateState := if service.updateState.Some? then service.updateState.value else "";
    var lister := new Lister<Task>(api.tasks(service.id));
    var tasks := ListTasks(lister, desired, cluster.tasks(service.id));
    if tasks.Err? {
      return Err(tasks.error);
    }
    ListingPathsAgree(tasks.value, tasks.value, cluster.tasks(service.id), TASK_ID);
    SummaryOfTasks(tasks.value, cluster.tasks(service.id));
    var runningReplicas, configs, secrets := SummarizeTasks(tasks.value);
    return Ok(ActualService(name, image, mode, desired, runningReplicas, configs, secrets, updateState));
  }

  /** The state after these services, each entered under its name: the last one of a name stays. */
  ghost function CollectedAll(cluster: Cluster, stackName: string, listed: seq<Service>): map<string, ActualService> {
    if listed == [] then map[]
    else
      var last := listed[|listed| - 1];
      var collected := Collected(last, stackName, cluster.tasks(last.id));
      CollectedAll(cluster, stackName, listed[..|listed| - 1])[collected.name := collected]
  }

  /** Of the services with one name, the one listed last is described. */
  lemma {:induction false} LastListedWins(cluster: Cluster, stackName: string, listed: seq<Service>, i: nat)
    requires i < |listed|
    requires forall j | i < j < |listed| ::
               NormalizeServiceName(listed[j].name, stackName) != NormalizeServiceName(listed[i].name, stackName)
    ensures var name := NormalizeServiceName(listed[i].name, stackName);
      var state := CollectedAll(cluster, stackName, listed);
      name in state && state[name] == Collected(listed[i], stackName, cluster.tasks(listed[i].id))
  {
    if i < |listed| - 1 {
      LastListedWins(cluster, stackName, listed[..|listed| - 1], i);
    }
  }

  ghost function ServicesOf(listed: seq<Service>): set<Service> {
    set s | s in listed
  }

  lemma {:induction false} CollectedAllDescribes(cluster: Cluster, stackName: string, listed: seq<Service>)
    ensures Describes(cluster.(services := ServicesOf(listed)), stackName, CollectedAll(cluster, stackName, listed))
  {
    if listed != [] {
      var init, last := listed[..|listed| - 1], listed[|listed| - 1];
      CollectedAllDescribes(cluster, stackName, init);
      DescribeOneMore(cluster, ServicesOf(init), stackName, CollectedAll(cluster, stackName, init), last);
      ServicesOfInit(listed);
    }
  }

  lemma ServicesOfInit(listed: seq<Service>)
    requires listed != []
    ensures ServicesOf(listed) == ServicesOf(listed[..|listed| - 1]) + {listed[|listed| - 1]}
  {
    assert listed == listed[..|listed| - 1] + [listed[|listed| - 1]];
  }

  /** Two services whose names are stripped to one, and that are not described alike. */
  ghost predicate Clash(cluster: Cluster, stackName: string, s: Service, t: Service) {
    && s in cluster.services && t in cluster.services
    && NormalizeServiceName(s.name, stackName) == NormalizeServiceName(t.name, stackName)
    && Collected(s, stackName, cluster.tasks(s.id)) != Collected(t, stackName, cluster.tasks(t.id))
  }

  ghost predicate NoClash(cluster: Cluster, stackName: string) {
    forall s, t :: !Clash(cluster, stackName, s, t)
  }

  /** Every normalised name is present, with the data of a service of that name. */
  ghost predicate Describes(cluster: Cluster, stackName: string, services: map<string, ActualService>) {
    && services.Keys == (set s | s in cluster.services :: NormalizeServiceName(s.name, stackName))
    && forall n | n in services :: exists s ::
         && s in cluster.services && NormalizeServiceName(s.name, stackName) == n
         && services[n] == Collected(s, stackName, cluster.tasks(s.id))
  }

  lemma DescribedService(cluster: Cluster, stackName: string, services: map<string, ActualService>, s: Service)
    requires NoClash(cluster, stackName) && Describes(cluster, stackName, services)
    requires s in cluster.services
    ensures NormalizeServiceName(s.name, stackName) in services
    ensures services[NormalizeServiceName(s.name, stackName)] == Collected(s, stackName, cluster.tasks(s.id))
  {
    var n := NormalizeServiceName(s.name, stackName);
    var t :| t in cluster.services && NormalizeServiceName(t.name, stackName) == n
             && services[n] == Collected(t, stackName, cluster.tasks(t.id));
    assert !Clash(cluster, stackName, s, t);
  }

  lemma DescribedServices(cluster: Cluster, stackName: string, services: map<string, ActualService>)
    requires NoClash(cluster, stackName) && Describes(cluster, stackName, services)
    ensures forall s | s in cluster.services ::
              services[NormalizeServiceName(s.name, stackName)] == Collected(s, stackName, cluster.tasks(s.id))
  {
    forall s | s in cluster.services
      ensures services[NormalizeServiceName(s.name, stackName)] == Collected(s, stackName, cluster.tasks(s.id))
    {
      DescribedService(cluster, stackName, services, s);
    }
  }

  /** Without a clash the description determines the state, whichever listing paths led to it. */
  lemma DescriptionIsUnique(
    cluster: Cluster, stackName: string, a: map<string, ActualService>, b: map<string, ActualService>)
    requires NoClash(cluster, stackName)
    requires Describes(cluster, stackName, a) && Describes(cluster, stackName, b)
    ensures a == b
    ensures forall s | s in cluster.services ::
              a[NormalizeServiceName(s.name, stackName)] == Collected(s, stackName, cluster.tasks(s.id))
  {
    DescribedServices(cluster, stackName, a);
    forall n | n in a ensures a[n] == b[n] {
      var s :| s in cluster.services && NormalizeServiceName(s.name, stackName) == n;
      DescribedService(cluster, stackName, a, s);
      DescribedService(cluster, stackName, b, s);
    }
  }

  lemma CompleteListingDescribes(cluster: Cluster, stackName: string, listed: seq<Service>)
    requires Exactly(listed, cluster.services)
    ensures Describes(cluster, stackName, CollectedAll(cluster, stackName, listed))
  {
    CollectedAllDescribes(cluster, stackName, listed);
    assert ServicesOf(listed) == cluster.services;
  }

  /** The members of a set in some order. */
  ghost function ListingOf<T(!new)>(all: set<T>): (r: seq<T>)
    ensures Exactly(r, all)
  {
    if all == {} then []
    else
      var x :| x in all;
      ListingOf(all - {x}) + [x]
  }

  /** The answers may come in an order that ends with any given service. */
  lemma ListingEndingIn(services: set<Service>, s: Service) returns (listed: seq<Service>)
    requires s in services
    ensures Exactly(listed, services) && listed != [] && listed[|listed| - 1] == s
  {
    listed := ListingOf(services - {s}) + [s];
  }

  /** The items whose ID has a prefix, in the order listed. */
  function WithPrefix<T>(items: seq<T>, id: T -> string, prefix: string): seq<T> {
    if items == [] then []
    else
      var last, rest := items[|items| - 1], WithPrefix(items[..|items| - 1], id, prefix);
      if prefix <= id(last) then rest + [last] else rest
  }

  lemma {:induction false} WithPrefixIsPage<T(!new)>(items: seq<T>, all: set<T>, id: T -> string, prefix: string)
    requires Exactly(items, all)
    ensures Exactly(WithPrefix(items, id, prefix), Page(all, id, prefix))
    ensures prefix == "" ==> WithPrefix(items, id, prefix) == items
  {
    if items != [] {
      var init, last := items[..|items| - 1], items[|items| - 1];
      ExactlyInit(items, all);
      WithPrefixIsPage(init, all - {last}, id, prefix);
      assert items == init + [last];
      assert Page(all, id, prefix) == Page(all - {last}, id, prefix) + if prefix <= id(last) then {last} else {};
    }
  }

  /** A cluster that the Docker API can list: its IDs are distinct and well-formed. */
  ghost predicate Listable(cluster: Cluster) {
    && DistinctIDs(cluster.services, SERVICE_ID)
    && (forall s | s in cluster.services :: WellFormedID(SOURCE_LIMITS, s.id))
    && forall s: string ::
         && DistinctIDs(cluster.tasks(s), TASK_ID)
         && forall t | t in cluster.tasks(s) :: WellFormedID(SOURCE_LIMITS, t.id)
  }

  /** An API that always answers, and lists the services in this order. */
  ghost function Answering(cluster: Cluster, listed: seq<Service>): API {
    API((k, prefix) => Ok(WithPrefix(listed, SERVICE_ID, prefix)),
        s => (k, prefix) => Ok(WithPrefix(ListingOf(cluster.tasks(s)), TASK_ID, prefix)))
  }

  /** Every order of the answers is possible of a faithful API. */
  lemma AnyOrderIsFaithful(cluster: Cluster, listed: seq<Service>)
    requires Listable(cluster) && Exactly(listed, cluster.services)
    ensures Faithful(Answering(cluster, listed), cluster) && NeverFails(Answering(cluster, listed))
    ensures Answering(cluster, listed).services(0, "") == Ok(listed)
  {
    forall prefix {
      WithPrefixIsPage(listed, cluster.services, SERVICE_ID, prefix);
    }
    forall s: string, prefix {
      WithPrefixIsPage(ListingOf(cluster.tasks(s)), cluster.tasks(s), TASK_ID, prefix);
    }
  }

  lemma ClashShows(cluster: Cluster, stackName: string, s: Service, t: Service)
    returns (a: seq<Service>, b: seq<Service>)
    requires Clash(cluster, stackName, s, t)
    ensures Exactly(a, cluster.services) && Exactly(b, cluster.services)
    ensures CollectedAll(cluster, stackName, a) != CollectedAll(cluster, stackName, b)
  {
    a := ListingEndingIn(cluster.services, s);
    b := ListingEndingIn(cluster.services, t);
    var n := NormalizeServiceName(s.name, stackName);
    assert CollectedAll(cluster, stackName, a)[n] == Collected(s, stackName, cluster.tasks(s.id));
    assert CollectedAll(cluster, stackName, b)[n] == Collected(t, stackName, cluster.tasks(t.id));
  }

  /**
   Determinacy, exactly: the collected state is independent of the listing path and of
   the order of the answers iff no two services clash. NamesCollideIff says when two
   names are stripped to one.
   */
  lemma StateIsDeterminedIffNoClash(cluster: Cluster, stackName: string)
    ensures NoClash(cluster, stackName) <==>
              forall a, b | Exactly(a, cluster.services) && Exactly(b, cluster.services) ::
                CollectedAll(cluster, stackName, a) == CollectedAll(cluster, stackName, b)
  {
    if NoClash(cluster, stackName) {
      forall a, b | Exactly(a, cluster.services) && Exactly(b, cluster.services)
        ensures CollectedAll(cluster, stackName, a) == CollectedAll(cluster, stackName, b)
      {
        CompleteListingDescribes(cluster, stackName, a);
        CompleteListingDescribes(cluster, stackName, b);
        DescriptionIsUnique(cluster, stackName, CollectedAll(cluster, stackName, a),
                            CollectedAll(cluster, stackName, b));
      }
    } else {
      var s, t :| Clash(cluster, stackName, s, t);
      var a, b := ClashShows(cluster, stackName, s, t);
    }
  }

  /** A service of stack "s" that is called "s_web" or, without the prefix, "web". */
  function WebService(prefixed: bool): Service {
    if prefixed then Service("1a", "s_web", Replicated(Some(1)), None, Some("nginx"), None)
    else Service("2b", "web", Replicated(Some(1)), None, Some("httpd"), None)
  }

  function WebCluster(): Cluster {
    Cluster({WebService(true), WebService(false)}, s => {})
  }

  /**
   The failure: "web" and "s_web" in stack "s", with different images. A faithful API can
   answer in either order, and GetActualState takes its answer as it is; the service
   listed last is the state.
   */
  lemma CollidingNamesLeaveStateOpen() returns (a: API, b: API)
    ensures WebAnswer(a, true, "httpd") && WebAnswer(b, false, "nginx")
  {
    a := WebOrder(true);
    b := WebOrder(false);
  }

  /** A faithful API that lists one of the two first, and the image that the state then shows. */
  ghost predicate WebAnswer(api: API, prefixedFirst: bool, image: string) {
    && Faithful(api, WebCluster()) && NeverFails(api)
    && api.services(0, "") == Ok([WebService(prefixedFirst), WebService(!prefixedFirst)])
    && Direct(api.services(0, ""))
    && var state := CollectedAll(WebCluster(), "s", api.services(0, "").value);
       state.Keys == {"web"} && state["web"].image == image
  }

  lemma WebOrder(prefixedFirst: bool) returns (api: API)
    ensures WebAnswer(api, prefixedFirst, if prefixedFirst then "httpd" else "nginx")
  {
    var listed := [WebService(prefixedFirst), WebService(!prefixedFirst)];
    WebIsListed(prefixedFirst);
    WebIsListable();
    AnyOrderIsFaithful(WebCluster(), listed);
    api := Answering(WebCluster(), listed);
    WebState(prefixedFirst);
  }

  lemma WebIsListed(prefixedFirst: bool)
    ensures Exactly([WebService(prefixedFirst), WebService(!prefixedFirst)], WebCluster().services)
  {
  }

  lemma WebState(prefixedFirst: bool)
    ensures var state := CollectedAll(WebCluster(), "s", [WebService(prefixedFirst), WebService(!prefixedFirst)]);
      state.Keys == {"web"} && state["web"].image == if prefixedFirst then "httpd" else "nginx"
  {
    WebIsWeb();
    LastOfTwo(WebCluster(), "s", WebService(prefixedFirst), WebService(!prefixedFirst));
  }

  lemma WebIsListable()
    ensures Listable(WebCluster())
  {
    var a := SOURCE_LIMITS.alphabet;
    assert a[1] == '1' && a[2] == '2' && a[10] == 'a' && a[11] == 'b';
  }

  lemma WebIsWeb()
    ensures NormalizeServiceName("s_web", "s") == "web" && NormalizeServiceName("web", "s") == "web"
  {
    assert StackPrefix("s") == "s_" && "s_web"[2..] == "web" && "web"[0] != 's';
  }

  lemma LastOfTwo(cluster: Cluster, stackName: string, first: Service, second: Service)
    requires NormalizeServiceName(first.name, stackName) == NormalizeServiceName(second.name, stackName)
    ensures CollectedAll(cluster, stackName, [first, second])
         == map[NormalizeServiceName(second.name, stackName) := Collected(second, stackName, cluster.tasks(second.id))]
  {
    var one, two := [first], [first, second];
    assert one[..0] == [] && two[..1] == one;
    var collected := Collected(first, stackName, cluster.tasks(first.id));
    assert CollectedAll(cluster, stackName, one) == map[collected.name := collected];
  }

  /**
   With a faithful API, any successful collection describes the cluster, whichever
   listing paths it took and in whatever order the answers came: it is built from some
   listing of the services, in whose order the last one of a name stays.
   */
  method GetActualState(api: API, stackName: string, ghost cluster: Cluster) returns (r: Result<ActualState, ListError>)
    requires Faithful(api, cluster)
    ensures r.Ok? ==> exists listed ::
              Exactly(listed, cluster.services) && r.value.services == CollectedAll(cluster, stackName, listed)
    ensures r.Ok? ==> Describes(cluster, stackName, r.value.services)
    ensures r.Ok? && Direct(api.services(0, "")) ==>
              r.value.services == CollectedAll(cluster, stackName, api.services(0, "").value)
    ensures AllPrefixesAnswer(api) ==> r.Ok?
  {
    var lister := new Lister<Service>(api.services);
    var services := ListServices(lister, cluster.services);
    if services.Err? {
      return Err(services.error);
    }
    ListingPathsAgree(services.value, services.value, cluster.services, SERVICE_ID);
    CompleteListingDescribes(cluster, stackName, services.value);
    var state := CollectServices(api, services.value, stackName, cluster);
    if state.Err? {
      return Err(state.error);
    }
    return Ok(ActualState(state.value));
  }

  /** The loop over the listed services. */
  method CollectServices(api: API, listed: seq<Service>, stackName: string, ghost cluster: Cluster)
    returns (r: Result<map<string, ActualService>, ListError>)
    requires Faithful(api, cluster)
    ensures r.Ok? ==> r.value == CollectedAll(cluster, stackName, listed)
    ensures AllPrefixesAnswer(api) ==> r.Ok?
  {
    var state: map<string, ActualService> := map[];
    for i := 0 to |listed|
      invariant state == CollectedAll(cluster, stackName, listed[..i])
    {
      assert listed[..i + 1][..i] == listed[..i];
      var collected := CollectServiceState(api, listed[i], stackName, cluster);
      if collected.Err? {
        return Err(collected.error);
      }
      state := state[collected.value.name := collected.value];
    }
    assert listed[..|listed|] == listed;
    return Ok(state);
  }

  lemma DescribeOneMore(cluster: Cluster, done: set<Service>, stackName: string, state: map<string, ActualService>,
                        service: Service)
    requires Describes(cluster.(services := done), stackName, state)
    ensures var collected := Collected(service, stackName, cluster.tasks(service.id));
      Describes(cluster.(services := done + {service}), stackName, state[collected.name := collected])
  {
    var collected := Collected(service, stackName, cluster.tasks(service.id));
    var grown := state[collected.name := collected];
    forall n | n in grown
      ensures exists s :: s in done + {service} && NormalizeServiceName(s.name, stackName) == n
                       && grown[n] == Collected(s, stackName, cluster.tasks(s.id))
    {
      if n == collected.name {
        assert service in done + {service};
      } else {
        var s :| s in done && NormalizeServiceName(s.name, stackName) == n
            && state[n] == Collected(s, stackName, cluster.tasks(s.id));
        assert s in done + {service};
      }
    }
  }
}
