# swarm-sentinel: a verified model

swarm-sentinel polls a compose file (what should run) and a Docker swarm (what does
run), grades every service OK, DEGRADED or FAILED, keeps the grades in a state file,
and sends an alert when a service's grade has changed and stayed changed. This
project models that pipeline in Dafny 4.11 and proves what its parts promise
together. `dafny verify dfyconfig.toml` checks all of it.

## What is proved

- **Debouncing** (`Debounce.dfy`, `Lifetimes.dfy`). The source keeps a counter and a
  last announced status per service and lets two detectors decide in turn. `History`
  gives a specification without either: the *settled* grade of a service is the one
  most recently held for n cycles since it appeared, else the one it appeared with; an
  alert is a change of the settled grade, or a grade other than OK at birth when
  nothing ran before or n is 1. The stored-counter machine meets it in every run. An
  alert rate, chaining of alerts, silence of flapping and the exact set of failures
  that stay silent follow.
- **Sharing one state file** (`FileStore.dfy`, `Schedule.dfy`, `Durability.dfy`,
  `Cycles.dfy`). Runners interleave freely; loads, saves and directory syncs fail at any
  step; the process may be killed, or the machine crash, between any two steps and inside
  a save. In every run the batches handed to the notifier are, in order and once each,
  those of saved cycles minus the ones lost in a kill or crash. Every stack's snapshot and
  batches are what its runner would have produced alone, whatever the crashes find, iff
  the machine does not crash while a save's directory is unsynced and no two runners share
  a key.
- **Listing by ID prefix** (`Pagination.dfy`, `DockerClient.dfy`). The recursive fan-out
  returns everything once within its query budget. The collected state does not depend on
  which listing path succeeded or on the order of answers iff no two services whose names
  are stripped to one are described differently.
- **Grading** (`Health.dfy`, `Compose.dfy`). Each grade is a join of independent grades,
  whatever order the maps are visited in, and OK means exactly that every desired service
  runs with the image, configs and secrets that the compose file describes and, where
  replicas are asked for, that many of them (or some, during an update).
- **The desired-state cache** (`DesiredCache.dfy`, `Fetcher.dfy`, `Polling.dfy`). Compared with
  downloading and parsing in every cycle, in its desired state and in its errors: a body
  that does not parse is reported only in the cycle that downloads it. Over a whole run of
  the polling loop the saved cycles can be read off the exchanges, and they are those of a
  loop that parses every time iff every tick that goes through got a body that parses.
- **Delivery** (`Slack.dfy`) and the chain from the servers through the history to the
  notifiers of interleaved runners (`EndToEnd.dfy`, `Fleet.dfy`).

Methods that change fields, files or shared maps are methods of classes (`Runner`,
`Store`, `Notifier`, `Lister`, `Paginator`, `Seen`) or loops over local variables, each
proved equal to a function of the old state; the lemmas are about those functions. A
loop over a Go map is a loop that picks an arbitrary remaining key. The Docker API, the
JSON codec, the YAML parser, the fingerprint and the URL check are function values with
stated properties, so a theorem holds for all of them.

## Where the code falls short of what it is for

- The documentation says a status is alerted once it has lasted the configured number of
  cycles. A service that first appears after the first run and is FAILED from the start
  is never alerted for it when that number is 2 or more, however long it lasts
  (`Lifetimes.LateFailureStaysSilent`). `Lifetimes.HeldBlockIsAnnouncedIff` gives the
  exact condition.
- A 304 answer is taken to mean that the last downloaded body is current. If the server
  sends an ETag with one body, none with the next, and then returns to the first, the
  runner keeps the wrong desired state. `DesiredCache.TransparentIffTagsKept` gives the
  exact condition.
- A compose body that does not parse stops only the cycle that downloads it. While it is
  served again the cycles succeed, and grade against the old desired state: after good,
  bad, bad the third cycle is saved (`Polling.RepeatedBadBodyIsOverlooked`).
  `Polling.StrictIffParsedThroughout` gives the exact condition.
- The documentation lists running against desired replicas as monitored, but nothing is
  compared when none are desired: a service with `replicas: 0` and five running tasks is
  OK (`Health.ScaledDownButRunningIsOK`). `Health.OKIffFullyAgreesOrOverlooked` gives the
  exact condition.
- Stripping the stack prefix can give two services of a stack one name: "web" and "s_web"
  in stack "s". The one that the API lists last is then the state, so the same swarm can be
  graded differently in two cycles (`DockerClient.CollidingNamesLeaveStateOpen`).
  `DockerClient.StateIsDeterminedIffNoClash` gives the exact condition and
  `DockerClient.NamesCollideIff` says which names collide.
- `Save` is documented as atomic, but errors of the directory sync after the rename are
  ignored. A machine crash may then undo a completed save whose alerts are
  already out (`FileStore.UnsyncedSaveCanBeUndone`), and the runner sends the same batch
  again (`Cycles.UnsyncedCrashRepeatsAlerts`). `FileStore.CrashInSaveIsAtomicIff` and
  `Durability.IsolatedIffCrashesSynced` give the exact conditions, and
  `Durability.EveryFileIsOwn` and `Durability.EveryBatchIsOwn` what holds even then.

## Model

| member | source | states |
|---|---|---|
| Debounce.DetectorsCompose | internal/runner/runner.go:478-500 | On a first run exactly the services that are not OK are announced; otherwise exactly those with a prior entry whose baseline differs and whose counter reached n, and new ones not OK only if n is 1; the second detector drops no eligible service that had an entry |
| Runner.Runner.StabilizeTransitions | internal/runner/runner.go:447-501 | Whatever the map order, the updated entries and the batch are those of the one-cycle rule that the history theorem is about, with the configured number of cycles, or 1 where that is not positive |
| Runner.Runner.StabilizeService | internal/runner/runner.go:462-488 | One service's counter, baseline and eligibility |
| Debounce.EntryWithoutCounter | internal/runner/runner.go:464-476 | An entry stored without a counter is treated as held for one cycle |
| Transition.DetectServiceTransitions | internal/transition/transition.go:40-84 | Whatever the map order, the result lists in strict name order, once each, exactly the services that are not OK on a first run or when new, and otherwise differ from the status last notified (or stored), with their grade, reasons, drift and that status |
| Names.LessIsLexicographic | internal/transition/transition.go:78-81 | The order of names used throughout is Go's order of strings |
| History.DebouncerRefinesHistory | internal/runner/runner.go:447-501 | For every run from an empty store, every window and cycle: the stored counter is the length of the trailing block of equal grades, the stored status is the one the history announces, and the alerts are exactly the specified ones in name order |
| Lifetimes.AlertEndsAHold | internal/runner/runner.go:482-487 | An alert after birth comes in exactly the n-th cycle of a hold that follows a different grade in the same lifetime, and no earlier cycle of the hold alerted |
| Lifetimes.AlertRate | internal/runner/runner.go:462-494 | In a lifetime of T cycles, k alerts satisfy (k - 1) * n <= T - 1, and those after birth alone satisfy j * n <= T - 1 |
| Lifetimes.FlappingIsSilent | internal/runner/runner.go:485-487 | If every block of one grade that begins after birth is shorter than n, nothing is announced after birth, however the birth block lasted |
| Lifetimes.AnnouncedUntilNextAlert | internal/runner/runner.go:473-493 | From an alert to the next one or to the end of the lifetime the store holds the announced status |
| Lifetimes.AlertsChain | internal/runner/runner.go:473-493 | Successive alerts of a lifetime chain: previous status equals the last current status, the new one differs, and the store holds the announced status in between |
| Lifetimes.HeldBlockIsAnnouncedIff | internal/runner/runner.go:482-487 | When a block of one grade lasting n cycles is announced, as an if-and-only-if on what is known when the block begins |
| Lifetimes.LateFailureStaysSilent | internal/runner/runner.go:473-476 | The counterexample to "every failure held n cycles is alerted", for every n of 2 or more and of any length |
| Lifetimes.DetailsCompareWithCycleBefore | internal/transition/transition.go:86-112 | The details of every alert given out compare with the cycle before in the same lifetime, deltas add up, and details are left out only at birth with nothing to tell |
| Lifetimes.NoFalseAlarm | internal/health/evaluate.go:25-67 | For one stack alone: if every cycle's swarm runs what the compose file describes, no batch of any cycle holds an alert, for every window and any coming and going of services |
| Runner.Runner.EvaluateAndPersist | internal/runner/runner.go:317-412 | On success the disk holds the loaded state with this stack brought up to date, older entries only if the directory was not synced, and the notifier got exactly that snapshot's batch; on a failed load or save the file is unchanged and nothing is sent |
| Runner.Runner.RefreshDesiredState | internal/runner/runner.go:228-268 | The cached ETag, hash and desired state, and the error, after any fetch outcome |
| Runner.Runner.RunOnce | internal/runner/runner.go:223-315 | When a cycle fails, what it leaves untouched, and that otherwise it refreshes, collects and evaluates |
| Runner.Runner.Run | internal/runner/runner.go:166-200 | After any sequence of ticks, failing or not, the cache is that of all exchanges, the file holds this stack as after exactly the cycles that went through, and the notifier got their non-empty batches once each in order; from an empty store every alert sent is of a service new in that cycle, or reports a grade held for the configured number of saved cycles |
| Polling.SentIsHeld | internal/runner/runner.go:482-487 | The same of the batches of any sequence of cycles |
| Polling.EvaluationsAreSimple | internal/runner/runner.go:223-315 | With an honest server whose ETags are kept, those cycles can be read off the exchanges: the ticks answered with a body that parses or that is still the one downloaded last, graded against the last body that parses |
| Polling.AlertsFollowSimpleLoop | internal/runner/runner.go:223-412 | Hence the alerts of the run are exactly those that the history of the grades read off the exchanges calls for |
| Polling.StrictIffParsedThroughout | internal/runner/runner.go:243-266 | The runner saves exactly the cycles of a loop that downloads and parses every time iff every tick that goes through was served a body that parses |
| Polling.RepeatedBadBodyIsOverlooked | internal/runner/runner.go:243-266 | The failing input: after good, bad, bad the source saves two cycles, the loop that parses every time one |
| Fleet.DeliveredAlertsAreServed | internal/coordinator/coordinator.go:117-125 | Over interleaved and restarted runners: each delivered alert is one that a history calls for whose cycles are some of those that the stack's own exchanges and swarm answers determine, in order |
| Fleet.SavedAreServed | internal/runner/runner.go:223-315 | Each stack's saved cycles are some of those, in order, whatever fails or crashes |
| Fleet.NoneDroppedWithoutFault | internal/runner/runner.go:340-364 | An evaluated cycle goes unsaved only through a failed load or save, a kill or a crash, one for each, or because it is under way |
| FileStore.Store.Load | internal/state/file_store.go:28-67 | A missing, corrupt or newer file gives version 1 without stacks; any other its stacks, with version 0 read as 1; failed reads and cancellation an error |
| FileStore.Store.Save | internal/state/file_store.go:70-130 | A failed save leaves the disk as it was; a successful one installs the encoded state, and the entries a crash can bring back are the new file alone if the directory was synced, else the earlier ones as well; at every step in between the path shows the old file or the complete synced new one |
| FileStore.LoadAfterSave | internal/state/file_store.go:48-66 | Loading a saved state gives it back with version and map filled in, unless its version is newer than supported, which gives the fresh state |
| FileStore.LoadAfterSaveWritten | internal/state/file_store.go:48-82 | A saved state of version 0 or 1 is loaded as version 1 with the stacks it had, a missing map as an empty one |
| FileStore.CrashInSaveIsAtomicIff | internal/state/file_store.go:104-128 | After a crash at any point of a save Load gives the whole old or the whole new state, iff every entry not yet synced away loads as one of them; a successful directory sync ensures that |
| FileStore.CrashLeavesAWholeState | internal/state/file_store.go:104-128 | A crash during a save can leave exactly the complete files not yet synced away and the new one |
| FileStore.UnsyncedSaveCanBeUndone | internal/state/file_store.go:125-128 | After a save whose directory sync failed, a crash can bring back the state before it, which is neither the old nor the new one of the next save |
| FileStore.SaveChangesOneStack | internal/runner/runner.go:345-360 | Saving a loaded state with one stack replaced and loading it again changes that stack only |
| Persistence.NextFileIsStamped | internal/runner/runner.go:354-358 | The snapshot stored carries the fingerprint, the time and an entry for each graded service |
| Durability.IsolatedIffCrashesSynced | internal/state/file_store.go:125-128 | For every interleaving with failures, kills and crashes: no update is lost at any point, whatever the crashes find, iff no machine crash hits while the last rename is unsynced |
| Schedule.RunnersAreIsolated | internal/runner/runner.go:340-364 | In every interleaving whose machine crashes hit no unsynced save, each stored snapshot and each saved batch is what its runner would have produced alone on its own saved cycles, and other keys are untouched |
| Durability.EveryFileIsOwn | internal/runner/runner.go:340-364 | In every run without condition, each file a crash can find holds for every stack what its runner alone would have stored after some of its saved cycles |
| Durability.EveryBatchIsOwn | internal/runner/runner.go:340-367 | In every run without condition, the batch of each saved cycle is one its runner alone would have sent there after some of its earlier saved cycles |
| Schedule.LockIsExclusive | internal/runner/runner.go:530-537 | In every run at most one runner is inside the lock, and what it loaded or is saving is the file on the disk, brought up to date |
| Schedule.DeliveredOnceAndOnlyAfterSave | internal/runner/runner.go:360-409 | In every run without condition: every delivery is the batch of a saved cycle, no save's batch is delivered twice, and every saved batch not lost or under way was delivered |
| Schedule.LossesAreBoundedByCrashes | internal/runner/runner.go:405-409 | A runner loses at most one batch for each kill or crash, so none without one |
| Cycles.UnsyncedCrashRepeatsAlerts | internal/state/file_store.go:125-128 | The run that breaks it: an unsynced save, its batch delivered, a crash, and the same batch delivered again where a runner alone would be silent |
| Cycles.CycleCompletes | internal/runner/runner.go:530-537 | An idle runner that finds the lock free can complete a cycle, after which the disk is as the sequential evaluation leaves it |
| Cycles.WaitingRunnerCanSave | internal/runner/runner.go:530-537 | No deadlock: from every reachable system some steps without a fault bring any waiting runner through the lock and save its cycle |
| Cycles.IsolatedIffDistinctKeys | internal/runner/runner.go:539-544 | For any keys: no run whose crashes are synced loses an update iff the keys are distinct |
| Cycles.MappedKeysAreDistinct | internal/coordinator/coordinator.go:117-122 | The runners of a valid mapping file have distinct keys |
| Config.ValidateMappings | internal/config/mapping.go:49-80 | Accepts exactly the non-empty lists whose entries are all acceptable, in particular with distinct non-empty names; an error names the first check that the first bad entry fails |
| EndToEnd.DeliveredAlertsAreSpecified | internal/runner/runner.go:317-412 | In any run of the process, every alert handed over is one its stack's history calls for in that cycle, with the contents the history determines |
| EndToEnd.SpecifiedAlertsAreDelivered | internal/runner/runner.go:317-412 | Every alert a stack's history calls for has been handed over, unless its cycle is still under way or its batch was lost, which each kill or crash does to one batch at most |
| EndToEnd.NoFalseAlarms | internal/runner/runner.go:317-412 | In any run of the process, even with crashes that undo saves: if every evaluation finds the swarm running what is described, no notifier is ever called |
| EndToEnd.DriftOfCollectedIsExact | internal/health/evaluate.go:126-174 | For a parsed service against a collected one, the drift lists are exactly the two differences of resolved names and names of running tasks, in strict order |
| Pagination.Lister.List | internal/swarm/docker_client.go:312-357 | At most four requests, stopping at the first answer or lasting error, and the last reply is the result |
| Pagination.AppendUnique | internal/swarm/pagination.go:54-67 | Appends the first item of each unseen non-empty ID and records the IDs |
| Pagination.KeptAreFirst | internal/swarm/pagination.go:54-67 | What is appended: exactly the first item of each ID that is not empty and was not seen |
| Pagination.MergeListings | internal/swarm/pagination.go:54-67 | With distinct IDs the result lists the union of two listings, each item once |
| Pagination.Paginator.PaginateByIDPrefixDepth | internal/swarm/pagination.go:27-52 | Exactly the items of the prefix that the recursion reaches, once each, within the depth's query budget; an error is that of the last request |
| Pagination.Paginator.PaginateByIDPrefix | internal/swarm/pagination.go:11-25 | Exactly the items reached, once each, with at most a + a^2 + ... + a^d queries and four requests a query |
| Pagination.WellFormedAllReached | internal/swarm/pagination.go:35-49 | If every ID is long enough over the alphabet nothing is missed, whatever the page sizes |
| Pagination.SourceReachIsExact | internal/swarm/pagination.go:5-9 | Exactly which items the two-level paging misses |
| Pagination.BudgetIsPowerSum | internal/swarm/pagination.go:35-49 | The recursive query budget is the power sum |
| Pagination.SourceBudget | internal/swarm/pagination.go:5-9 | For the source's constants that is 36 + 36 * 36 |
| DockerClient.ListOrPage | internal/swarm/docker_client.go:259-274 | The direct answer is used alone iff it fits a page of 1000; otherwise, also when it failed, the result is all that prefixes reach, and only when paging fails as well that of the direct request; if no request for a prefix fails there is no error |
| DockerClient.ListServices | internal/swarm/docker_client.go:245-275 | The same for services: an error means that paging failed as well |
| DockerClient.ListTasks | internal/swarm/docker_client.go:277-310 | The same for tasks; for services that expect more than 1000 no direct request is sent |
| DockerClient.ListingPathsAgree | internal/swarm/docker_client.go:245-310 | With well-formed IDs every success path yields the same set |
| DockerClient.SummarizeTasks | internal/swarm/docker_client.go:440-471 | The number of tasks in state "running", and in strict order the non-empty config and secret names that these refer to |
| DockerClient.SummaryIgnoresOrder | internal/swarm/docker_client.go:440-471 | Any two listings of the same tasks give the same summary |
| DockerClient.SummaryOfTasks | internal/swarm/docker_client.go:440-471 | The summary is a function of the set of tasks |
| DockerClient.NormalizeNames | internal/swarm/docker_client.go:473-483 | The names of a set in strict order |
| DockerClient.NamesCollideIff | internal/swarm/docker_client.go:234-243 | Exactly when two service names are stripped to the same name |
| DockerClient.CollectServiceState | internal/swarm/docker_client.go:201-232 | A success carries the stripped name, image, mode, replica target, update state, running count and names, read off the service and its whole set of tasks; it fails only if some request for a prefix fails |
| DockerClient.GetActualState | internal/swarm/docker_client.go:168-199 | A success is built from some complete listing of the services, entered in order (the first answer itself when it fits a page), and holds every normalised name with the data of a service of that name |
| DockerClient.LastListedWins | internal/swarm/docker_client.go:190-196 | Of the services with one normalised name, the one listed last is in the state |
| DockerClient.StateIsDeterminedIffNoClash | internal/swarm/docker_client.go:190-196 | All complete listings give the same state iff no two services with one normalised name are described differently |
| DockerClient.CollidingNamesLeaveStateOpen | internal/swarm/docker_client.go:190-243 | The failing input: "web" and "s_web" in stack "s" with different images, and two faithful APIs whose answers give two states |
| DockerClient.AnyOrderIsFaithful | internal/swarm/docker_client.go:312-357 | Every order of the services is the direct answer of some faithful API, so the condition is about orders that can occur |
| Swarm.DigestIsIgnored | internal/swarm/image.go:15-20 | Adding a resolved digest never changes a normalised image |
| Swarm.NormalizeIsProjection | internal/swarm/image.go:15-20 | Normalising keeps a prefix and is idempotent |
| Swarm.NormalizeIsExact | internal/swarm/image.go:15-20 | Exactly the part before the first "@sha256:" |
| Swarm.UnmarkedIsUnchanged | internal/swarm/image.go:15-20 | A reference without the mark is unchanged |
| Health.DiffNames | internal/health/evaluate.go:147-174 | The sorted one-sided leftovers of two lists |
| Health.DriftIsExact | internal/health/evaluate.go:147-174 | On strictly sorted lists without empty names, the two set differences in strict order |
| Health.NoDriftIffSameNames | internal/health/evaluate.go:147-174 | For any lists, each side is empty iff the name sets are included |
| Health.ApplyDrift | internal/health/evaluate.go:126-145 | Drift and reasons are appended one for one in the same order |
| Health.EvaluateService | internal/health/evaluate.go:72-124 | The accumulated grade is the join of independent image, replica, config and secret grades, with the reasons and drift in order |
| Health.ServiceGradeIsExact | internal/health/evaluate.go:72-124 | OK iff there is no reason; FAILED iff a desired config or secret is absent or nothing runs while something should, by the swarm's own count in mode "global" |
| Health.ServiceDetailsAreExact | internal/health/evaluate.go:72-145 | Images, counts, the drift list (missing and extra configs, then secrets) and the reasons in order, read off the two descriptions |
| Health.UpdateOnlyExcusesReplicas | internal/health/evaluate.go:94-109 | The update states "updating" and "rollback_started" change a grade only from DEGRADED to OK, only when the running count is the sole trouble, and never whether it is FAILED |
| Health.EvaluateStackHealth | internal/health/evaluate.go:12-70 | Whatever the map order: a desired service that does not run is FAILED, an undesired one is DEGRADED and only reported when scoped; the stack is FAILED iff some desired service is absent or lacks a config, a secret or every replica it should have, and OK iff it runs as described |
| Health.ScopingOnlyAddsExtras | internal/health/evaluate.go:44-67 | Scoping adds exactly the undesired services, agrees on the others, and worsens the stack to DEGRADED at most |
| Health.StackOKIffAgrees | internal/health/evaluate.go:25-67 | A stack is OK iff every desired service agrees in image, names and, where replicas are asked for, count, and none is extra when scoped; iff every graded service is OK |
| Health.OKIffFullyAgreesOrOverlooked | internal/health/evaluate.go:94-109 | The grade differs from a comparison that always counts replicas exactly where none are asked for and the count differs |
| Health.ScaledDownButRunningIsOK | internal/health/evaluate.go:94-109 | The failing input: no replicas asked for, any number running, graded OK |
| Compose.NormalizeNames | internal/compose/parse.go:169-183 | Sort-and-skip gives the non-empty names in strict order |
| Compose.ResolveNames | internal/compose/parse.go:119-167 | In strict order, for each source its defined name or, where that is empty, the source; the error is that of the first reference without a source or without a definition |
| Compose.ParseDesiredState | internal/compose/parse.go:67-116 | Succeeds iff there is a service and each has an image and good references, in whatever order they are visited; image, mode, replicas and names are then as written, with their defaults, and an error says what is wrong |
| Compose.ParsedStateHasNameLists | internal/compose/parse.go:119-183 | Every config and secret list of a parsed state is strictly increasing and without empty names |
| DesiredCache.CacheFollowsDownloads | internal/runner/runner.go:234-266 | The ETag is the last one received; the hash is that of the last downloaded body, even one that failed to parse; the desired state is the parse of the last downloaded body that parses |
| DesiredCache.CacheIsTransparent | internal/runner/runner.go:228-268 | With an honest server whose ETags are kept, skipping never changes the desired state |
| DesiredCache.TransparentIffTagsKept | internal/runner/runner.go:234-240 | The exact response patterns for which skipping is transparent for every honest server |
| DesiredCache.ErrorsDifferIff | internal/runner/runner.go:243-266 | For any server, exactly when a cycle's error differs from that of downloading and parsing every time, and that the source then reports none |
| DesiredCache.HonestErrorsDifferIff | internal/runner/runner.go:234-266 | With an honest server whose ETags are kept: exactly when a body that does not parse is still the one downloaded last |
| Fetcher.Fetch | internal/compose/fetcher.go:129-159 | It asks again exactly after missing or unreadable answers and 5xx; the outcome is a body iff the last answer is a 200 with one, unchanged iff it is a 304, and failed iff it is another status, an empty 200, or the attempts are used up |
| Slack.BuildSlackMessage | internal/notify/slack.go:125-149 | Header, context, then the given transitions in order |
| Slack.BuildSlackMessages | internal/notify/slack.go:102-122 | The messages carry every transition once and in order, have 3 to 50 blocks each, and are ceil(n / 48) in number, labelled 1 to that |

## Left out

- HTTP, TLS and Docker SDK calls, YAML loading, JSON text, SHA-256, metrics, logging and signal handling: I/O and libraries; the model takes their results as arguments. JSON's replacement of invalid UTF-8 is not modelled.
- Context cancellation between steps, wall-clock timing, tickers and backoff delays: a cancelled step is one of the failing steps.
- Which error texts count as retryable: an error carries its retry decision.
- State files that hold a status text other than the three grades: the empty status is an absent value and no other text is modelled.
- A runner without a state store, a Swarm client, a fetcher or a notifier: each only skips a step of the cycle.
- Field values of a service that play no part in grading or alerts: reasons are data instead of formatted text, and Slack layout stops at which block carries what.
- Webhook, dry-run, multi and noop notifiers, rate limiting and posting with retries: a delivery is the call of the notifier; what it does with the batch is outside the model.
- Environment and configuration loading, apart from the checks on the mapping list.
- Coordinator start and stop: only the interleaving of its runners. In the schedule a whole save is one step with its directory synced or not; a kill or crash inside it is one that may find the new file, which `FileStore.CrashLeavesAWholeState` justifies.
- Go integer overflow of counters and replica counts: integers are unbounded.
- Aliasing of Go maps: a loaded state is a value, so a change is an assignment to the variable that holds it.
- FileStore.Store.Save: a successful directory sync makes the rename durable, which supposes that the state directory is durable itself; one that `Save` has just created, whose parent the source never syncs, behaves like one whose syncs fail.
- Durability.IsolatedIffCrashesSynced: its "only if" supposes that no two evaluations show the same time; a snapshot taken twice at one time can hide that one was lost.
