/**
 Many cycles of one runner (the loop of internal/runner/runner.go): what it evaluates,
 from the answers of the compose server and the Docker API, and what it sends.
 */
module Polling {
  import opened Wrappers
  import opened Names
  import opened Swarm
  import opened Health
  import opened State
  import opened Transition
  import opened Debounce
  import opened History
  import opened Lifetimes
  import opened FileStore
  import opened Persistence
  import opened DesiredCache

  /** One tick: the compose exchange, the swarm's answer, the time, and what fails. */
  datatype Poll = Poll(
    exchange: Exchange,
    actual: Result<ActualState, ()>,
    now: int,
    loadFault: LoadFault,
    saveFault: SaveFault,
    dirSyncFails: bool)

  function Exchanges(polls: seq<Poll>): (xs: seq<Exchange>)
    ensures |xs| == |polls|
  {
    seq(|polls|, i requires 0 <= i < |polls| => polls[i].exchange)
  }

  lemma ExchangesOfInit(polls: seq<Poll>)
    requires polls != []
    ensures Exchanges(polls[..|polls| - 1]) == Exchanges(polls)[..|polls| - 1]
    ensures Exchanges(polls) == Exchanges(polls[..|polls| - 1]) + [polls[|polls| - 1].exchange]
  {
  }

  /** Both the load and the save of this tick succeed; a missing file is not a failed read. */
  predicate Saves(poll: Poll, hasFile: bool) {
    poll.saveFault == NoSaveFault && (poll.loadFault == NoLoadFault || (poll.loadFault == ReadFails && !hasFile))
  }

  function CycleOf(poll: Poll, desired: Compose.DesiredState, fingerprint: string, scoped: bool): Cycle
    requires poll.actual.Ok?
  {
    Cycle(EvaluatedStack(desired, Some(poll.actual.value), scoped).services, fingerprint, poll.now)
  }

  /** A tick gets as far as grading: compose and swarm answered, and there is a desired state. */
  predicate Attempts(reader: Reader, cache: Cache, poll: Poll) {
    && RefreshFails(reader, cache, OutcomeOf(poll.exchange)).None? && poll.actual.Ok?
    && Refreshed(reader, cache, OutcomeOf(poll.exchange)).desired.Some?
  }

  /** The cycle that such a tick evaluates. */
  function AttemptOf(reader: Reader, cache: Cache, poll: Poll, scoped: bool): Cycle
    requires Attempts(reader, cache, poll)
  {
    var refreshed := Refreshed(reader, cache, OutcomeOf(poll.exchange));
    CycleOf(poll, refreshed.desired.value, refreshed.hash, scoped)
  }

  /** The saved cycles after one more tick, from what was cached before it. */
  ghost function NextEvaluations(
    reader: Reader, scoped: bool, hadFile: bool, cache: Cache, done: seq<Cycle>, poll: Poll): seq<Cycle>
  {
    if Attempts(reader, cache, poll) && Saves(poll, hadFile || done != [])
    then done + [AttemptOf(reader, cache, poll, scoped)]
    else done
  }

  /** The cycles a runner saves, from its cache. */
  ghost function Evaluations(reader: Reader, scoped: bool, hadFile: bool, polls: seq<Poll>): seq<Cycle> {
    if polls == [] then []
    else
      var init := polls[..|polls| - 1];
      NextEvaluations(reader, scoped, hadFile, CacheAfter(reader, Exchanges(init)),
                      Evaluations(reader, scoped, hadFile, init), polls[|polls| - 1])
  }

  lemma OneMoreTick(reader: Reader, scoped: bool, hadFile: bool, polls: seq<Poll>, i: nat)
    requires i < |polls|
    ensures var cache := CacheAfter(reader, Exchanges(polls[..i]));
      && CacheAfter(reader, Exchanges(polls[..i + 1])) == Refreshed(reader, cache, OutcomeOf(polls[i].exchange))
      && Evaluations(reader, scoped, hadFile, polls[..i + 1])
           == NextEvaluations(reader, scoped, hadFile, cache, Evaluations(reader, scoped, hadFile, polls[..i]),
                              polls[i])
  {
    assert polls[..i + 1][..i] == polls[..i];
    ExchangesOfInit(polls[..i + 1]);
  }

  /** The server answered, with a body that parses or that is the one downloaded last. */
  predicate Served(reader: Reader, xs: seq<Exchange>)
    requires xs != []
  {
    var last := xs[|xs| - 1];
    !last.Lost? && (reader.parse(last.body).Some? || LastBody(xs[..|xs| - 1]) == Some(last.body))
  }

  /** Grading, read off the exchanges: served, with some body so far that parses. */
  predicate ServedAttempt(reader: Reader, xs: seq<Exchange>, poll: Poll)
    requires xs != []
  {
    Served(reader, xs) && poll.actual.Ok? && SimpleLoop(reader, xs).Some?
  }

  function ServedCycle(reader: Reader, xs: seq<Exchange>, poll: Poll, scoped: bool): Cycle
    requires xs != [] && ServedAttempt(reader, xs, poll)
  {
    CycleOf(poll, SimpleLoop(reader, xs).value, reader.fingerprint(xs[|xs| - 1].body), scoped)
  }

  /**
   The saved cycles read off the exchanges, without ETag, hash or cached state: those of
   a runner that downloads every body, reports one that does not parse when it is new,
   and otherwise goes on with the last desired state it has.
   */
  ghost function SimpleEvaluations(reader: Reader, scoped: bool, hadFile: bool, polls: seq<Poll>): seq<Cycle> {
    if polls == [] then []
    else
      var last, done := polls[|polls| - 1], SimpleEvaluations(reader, scoped, hadFile, polls[..|polls| - 1]);
      var xs := Exchanges(polls);
      if ServedAttempt(reader, xs, last) && Saves(last, hadFile || done != [])
      then done + [ServedCycle(reader, xs, last, scoped)]
      else done
  }

  /** After an honest exchange: the cycle goes on iff served, on the body that was served. */
  lemma ServedCache(reader: Reader, tag: Bytes -> string, xs: seq<Exchange>)
    requires GoodReader(reader) && GoodTag(tag) && Honest(reader, tag, xs) && TagsKept(Kinds(xs)) && xs != []
    ensures CycleFails(reader, xs, |xs| - 1).None? <==> Served(reader, xs)
    ensures CacheAfter(reader, xs).desired == SimpleLoop(reader, xs)
    ensures Served(reader, xs) ==> CacheAfter(reader, xs).hash == reader.fingerprint(xs[|xs| - 1].body)
  {
    var init, last := xs[..|xs| - 1], xs[|xs| - 1];
    assert last in xs;
    HonestPrefix(reader, tag, xs);
    CacheIsTransparent(reader, tag, xs);
    CacheFollowsDownloads(reader, init);
    CacheFollowsDownloads(reader, xs);
    if last.Unchanged? {
      UnchangedIsLastBody(reader, tag, xs);
    }
  }

  /** An honest server whose ETags are kept, over these ticks. */
  ghost predicate HonestPolls(reader: Reader, tag: Bytes -> string, polls: seq<Poll>) {
    && GoodReader(reader) && GoodTag(tag)
    && Honest(reader, tag, Exchanges(polls)) && TagsKept(Kinds(Exchanges(polls)))
  }

  lemma HonestInit(reader: Reader, tag: Bytes -> string, polls: seq<Poll>)
    requires HonestPolls(reader, tag, polls) && polls != []
    ensures HonestPolls(reader, tag, polls[..|polls| - 1])
  {
    ExchangesOfInit(polls);
    HonestPrefix(reader, tag, Exchanges(polls));
  }

  /** What the last tick attempts, from the cache and from the exchanges. */
  lemma AttemptIsServed(reader: Reader, tag: Bytes -> string, scoped: bool, polls: seq<Poll>)
    requires HonestPolls(reader, tag, polls) && polls != []
    ensures var cache, poll := CacheAfter(reader, Exchanges(polls[..|polls| - 1])), polls[|polls| - 1];
      && (Attempts(reader, cache, poll) <==> ServedAttempt(reader, Exchanges(polls), poll))
      && (Attempts(reader, cache, poll) ==>
            AttemptOf(reader, cache, poll, scoped) == ServedCycle(reader, Exchanges(polls), poll, scoped))
  {
    ExchangesOfInit(polls);
    ServedCache(reader, tag, Exchanges(polls));
  }

  /**
   Over whole runs of ticks, with failures anywhere: with an honest server whose ETags
   are kept, the saved cycles are those read off the exchanges.
   */
  lemma {:induction false} EvaluationsAreSimple(
    reader: Reader, tag: Bytes -> string, scoped: bool, hadFile: bool, polls: seq<Poll>)
    requires HonestPolls(reader, tag, polls)
    ensures Evaluations(reader, scoped, hadFile, polls) == SimpleEvaluations(reader, scoped, hadFile, polls)
    decreases |polls|
  {
    if polls != [] {
      HonestInit(reader, tag, polls);
      EvaluationsAreSimple(reader, tag, scoped, hadFile, polls[..|polls| - 1]);
      AttemptIsServed(reader, tag, scoped, polls);
    }
  }

  /** Hence its alerts are those that the history of these grades calls for. */
  lemma AlertsFollowSimpleLoop(
    reader: Reader, tag: Bytes -> string, scoped: bool, polls: seq<Poll>, n: int, t: nat)
    requires HonestPolls(reader, tag, polls) && n >= 1
    requires t < |Evaluations(reader, scoped, false, polls)|
    ensures var h := SimpleEvaluations(reader, scoped, false, polls);
      && t < |h|
      && forall a :: a in Batches(None, Evaluations(reader, scoped, false, polls), n)[t] <==>
           Alerted(h, a.name, t, n) && a == AlertFor(h, a.name, t, n)
  {
    EvaluationsAreSimple(reader, tag, scoped, false, polls);
    BatchIsSpecified(Evaluations(reader, scoped, false, polls), n, t);
  }

  // ----- The loop that parses every time -----

  /** Downloads and parses in every tick, and fails whenever the body does not parse. */
  ghost function StrictEvaluations(reader: Reader, scoped: bool, hadFile: bool, polls: seq<Poll>): seq<Cycle> {
    if polls == [] then []
    else
      var last, done := polls[|polls| - 1], StrictEvaluations(reader, scoped, hadFile, polls[..|polls| - 1]);
      if SimpleLoopFails(reader, last.exchange).None? && last.actual.Ok? && Saves(last, hadFile || done != [])
      then
        var body := last.exchange.body;
        done + [CycleOf(last, reader.parse(body).value, reader.fingerprint(body), scoped)]
      else done
  }

  /** Tick t goes through to a saved cycle. */
  ghost predicate Completes(reader: Reader, scoped: bool, hadFile: bool, polls: seq<Poll>, t: nat)
    requires t < |polls|
  {
    && Attempts(reader, CacheAfter(reader, Exchanges(polls[..t])), polls[t])
    && Saves(polls[t], hadFile || Evaluations(reader, scoped, hadFile, polls[..t]) != [])
  }

  /** Every tick that goes through was served a body that parses. */
  ghost predicate ParsedThroughout(reader: Reader, scoped: bool, hadFile: bool, polls: seq<Poll>) {
    forall t: nat | t < |polls| && Completes(reader, scoped, hadFile, polls, t) ::
      SimpleLoopFails(reader, polls[t].exchange).None?
  }

  lemma ParsedInit(reader: Reader, scoped: bool, hadFile: bool, polls: seq<Poll>)
    requires ParsedThroughout(reader, scoped, hadFile, polls) && polls != []
    ensures ParsedThroughout(reader, scoped, hadFile, polls[..|polls| - 1])
  {
    var init := polls[..|polls| - 1];
    forall t: nat | t < |init| && Completes(reader, scoped, hadFile, init, t)
      ensures SimpleLoopFails(reader, init[t].exchange).None?
    {
      assert init[..t] == polls[..t];
      assert Completes(reader, scoped, hadFile, polls, t);
    }
  }

  /** A body that parses is served, and is what the simple loop then has. */
  lemma ParsedIsServed(reader: Reader, xs: seq<Exchange>)
    requires xs != [] && SimpleLoopFails(reader, xs[|xs| - 1]).None?
    ensures Served(reader, xs) && SimpleLoop(reader, xs) == reader.parse(xs[|xs| - 1].body)
  {
  }

  lemma {:induction false} StrictIfParsed(
    reader: Reader, tag: Bytes -> string, scoped: bool, hadFile: bool, polls: seq<Poll>)
    requires HonestPolls(reader, tag, polls) && ParsedThroughout(reader, scoped, hadFile, polls)
    ensures Evaluations(reader, scoped, hadFile, polls) == StrictEvaluations(reader, scoped, hadFile, polls)
    decreases |polls|
  {
    if polls != [] {
      HonestInit(reader, tag, polls);
      ParsedInit(reader, scoped, hadFile, polls);
      StrictIfParsed(reader, tag, scoped, hadFile, polls[..|polls| - 1]);
      LastTickIfParsed(reader, tag, scoped, hadFile, polls);
    }
  }

  lemma LastTickIfParsed(reader: Reader, tag: Bytes -> string, scoped: bool, hadFile: bool, polls: seq<Poll>)
    requires HonestPolls(reader, tag, polls) && ParsedThroughout(reader, scoped, hadFile, polls) && polls != []
    requires var init := polls[..|polls| - 1];
      Evaluations(reader, scoped, hadFile, init) == StrictEvaluations(reader, scoped, hadFile, init)
    ensures Evaluations(reader, scoped, hadFile, polls) == StrictEvaluations(reader, scoped, hadFile, polls)
  {
    AttemptIsServed(reader, tag, scoped, polls);
    var k := |polls| - 1;
    assert Completes(reader, scoped, hadFile, polls, k) ==> SimpleLoopFails(reader, polls[k].exchange).None?;
    if SimpleLoopFails(reader, polls[k].exchange).None? {
      ParsedIsServed(reader, Exchanges(polls));
    }
  }

  ghost predicate OfParsedBody(reader: Reader, cycle: Cycle) {
    exists body :: cycle.fingerprint == reader.fingerprint(body) && reader.parse(body).Some?
  }

  /** The strict loop only ever grades against a body that parses. */
  lemma {:induction false} StrictIsParsed(reader: Reader, scoped: bool, hadFile: bool, polls: seq<Poll>)
    ensures forall c | c in StrictEvaluations(reader, scoped, hadFile, polls) :: OfParsedBody(reader, c)
    decreases |polls|
  {
    if polls != [] {
      StrictIsParsed(reader, scoped, hadFile, polls[..|polls| - 1]);
    }
  }

  /** In an honest exchange a served body that fails is one that does not parse. */
  lemma ServedFailureIsUnparsed(reader: Reader, tag: Bytes -> string, xs: seq<Exchange>)
    requires GoodTag(tag) && Honest(reader, tag, xs) && TagsKept(Kinds(xs)) && xs != []
    requires Served(reader, xs) && SimpleLoopFails(reader, xs[|xs| - 1]).Some?
    ensures reader.parse(xs[|xs| - 1].body).None?
  {
    assert xs[|xs| - 1] in xs;
    LastBodyIsNotEmpty(xs, |xs| - 1);
    if xs[|xs| - 1].Unchanged? {
      UnchangedIsLastBody(reader, tag, xs);
    }
  }

  lemma {:induction false} SavedCycleStays(
    reader: Reader, scoped: bool, hadFile: bool, polls: seq<Poll>, t: nat)
    requires t < |polls| && Completes(reader, scoped, hadFile, polls, t)
    ensures AttemptOf(reader, CacheAfter(reader, Exchanges(polls[..t])), polls[t], scoped)
              in Evaluations(reader, scoped, hadFile, polls)
    decreases |polls|
  {
    var init := polls[..|polls| - 1];
    if t < |init| {
      assert init[..t] == polls[..t];
      SavedCycleStays(reader, scoped, hadFile, init, t);
    } else {
      assert t == |polls| - 1;
    }
  }

  lemma {:induction false} HonestPollsPrefix(reader: Reader, tag: Bytes -> string, polls: seq<Poll>, k: nat)
    requires HonestPolls(reader, tag, polls) && k <= |polls|
    ensures HonestPolls(reader, tag, polls[..k])
    decreases |polls|
  {
    if k < |polls| {
      HonestInit(reader, tag, polls);
      HonestPollsPrefix(reader, tag, polls[..|polls| - 1], k);
      assert polls[..|polls| - 1][..k] == polls[..k];
    } else {
      assert polls[..k] == polls;
    }
  }

  /** A saved cycle of a body that does not parse carries that body's fingerprint. */
  lemma UnparsedCycleShows(
    reader: Reader, tag: Bytes -> string, scoped: bool, hadFile: bool, polls: seq<Poll>, t: nat)
    requires HonestPolls(reader, tag, polls) && t < |polls| && Completes(reader, scoped, hadFile, polls, t)
    requires SimpleLoopFails(reader, polls[t].exchange).Some?
    ensures !OfParsedBody(reader, AttemptOf(reader, CacheAfter(reader, Exchanges(polls[..t])), polls[t], scoped))
  {
    var upTo := polls[..t + 1];
    HonestPollsPrefix(reader, tag, polls, t + 1);
    assert upTo[..t] == polls[..t];
    AttemptIsServed(reader, tag, scoped, upTo);
    ServedFailureIsUnparsed(reader, tag, Exchanges(upTo));
  }

  /**
   The runner saves the cycles of the loop that parses every time iff every tick that
   goes through was served a body that parses. A body that does not parse stops only the
   tick that downloads it; while it is served again, the old desired state is graded.
   */
  lemma StrictIffParsedThroughout(
    reader: Reader, tag: Bytes -> string, scoped: bool, hadFile: bool, polls: seq<Poll>)
    requires HonestPolls(reader, tag, polls)
    ensures Evaluations(reader, scoped, hadFile, polls) == StrictEvaluations(reader, scoped, hadFile, polls) <==>
              ParsedThroughout(reader, scoped, hadFile, polls)
  {
    if ParsedThroughout(reader, scoped, hadFile, polls) {
      StrictIfParsed(reader, tag, scoped, hadFile, polls);
    } else {
      var t: nat :| t < |polls| && Completes(reader, scoped, hadFile, polls, t)
                    && SimpleLoopFails(reader, polls[t].exchange).Some?;
      UnparsedCycleShows(reader, tag, scoped, hadFile, polls, t);
      SavedCycleStays(reader, scoped, hadFile, polls, t);
      StrictIsParsed(reader, scoped, hadFile, polls);
    }
  }

  /** A tick that is answered with a tagged body, and in which nothing fails. */
  function Answered(tag: Bytes -> string, body: Bytes, now: int): Poll {
    Poll(Full(body, tag(body)), Ok(ActualState(map[])), now, NoLoadFault, NoSaveFault, false)
  }

  /** A body that parses, then twice one that does not. */
  function BadRun(tag: Bytes -> string, good: Bytes, bad: Bytes): seq<Poll> {
    [Answered(tag, good, 0), Answered(tag, bad, 1), Answered(tag, bad, 2)]
  }

  lemma FullRunIsHonest(reader: Reader, tag: Bytes -> string, xs: seq<Exchange>)
    requires forall x | x in xs :: x.Full? && x.body != "" && x.etag == tag(x.body)
    ensures Honest(reader, tag, xs) && TagsKept(Kinds(xs))
  {
    assert forall t | 0 <= t < |xs| :: xs[t] in xs;
  }

  lemma BadRunIsHonest(reader: Reader, tag: Bytes -> string, good: Bytes, bad: Bytes)
    requires GoodReader(reader) && GoodTag(tag) && good != "" && bad != ""
    ensures HonestPolls(reader, tag, BadRun(tag, good, bad))
  {
    FullRunIsHonest(reader, tag, Exchanges(BadRun(tag, good, bad)));
  }

  lemma BadRunIsSaved(reader: Reader, tag: Bytes -> string, good: Bytes, bad: Bytes, scoped: bool)
    requires GoodReader(reader) && GoodTag(tag) && good != bad && good != "" && bad != ""
    requires reader.parse(good).Some? && reader.parse(bad).None?
    ensures var polls, desired := BadRun(tag, good, bad), reader.parse(good).value;
      Evaluations(reader, scoped, false, polls)
        == [CycleOf(polls[0], desired, reader.fingerprint(good), scoped)]
           + [CycleOf(polls[2], desired, reader.fingerprint(bad), scoped)]
  {
    var polls := BadRun(tag, good, bad);
    assert polls[..0] == [] && polls[..3] == polls;
    OneMoreTick(reader, scoped, false, polls, 0);
    OneMoreTick(reader, scoped, false, polls, 1);
    OneMoreTick(reader, scoped, false, polls, 2);
    var parsed := reader.parse(good);
    assert CacheAfter(reader, Exchanges(polls[..1])) == Cache(tag(good), reader.fingerprint(good), parsed);
    assert CacheAfter(reader, Exchanges(polls[..2])) == Cache(tag(bad), reader.fingerprint(bad), parsed);
  }

  lemma BadRunIsStrict(reader: Reader, tag: Bytes -> string, good: Bytes, bad: Bytes, scoped: bool)
    requires good != "" && bad != "" && reader.parse(good).Some? && reader.parse(bad).None?
    ensures var polls := BadRun(tag, good, bad);
      StrictEvaluations(reader, scoped, false, polls)
        == [CycleOf(polls[0], reader.parse(good).value, reader.fingerprint(good), scoped)]
  {
    var polls := BadRun(tag, good, bad);
    var one, two := polls[..1], polls[..2];
    assert |polls| == 3 && one[..0] == [] && two[..1] == one;
    assert StrictEvaluations(reader, scoped, false, one[..0]) == [];
    assert StrictEvaluations(reader, scoped, false, one)
        == [CycleOf(polls[0], reader.parse(good).value, reader.fingerprint(good), scoped)];
    assert StrictEvaluations(reader, scoped, false, two) == StrictEvaluations(reader, scoped, false, one);
    assert StrictEvaluations(reader, scoped, false, polls) == StrictEvaluations(reader, scoped, false, two);
  }

  /** The failure: the second time the body that does not parse is overlooked, and the old desired state graded. */
  lemma RepeatedBadBodyIsOverlooked(reader: Reader, tag: Bytes -> string, good: Bytes, bad: Bytes, scoped: bool)
    requires GoodReader(reader) && GoodTag(tag) && good != "" && bad != ""
    requires reader.parse(good).Some? && reader.parse(bad).None?
    ensures var polls := BadRun(tag, good, bad);
      && HonestPolls(reader, tag, polls)
      && |Evaluations(reader, scoped, false, polls)| == 2
      && |StrictEvaluations(reader, scoped, false, polls)| == 1
      && Evaluations(reader, scoped, false, polls)[1]
           == CycleOf(polls[2], reader.parse(good).value, reader.fingerprint(bad), scoped)
  {
    BadRunIsHonest(reader, tag, good, bad);
    BadRunIsSaved(reader, tag, good, bad, scoped);
    BadRunIsStrict(reader, tag, good, bad, scoped);
  }

  // ----- What is sent -----

  /** The notifier's calls for these batches: one for each that is not empty. */
  function CallsOf(key: string, batches: seq<seq<ServiceTransition>>): seq<(string, seq<ServiceTransition>)> {
    if batches == [] then []
    else
      var last := batches[|batches| - 1];
      CallsOf(key, batches[..|batches| - 1]) + if last == [] then [] else [(key, last)]
  }

  lemma OneMoreCall(key: string, batches: seq<seq<ServiceTransition>>, batch: seq<ServiceTransition>)
    ensures CallsOf(key, batches + [batch]) == CallsOf(key, batches) + if batch == [] then [] else [(key, batch)]
  {
    assert (batches + [batch])[..|batches|] == batches;
  }

  /** One more saved cycle, in the file and in the batches. */
  lemma OneMoreEvaluation(
    codec: Codec, file: Option<File>, key: string, start: Option<StackSnapshot>,
    cycles: seq<Cycle>, cycle: Cycle, n: int)
    requires RoundTrips(codec) && Stack(LoadOf(codec, file), key) == After(start, cycles, n)
    ensures Stack(LoadOf(codec, Some(NextFile(codec, file, key, cycle, n))), key) == After(start, cycles + [cycle], n)
    ensures Batches(start, cycles + [cycle], n) == Batches(start, cycles, n) + [NextBatch(codec, file, key, cycle, n)]
  {
    AppendedCycle(start, cycles, cycle, n);
    AppendedBatches(start, cycles, cycle, n);
    SaveChangesOneStack(codec, file, key, Snapshot(After(start, cycles, n), cycle, n), key);
  }

  /** The stored snapshot, whether there was a file, and the calls made, when a run begins. */
  datatype RunStart = RunStart(
    stored: Option<StackSnapshot>,
    hadFile: bool,
    calls: seq<(string, seq<ServiceTransition>)>)

  /** The file holds these cycles of a stack, and their batches were sent. */
  ghost predicate RunHolds(codec: Codec, key: string, n: int, run: RunStart, file: Option<File>,
                           calls: seq<(string, seq<ServiceTransition>)>, cycles: seq<Cycle>) {
    && Stack(LoadOf(codec, file), key) == After(run.stored, cycles, n)
    && calls == run.calls + CallsOf(key, Batches(run.stored, cycles, n))
    && (file.Some? <==> run.hadFile || cycles != [])
  }

  lemma RunBegins(codec: Codec, key: string, n: int, file: Option<File>, calls: seq<(string, seq<ServiceTransition>)>)
    ensures RunHolds(codec, key, n, RunStart(Stack(LoadOf(codec, file), key), file.Some?, calls), file, calls, [])
  {
  }

  lemma RunGrows(codec: Codec, key: string, n: int, run: RunStart, file: Option<File>,
                 calls: seq<(string, seq<ServiceTransition>)>, cycles: seq<Cycle>, cycle: Cycle)
    requires RoundTrips(codec) && RunHolds(codec, key, n, run, file, calls, cycles)
    ensures var batch := NextBatch(codec, file, key, cycle, n);
      RunHolds(codec, key, n, run, Some(NextFile(codec, file, key, cycle, n)),
               calls + (if batch == [] then [] else [(key, batch)]), cycles + [cycle])
  {
    OneMoreEvaluation(codec, file, key, run.stored, cycles, cycle, n);
    CallsGrow(key, Batches(run.stored, cycles, n), NextBatch(codec, file, key, cycle, n), run.calls);
  }

  lemma CallsGrow(key: string, batches: seq<seq<ServiceTransition>>, batch: seq<ServiceTransition>,
                  before: seq<(string, seq<ServiceTransition>)>)
    ensures before + CallsOf(key, batches + [batch])
         == before + CallsOf(key, batches) + if batch == [] then [] else [(key, batch)]
  {
    OneMoreCall(key, batches, batch);
    Regrouped(before, CallsOf(key, batches), if batch == [] then [] else [(key, batch)]);
  }

  // ----- What is sent was held -----

  /** In cycle t of a run an alert is raised for a service that is new, or has had this status for n cycles. */
  ghost predicate HeldAt(h: seq<Cycle>, alert: ServiceTransition, t: int, n: int) {
    && 0 <= t < |h| && alert.name in h[t].services
    && h[t].services[alert.name].status == alert.currentStatus
    && (|| t == 0 || alert.name !in h[t - 1].services
        || forall u | t - n < u <= t ::
             0 <= u && alert.name in h[u].services && h[u].services[alert.name].status == alert.currentStatus)
  }

  ghost predicate SentAreHeld(calls: seq<(string, seq<ServiceTransition>)>, h: seq<Cycle>, n: int) {
    forall call, alert | call in calls && alert in call.1 :: exists t :: HeldAt(h, alert, t, n)
  }

  lemma {:induction false} CallIsBatch(key: string, batches: seq<seq<ServiceTransition>>,
                                       call: (string, seq<ServiceTransition>))
    returns (t: nat)
    requires call in CallsOf(key, batches)
    ensures t < |batches| && batches[t] == call.1
  {
    var last := |batches| - 1;
    if call in CallsOf(key, batches[..last]) {
      t := CallIsBatch(key, batches[..last], call);
    } else {
      t := last;
    }
  }

  /** From an empty store, every alert sent was held for n saved cycles, or is of a new service. */
  lemma SentIsHeld(key: string, h: seq<Cycle>, n: int)
    requires n >= 1
    ensures SentAreHeld(CallsOf(key, Batches(None, h, n)), h, n)
  {
    forall call, alert | call in CallsOf(key, Batches(None, h, n)) && alert in call.1
      ensures exists t :: HeldAt(h, alert, t, n)
    {
      var t := CallIsBatch(key, Batches(None, h, n), call);
      BatchIsSpecified(h, n, t);
      AlertIsHeld(h, alert, t, n);
    }
  }

  lemma AlertIsHeld(h: seq<Cycle>, alert: ServiceTransition, t: int, n: int)
    requires n >= 1 && Alerted(h, alert.name, t, n) && alert == AlertFor(h, alert.name, t, n)
    ensures HeldAt(h, alert, t, n)
  {
    if Born(h, alert.name, t) {
      assert !Present(h, alert.name, t - 1);
    } else {
      AlertEndsAHold(h, alert.name, t, n);
      forall u | t - n < u <= t
        ensures 0 <= u && alert.name in h[u].services && h[u].services[alert.name].status == alert.currentStatus
      {
        assert Present(h, alert.name, u) && Grade(h, alert.name, u) == Grade(h, alert.name, t);
      }
    }
  }

  lemma RunSendsHeld(codec: Codec, key: string, n: int, run: RunStart, file: Option<File>,
                     calls: seq<(string, seq<ServiceTransition>)>, cycles: seq<Cycle>)
    requires RunHolds(codec, key, n, run, file, calls, cycles) && n >= 1
    ensures run.calls <= calls
    ensures run.stored == None ==> SentAreHeld(calls[|run.calls|..], cycles, n)
  {
    assert calls[|run.calls|..] == CallsOf(key, Batches(run.stored, cycles, n));
    SentIsHeld(key, cycles, n);
  }
}
