/**
 The desired-state cache of defaultRunOnce in internal/runner/runner.go: an ETag
 and a fingerprint decide whether a compose body is parsed again. Compared here
 with the simple loop that downloads and parses the body in every cycle.
 */
module DesiredCache {
  import opened Wrappers
  import opened Compose
  import opened FileStore

  /** The parser (`None` on an error) and the fingerprint of a compose body. */
  datatype Reader = Reader(parse: Bytes -> Option<DesiredState>, fingerprint: Bytes -> string)

  /** What a fetch returns. */
  datatype FetchOutcome =
    | FetchFailed
    | NotModified(etag: string)
    | Fetched(body: Bytes, etag: string)

  datatype Cache = Cache(etag: string, hash: string, desired: Option<DesiredState>)

  const EMPTY_CACHE := Cache("", "", None)

  datatype RefreshError = FetchError | FingerprintError | ParseFailed

  /** The cache after one cycle. */
  function Refreshed(reader: Reader, cache: Cache, outcome: FetchOutcome): Cache {
    match outcome
    case FetchFailed => cache
    case NotModified(etag) => if etag == "" then cache else cache.(etag := etag)
    case Fetched(body, etag) =>
      var tagged := if etag == "" then cache else cache.(etag := etag);
      if body == "" || reader.fingerprint(body) == cache.hash then tagged
      else tagged.(hash := reader.fingerprint(body),
                   desired := if reader.parse(body).Some? then reader.parse(body) else cache.desired)
  }

  /** The error the cycle ends with, if any. */
  function RefreshFails(reader: Reader, cache: Cache, outcome: FetchOutcome): Option<RefreshError> {
    match outcome
    case FetchFailed => Some(FetchError)
    case NotModified(_) => None
    case Fetched(body, _) =>
      if body == "" then Some(FingerprintError)
      else if reader.fingerprint(body) == cache.hash || reader.parse(body).Some? then None
      else Some(ParseFailed)
  }

  /** SHA-256 in hex: never empty, and taken to be injective. */
  ghost predicate GoodReader(reader: Reader) {
    && (forall b :: reader.fingerprint(b) != "")
    && (forall a, b :: reader.fingerprint(a) == reader.fingerprint(b) ==> a == b)
  }

  // ----- One server, many cycles -----

  /**
   One cycle seen from the server: the request is lost, or answered with the body,
   or answered 304 because the body the server holds has the ETag that was sent.
   */
  datatype Exchange =
    | Lost
    | Full(body: Bytes, etag: string)
    | Unchanged(body: Bytes, etag: string)

  function OutcomeOf(x: Exchange): FetchOutcome {
    match x
    case Lost => FetchFailed
    case Full(body, etag) => Fetched(body, etag)
    case Unchanged(_, etag) => NotModified(etag)
  }

  function CacheAfter(reader: Reader, xs: seq<Exchange>): Cache {
    if xs == [] then EMPTY_CACHE
    else Refreshed(reader, CacheAfter(reader, xs[..|xs| - 1]), OutcomeOf(xs[|xs| - 1]))
  }

  /** The simple loop: the server's current body is parsed whenever it answers. */
  function SimpleLoop(reader: Reader, xs: seq<Exchange>): Option<DesiredState> {
    if xs == [] then None
    else
      var last, before := xs[|xs| - 1], SimpleLoop(reader, xs[..|xs| - 1]);
      if last.Lost? || reader.parse(last.body).None? then before else reader.parse(last.body)
  }

  /** The most recent downloaded body. */
  function LastBody(xs: seq<Exchange>): Option<Bytes> {
    if xs == [] then None
    else if xs[|xs| - 1].Full? then Some(xs[|xs| - 1].body)
    else LastBody(xs[..|xs| - 1])
  }

  /** The most recent ETag that any answer carried. */
  function LastTag(xs: seq<Exchange>): string {
    if xs == [] then ""
    else
      var last := xs[|xs| - 1];
      if !last.Lost? && last.etag != "" then last.etag else LastTag(xs[..|xs| - 1])
  }

  /** The parse of the most recent downloaded body that parses. */
  function LastParsed(reader: Reader, xs: seq<Exchange>): Option<DesiredState> {
    if xs == [] then None
    else if xs[|xs| - 1].Full? && reader.parse(xs[|xs| - 1].body).Some? then reader.parse(xs[|xs| - 1].body)
    else LastParsed(reader, xs[..|xs| - 1])
  }

  /** The fetcher rejects empty bodies before the cache sees them. */
  predicate NoEmptyBody(xs: seq<Exchange>) {
    forall x | x in xs :: x.Full? ==> x.body != ""
  }

  /**
   For any server whatsoever: the ETag in use is the last one received; the stored hash is the fingerprint of the last
   downloaded body, even one that failed to parse; and the cached desired state is
   the parse of the last downloaded body that parses.
   */
  lemma {:induction false} CacheFollowsDownloads(reader: Reader, xs: seq<Exchange>)
    requires GoodReader(reader) && NoEmptyBody(xs)
    ensures var cache := CacheAfter(reader, xs);
      && cache.etag == LastTag(xs)
      && cache.hash == (if LastBody(xs).Some? then reader.fingerprint(LastBody(xs).value) else "")
      && cache.desired == LastParsed(reader, xs)
      && (LastBody(xs).Some? && reader.parse(LastBody(xs).value).Some? ==>
          cache.desired == reader.parse(LastBody(xs).value))
  {
    if xs != [] {
      var init := xs[..|xs| - 1];
      assert xs[|xs| - 1] in xs && forall x | x in init :: x in xs;
      CacheFollowsDownloads(reader, init);
    }
  }

  /**
   An honest server under If-None-Match (section 13.1.2 of RFC 9110): every ETag it
   sends is the tag of the body it holds, and it answers 304 only to a request that
   sent the tag of that body.
   */
  ghost predicate Honest(reader: Reader, tag: Bytes -> string, xs: seq<Exchange>) {
    && NoEmptyBody(xs)
    && forall t | 0 <= t < |xs| ::
         match xs[t]
         case Lost => true
         case Full(body, etag) => etag == "" || etag == tag(body)
         case Unchanged(body, etag) =>
           var sent := CacheAfter(reader, xs[..t]).etag;
           sent != "" && sent == tag(body) && (etag == "" || etag == tag(body))
  }

  ghost predicate GoodTag(tag: Bytes -> string) {
    && (forall b :: tag(b) != "")
    && (forall a, b :: tag(a) == tag(b) ==> a == b)
  }

  /** What a caller can see of an exchange without reading the body. */
  datatype Kind = NoAnswer | Body(tagged: bool) | Same

  function KindOf(x: Exchange): Kind {
    match x
    case Lost => NoAnswer
    case Full(_, etag) => Body(etag != "")
    case Unchanged(_, _) => Same
  }

  function Kinds(xs: seq<Exchange>): seq<Kind> {
    seq(|xs|, i requires 0 <= i < |xs| => KindOf(xs[i]))
  }

  /** The last body answer carried no ETag. */
  predicate LastUntagged(kinds: seq<Kind>) {
    if kinds == [] then false
    else if kinds[|kinds| - 1].Body? then !kinds[|kinds| - 1].tagged
    else LastUntagged(kinds[..|kinds| - 1])
  }

  /** No 304 arrives while the ETag in use is older than the last body. */
  ghost predicate TagsKept(kinds: seq<Kind>) {
    forall t | 0 <= t < |kinds| && kinds[t] == Same :: !LastUntagged(kinds[..t])
  }

  lemma {:induction false} TaggedETag(reader: Reader, tag: Bytes -> string, xs: seq<Exchange>)
    requires Honest(reader, tag, xs) && GoodTag(tag)
    ensures CacheAfter(reader, xs).etag != "" && !LastUntagged(Kinds(xs)) ==>
              LastBody(xs).Some? && CacheAfter(reader, xs).etag == tag(LastBody(xs).value)
  {
    if xs != [] {
      var init := xs[..|xs| - 1];
      HonestPrefix(reader, tag, xs);
      TaggedETag(reader, tag, init);
      assert Kinds(xs)[..|xs| - 1] == Kinds(init);
    }
  }

  lemma HonestPrefix(reader: Reader, tag: Bytes -> string, xs: seq<Exchange>)
    requires Honest(reader, tag, xs) && xs != []
    ensures Honest(reader, tag, xs[..|xs| - 1])
    ensures Kinds(xs)[..|xs| - 1] == Kinds(xs[..|xs| - 1])
    ensures TagsKept(Kinds(xs)) ==> TagsKept(Kinds(xs[..|xs| - 1]))
  {
    var init := xs[..|xs| - 1];
    assert forall x | x in init :: x in xs;
    assert forall t | 0 <= t < |init| :: init[..t] == xs[..t] && init[t] == xs[t];
    assert forall t | 0 <= t < |init| :: Kinds(xs)[..t] == Kinds(init)[..t] && Kinds(xs)[t] == Kinds(init)[t];
  }

  /** A 304 whose ETag was kept is about the body that was downloaded last. */
  lemma UnchangedIsLastBody(reader: Reader, tag: Bytes -> string, xs: seq<Exchange>)
    requires GoodTag(tag) && Honest(reader, tag, xs) && TagsKept(Kinds(xs))
    requires xs != [] && xs[|xs| - 1].Unchanged?
    ensures LastBody(xs[..|xs| - 1]) == Some(xs[|xs| - 1].body)
  {
    HonestPrefix(reader, tag, xs);
    TaggedETag(reader, tag, xs[..|xs| - 1]);
    assert Kinds(xs)[|xs| - 1] == Same;
  }

  /** Transparency: with an honest server whose ETags are kept, skipping never changes the desired state. */
  lemma {:induction false} CacheIsTransparent(reader: Reader, tag: Bytes -> string, xs: seq<Exchange>)
    requires GoodReader(reader) && GoodTag(tag) && Honest(reader, tag, xs) && TagsKept(Kinds(xs))
    ensures CacheAfter(reader, xs).desired == SimpleLoop(reader, xs)
  {
    if xs != [] {
      var init, last := xs[..|xs| - 1], xs[|xs| - 1];
      HonestPrefix(reader, tag, xs);
      CacheIsTransparent(reader, tag, init);
      CacheFollowsDownloads(reader, init);
      CacheFollowsDownloads(reader, xs);
      if last.Unchanged? {
        UnchangedIsLastBody(reader, tag, xs);
      }
    }
  }

  // ----- The errors of each cycle -----

  /** The error the simple loop's cycle ends with; its fetcher rejects an empty body. */
  function SimpleLoopFails(reader: Reader, x: Exchange): Option<RefreshError> {
    if x.Lost? || x.body == "" then Some(FetchError)
    else if reader.parse(x.body).None? then Some(ParseFailed)
    else None
  }

  /** The error that cycle t ends with in the source. */
  function CycleFails(reader: Reader, xs: seq<Exchange>, t: nat): Option<RefreshError>
    requires t < |xs|
  {
    RefreshFails(reader, CacheAfter(reader, xs[..t]), OutcomeOf(xs[t]))
  }

  /**
   For any server whatsoever: the two loops' errors differ in a cycle iff its body
   cannot be used and is not read again, by a 304 or because it is the body that was
   downloaded last. Then the source reports nothing and goes on with its old desired
   state, where the simple loop fails.
   */
  lemma ErrorsDifferIff(reader: Reader, xs: seq<Exchange>, t: nat)
    requires GoodReader(reader) && NoEmptyBody(xs) && t < |xs|
    ensures CycleFails(reader, xs, t) != SimpleLoopFails(reader, xs[t]) <==>
              && !xs[t].Lost?
              && (xs[t].body == "" || reader.parse(xs[t].body).None?)
              && (xs[t].Unchanged? || LastBody(xs[..t]) == Some(xs[t].body))
    ensures CycleFails(reader, xs, t) != SimpleLoopFails(reader, xs[t]) ==> CycleFails(reader, xs, t) == None
  {
    assert xs[t] in xs && forall x | x in xs[..t] :: x in xs;
    CacheFollowsDownloads(reader, xs[..t]);
  }

  /**
   With an honest server whose ETags are kept: exactly when a body that does not parse
   is served again right after it was downloaded, however the server answers.
   */
  lemma HonestErrorsDifferIff(reader: Reader, tag: Bytes -> string, xs: seq<Exchange>, t: nat)
    requires GoodReader(reader) && GoodTag(tag) && Honest(reader, tag, xs) && TagsKept(Kinds(xs)) && t < |xs|
    ensures CycleFails(reader, xs, t) != SimpleLoopFails(reader, xs[t]) <==>
              !xs[t].Lost? && reader.parse(xs[t].body).None? && LastBody(xs[..t]) == Some(xs[t].body)
  {
    ErrorsDifferIff(reader, xs, t);
    if xs[t].Unchanged? {
      KeptPrefix(reader, tag, xs, t + 1);
      assert xs[..t + 1][..t] == xs[..t];
      UnchangedIsLastBody(reader, tag, xs[..t + 1]);
      LastBodyIsNotEmpty(xs, t);
    }
  }

  lemma {:induction false} LastBodyIsNotEmpty(xs: seq<Exchange>, t: nat)
    requires NoEmptyBody(xs) && t <= |xs|
    ensures LastBody(xs[..t]) != Some("")
  {
    if t > 0 {
      assert xs[t - 1] in xs && xs[..t][..t - 1] == xs[..t - 1];
      LastBodyIsNotEmpty(xs, t - 1);
    }
  }

  // ----- When it is not transparent -----

  /** A 304 needs an ETag to have been received before. */
  ghost predicate Possible(kinds: seq<Kind>) {
    forall t | 0 <= t < |kinds| && kinds[t] == Same :: Body(true) in kinds[..t]
  }

  /** A server that sends `a` with an ETag and `b` without one. */
  function TwoBodies(tag: Bytes -> string, a: Bytes, b: Bytes, kind: Kind): Exchange {
    match kind
    case NoAnswer => Lost
    case Body(tagged) => if tagged then Full(a, tag(a)) else Full(b, "")
    case Same => Unchanged(a, "")
  }

  function TwoBodyRun(tag: Bytes -> string, a: Bytes, b: Bytes, kinds: seq<Kind>): seq<Exchange> {
    seq(|kinds|, i requires 0 <= i < |kinds| => TwoBodies(tag, a, b, kinds[i]))
  }

  lemma {:induction false} TwoBodyCache(reader: Reader, tag: Bytes -> string, a: Bytes, b: Bytes, kinds: seq<Kind>)
    requires GoodTag(tag) && GoodReader(reader) && a != "" && b != ""
    ensures var xs := TwoBodyRun(tag, a, b, kinds);
      && CacheAfter(reader, xs).etag == (if Body(true) in kinds then tag(a) else "")
      && (LastUntagged(kinds) ==> LastBody(xs) == Some(b))
  {
    var xs := TwoBodyRun(tag, a, b, kinds);
    if kinds != [] {
      var init := kinds[..|kinds| - 1];
      TwoBodyCache(reader, tag, a, b, init);
      assert xs[..|xs| - 1] == TwoBodyRun(tag, a, b, init);
      assert kinds == init + [kinds[|kinds| - 1]];
    }
  }

  lemma TwoBodyRunIsHonest(reader: Reader, tag: Bytes -> string, a: Bytes, b: Bytes, kinds: seq<Kind>)
    requires GoodTag(tag) && GoodReader(reader) && a != "" && b != "" && Possible(kinds)
    ensures Honest(reader, tag, TwoBodyRun(tag, a, b, kinds))
    ensures forall t | 0 <= t < |kinds| :: KindOf(TwoBodyRun(tag, a, b, kinds)[t]) == kinds[t]
  {
    var xs := TwoBodyRun(tag, a, b, kinds);
    forall t | 0 <= t < |xs| && xs[t].Unchanged? ensures CacheAfter(reader, xs[..t]).etag == tag(a) {
      assert kinds[t] == Same;
      assert xs[..t] == TwoBodyRun(tag, a, b, kinds[..t]);
      TwoBodyCache(reader, tag, a, b, kinds[..t]);
    }
  }

  /** The cache agrees with the simple loop after every cycle of the run. */
  ghost predicate Transparent(reader: Reader, xs: seq<Exchange>) {
    forall t | 0 <= t <= |xs| :: CacheAfter(reader, xs[..t]).desired == SimpleLoop(reader, xs[..t])
  }

  lemma StaleTagShows(reader: Reader, tag: Bytes -> string, a: Bytes, b: Bytes, kinds: seq<Kind>, t: nat)
    requires GoodTag(tag) && GoodReader(reader) && a != "" && b != ""
    requires reader.parse(a).Some? && reader.parse(b).Some? && reader.parse(a) != reader.parse(b)
    requires t < |kinds| && kinds[t] == Same && LastUntagged(kinds[..t])
    ensures !Transparent(reader, TwoBodyRun(tag, a, b, kinds))
  {
    var xs := TwoBodyRun(tag, a, b, kinds);
    var upTo, before := xs[..t + 1], xs[..t];
    assert before == TwoBodyRun(tag, a, b, kinds[..t]);
    TwoBodyCache(reader, tag, a, b, kinds[..t]);
    assert NoEmptyBody(before);
    CacheFollowsDownloads(reader, before);
    assert upTo[..t] == before && upTo[t] == Unchanged(a, "");
    assert CacheAfter(reader, upTo).desired == reader.parse(b);
    assert SimpleLoop(reader, upTo) == reader.parse(a);
  }

  lemma KeptPrefix(reader: Reader, tag: Bytes -> string, xs: seq<Exchange>, t: nat)
    requires Honest(reader, tag, xs) && TagsKept(Kinds(xs)) && t <= |xs|
    ensures Honest(reader, tag, xs[..t]) && TagsKept(Kinds(xs[..t]))
    decreases |xs|
  {
    if t == |xs| {
      assert xs[..t] == xs;
    } else {
      HonestPrefix(reader, tag, xs);
      KeptPrefix(reader, tag, xs[..|xs| - 1], t);
      assert xs[..|xs| - 1][..t] == xs[..t];
    }
  }

  /**
   The exact condition, on what a caller sees: the cache agrees with the simple loop
   for every honest server that answers in this pattern, iff no 304 follows a body
   without an ETag that itself follows one with an ETag. Without the condition a
   server that drops its ETag for one body makes the runner keep that body's state.
   */
  lemma TransparentIffTagsKept(reader: Reader, tag: Bytes -> string, a: Bytes, b: Bytes, kinds: seq<Kind>)
    requires GoodReader(reader) && GoodTag(tag) && Possible(kinds) && a != "" && b != ""
    requires reader.parse(a).Some? && reader.parse(b).Some? && reader.parse(a) != reader.parse(b)
    ensures TagsKept(kinds) <==> forall xs | Honest(reader, tag, xs) && Kinds(xs) == kinds :: Transparent(reader, xs)
  {
    if TagsKept(kinds) {
      forall xs, t: nat | Honest(reader, tag, xs) && Kinds(xs) == kinds && t <= |xs|
        ensures CacheAfter(reader, xs[..t]).desired == SimpleLoop(reader, xs[..t])
      {
        KeptPrefix(reader, tag, xs, t);
        CacheIsTransparent(reader, tag, xs[..t]);
      }
    } else {
      var t :| 0 <= t < |kinds| && kinds[t] == Same && LastUntagged(kinds[..t]);
      var xs := TwoBodyRun(tag, a, b, kinds);
      TwoBodyRunIsHonest(reader, tag, a, b, kinds);
      assert Kinds(xs) == kinds;
      StaleTagShows(reader, tag, a, b, kinds, t);
    }
  }
}
