/** internal/compose/parse.go: the desired state and the names it resolves. */
module Compose {
  import opened Wrappers
  import opened Names

  /** A service as the compose file asks for it. */
  datatype DesiredService = DesiredService(
    image: string,
    mode: string,
    replicas: int,
    configs: seq<string>,
    secrets: seq<string>)

  datatype DesiredState = DesiredState(services: map<string, DesiredService>)

  const DEFAULT_DEPLOY_MODE := "replicated"
  const GLOBAL_DEPLOY_MODE := "global"
  const DEFAULT_SERVICE_SCALE := 1

  /** The parts of a loaded compose service that decide its mode and scale. */
  datatype Deploy = Deploy(mode: string, replicas: Option<int>)

  datatype ResolveError = MissingSource | Undefined(source: string)

  /** The names without the empty one. */
  function NamesIn(values: seq<string>): set<string> {
    set v | v in values && v != ""
  }

  lemma StrictKeysExtend(s: seq<string>, x: string)
    requires StrictlySortedBy(s, SELF)
    requires s != [] ==> Less(s[|s| - 1], x)
    ensures StrictlySortedBy(s + [x], SELF)
  {
    forall i | 0 <= i < |s| ensures Less(s[i], x) {
      if i < |s| - 1 {
        LessTransitive(s[i], s[|s| - 1], x);
      }
    }
  }

  function LastOf(names: seq<string>): string {
    if names == [] then "" else names[|names| - 1]
  }

  /** What the scan has kept of the sorted values it has passed. */
  ghost predicate KeptOf(passed: seq<string>, kept: seq<string>) {
    && StrictlySortedBy(kept, SELF)
    && (forall v :: v in kept <==> v in passed && v != "")
    && LastOf(kept) == LastOf(passed)
  }

  lemma KeepNext(sorted: seq<string>, i: nat, kept: seq<string>)
    requires SortedBy(sorted, SELF) && i < |sorted| && KeptOf(sorted[..i], kept)
    ensures KeptOf(sorted[..i + 1], if sorted[i] == LastOf(kept) then kept else kept + [sorted[i]])
  {
    var next := sorted[i];
    assert sorted[..i + 1] == sorted[..i] + [next];
    if next == LastOf(kept) {
      assert next == "" || next in kept;
    } else {
      assert i > 0 ==> sorted[i - 1] == next || Less(sorted[i - 1], next);
      StrictKeysExtend(kept, next);
    }
  }

  lemma KeptAll(values: seq<string>, kept: seq<string>)
    requires KeptOf(SortBy(values, SELF), kept)
    ensures kept == SortedNames(NamesIn(values))
  {
    SortIsOrderedPermutation(values, SELF);
    StrictListingIsUnique(kept, SortedNames(NamesIn(values)), SELF);
  }

  /**
   Sort, then skip every value equal to the last one kept. `last` starts as the
   empty string, so an empty name would be dropped too.
   */
  method NormalizeNames(values: seq<string>) returns (result: seq<string>)
    ensures result == SortedNames(NamesIn(values))
  {
    result := [];
    if |values| == 0 {
      return;
    }
    var sorted := SortBy(values, SELF);
    SortIsOrderedPermutation(values, SELF);
    var last := "";
    for i := 0 to |sorted|
      invariant KeptOf(sorted[..i], result) && last == LastOf(result)
    {
      KeepNext(sorted, i, result);
      if sorted[i] != last {
        result := result + [sorted[i]];
        last := sorted[i];
      }
    }
    assert sorted[..|sorted|] == sorted;
    KeptAll(values, result);
  }

  /** The name a reference resolves to: the defined name, else its source. */
  function Resolved(source: string, defined: map<string, string>): string
    requires source in defined
  {
    if defined[source] == "" then source else defined[source]
  }

  /** The first reference that cannot be resolved. */
  function FirstBadReference(refs: seq<string>, defined: map<string, string>): Option<ResolveError> {
    if refs == [] then None
    else if refs[0] == "" then Some(MissingSource)
    else if refs[0] !in defined then Some(Undefined(refs[0]))
    else FirstBadReference(refs[1..], defined)
  }

  lemma {:induction false} BadReferenceAfter(refs: seq<string>, i: nat, defined: map<string, string>)
    requires i <= |refs|
    requires forall k | 0 <= k < i :: refs[k] != "" && refs[k] in defined
    ensures FirstBadReference(refs, defined) == FirstBadReference(refs[i..], defined)
  {
    if i > 0 {
      BadReferenceAfter(refs[1..], i - 1, defined);
      assert refs[1..][i - 1..] == refs[i..];
    } else {
      assert refs[0..] == refs;
    }
  }

  /** Every reference names its source, and the source is defined. */
  ghost predicate GoodReferences(refs: seq<string>, defined: map<string, string>) {
    forall s | s in refs :: s != "" && s in defined
  }

  /** Reference k is the first bad one, and what is wrong with it. */
  ghost predicate BadAt(refs: seq<string>, defined: map<string, string>, k: int, error: ResolveError)
    requires 0 <= k < |refs|
  {
    && (forall j | 0 <= j < k :: refs[j] != "" && refs[j] in defined)
    && if refs[k] == "" then error == MissingSource else refs[k] !in defined && error == Undefined(refs[k])
  }

  ghost predicate FirstBad(refs: seq<string>, defined: map<string, string>, error: ResolveError) {
    exists k | 0 <= k < |refs| :: BadAt(refs, defined, k, error)
  }

  /** In strict order: each source's defined name, or the source itself where that is empty. */
  ghost predicate NamesOf(names: seq<string>, refs: seq<string>, defined: map<string, string>) {
    && StrictlySortedBy(names, SELF)
    && forall v :: v in names <==>
        exists s :: s in refs && s in defined && v == if defined[s] != "" then defined[s] else s
  }

  lemma {:induction false} NoneIsBadIffGood(refs: seq<string>, defined: map<string, string>)
    ensures FirstBadReference(refs, defined).None? <==> GoodReferences(refs, defined)
  {
    if refs != [] {
      var rest := refs[1..];
      NoneIsBadIffGood(rest, defined);
      assert refs == [refs[0]] + rest;
      assert forall s :: s in refs <==> s == refs[0] || s in rest;
    }
  }

  lemma {:induction false} FirstBadIsAt(refs: seq<string>, defined: map<string, string>, error: ResolveError)
    returns (k: nat)
    requires FirstBadReference(refs, defined) == Some(error)
    ensures k < |refs| && BadAt(refs, defined, k, error)
  {
    k := 0;
    if refs[0] != "" && refs[0] in defined {
      var rest := refs[1..];
      k := FirstBadIsAt(rest, defined, error);
      assert forall j | 0 <= j <= k :: refs[j + 1] == rest[j];
      k := k + 1;
      assert forall j | 0 < j < k :: refs[j] == rest[j - 1];
    }
  }

  lemma BadReferenceIsFirst(refs: seq<string>, defined: map<string, string>)
    ensures FirstBadReference(refs, defined).None? <==> GoodReferences(refs, defined)
    ensures FirstBadReference(refs, defined).Some? ==> FirstBad(refs, defined, FirstBadReference(refs, defined).value)
  {
    NoneIsBadIffGood(refs, defined);
    if FirstBadReference(refs, defined).Some? {
      var k := FirstBadIsAt(refs, defined, FirstBadReference(refs, defined).value);
    }
  }

  lemma ResolvedNamesAreNames(refs: seq<string>, defined: map<string, string>)
    ensures NamesOf(ResolvedNames(refs, defined), refs, defined)
  {
  }

  lemma ResolvedElements(refs: seq<string>, names: seq<string>, defined: map<string, string>)
    requires |names| == |refs|
    requires forall k | 0 <= k < |refs| :: refs[k] != "" && refs[k] in defined && names[k] == Resolved(refs[k], defined)
    ensures SortedNames(NamesIn(names)) == ResolvedNames(refs, defined)
    ensures "" !in names
  {
    var want := set s | s in refs && s in defined :: Resolved(s, defined);
    forall v | v in want ensures v in NamesIn(names) {
      var s :| s in refs && s in defined && Resolved(s, defined) == v;
      var k :| 0 <= k < |refs| && refs[k] == s;
      assert names[k] == v;
    }
    forall v | v in NamesIn(names) ensures v in want {
      var k :| 0 <= k < |names| && names[k] == v;
      assert refs[k] in refs;
    }
    assert NamesIn(names) == want;
  }

  /**
   resolveConfigNames and resolveSecretNames: both read the sources of the
   references and the table of defined names. The result lists, in strict order,
   exactly the resolved names; the first bad reference is the error.
   */
  method ResolveNames(refs: seq<string>, defined: map<string, string>) returns (r: Result<seq<string>, ResolveError>)
    ensures r.Err? <==> FirstBadReference(refs, defined).Some?
    ensures r.Err? ==> FirstBadReference(refs, defined) == Some(r.error)
    ensures r.Ok? ==> (forall s | s in refs :: s in defined) && "" !in r.value
    ensures r.Ok? ==> r.value == ResolvedNames(refs, defined)
    ensures r.Ok? <==> GoodReferences(refs, defined)
    ensures r.Ok? ==> NamesOf(r.value, refs, defined)
    ensures r.Err? ==> FirstBad(refs, defined, r.error)
  {
    BadReferenceIsFirst(refs, defined);
    ResolvedNamesAreNames(refs, defined);
    if |refs| == 0 {
      return Ok([]);
    }
    var names: seq<string> := [];
    for i := 0 to |refs|
      invariant forall k | 0 <= k < i :: refs[k] != "" && refs[k] in defined
      invariant |names| == i
      invariant forall k | 0 <= k < i :: names[k] == Resolved(refs[k], defined)
    {
      var source := refs[i];
      BadReferenceAfter(refs, i, defined);
      if source == "" {
        return Err(MissingSource);
      }
      if source !in defined {
        return Err(Undefined(source));
      }
      var name := defined[source];
      if name == "" {
        name := source;
      }
      names := names + [name];
    }
    BadReferenceAfter(refs, |refs|, defined);
    var sorted := NormalizeNames(names);
    ResolvedElements(refs, names, defined);
    r := Ok(sorted);
  }

  /** A loaded compose service: the parts the parser reads. */
  datatype ComposeService = ComposeService(
    image: string,
    deploy: Option<Deploy>,
    scale: Option<int>,
    configRefs: seq<string>,
    secretRefs: seq<string>)

  /** A loaded project: its services and the names of its configs and secrets. */
  datatype Project = Project(
    services: map<string, ComposeService>,
    configs: map<string, string>,
    secrets: map<string, string>)

  datatype ParseError = NoServices | MissingImage(service: string) | BadReference(service: string, why: ResolveError)

  /** Mode and replica defaulting: a global service always asks for 0. */
  function ModeAndReplicas(deploy: Option<Deploy>, scale: Option<int>): (string, int) {
    var mode := if deploy.Some? && deploy.value.mode != "" then deploy.value.mode else DEFAULT_DEPLOY_MODE;
    var replicas :=
      if mode == GLOBAL_DEPLOY_MODE then 0
      else if deploy.Some? && deploy.value.replicas.Some? then deploy.value.replicas.value
      else if scale.Some? then scale.value
      else DEFAULT_SERVICE_SCALE;
    (mode, replicas)
  }

  ghost predicate Parses(service: ComposeService, project: Project) {
    && service.image != ""
    && FirstBadReference(service.configRefs, project.configs).None?
    && FirstBadReference(service.secretRefs, project.secrets).None?
  }

  ghost function ResolvedNames(refs: seq<string>, defined: map<string, string>): seq<string> {
    SortedNames(set s | s in refs && s in defined :: Resolved(s, defined))
  }

  ghost function Parsed(service: ComposeService, project: Project): DesiredService {
    var (mode, replicas) := ModeAndReplicas(service.deploy, service.scale);
    DesiredService(service.image, mode, replicas,
                   ResolvedNames(service.configRefs, project.configs),
                   ResolvedNames(service.secretRefs, project.secrets))
  }

  /** Name lists as the parser and the Docker client produce them. */
  predicate NameList(names: seq<string>) {
    StrictlySortedBy(names, SELF) && "" !in names
  }

  lemma ResolvedNamesAreNameList(refs: seq<string>, defined: map<string, string>)
    requires "" !in refs
    ensures NameList(ResolvedNames(refs, defined))
  {
  }

  lemma {:induction false} NoEmptyReference(refs: seq<string>, defined: map<string, string>)
    requires FirstBadReference(refs, defined).None?
    ensures "" !in refs
  {
    if refs != [] {
      NoEmptyReference(refs[1..], defined);
    }
  }

  lemma ParsedNameLists(service: ComposeService, project: Project)
    requires Parses(service, project)
    ensures NameList(Parsed(service, project).configs) && NameList(Parsed(service, project).secrets)
  {
    NoEmptyReference(service.configRefs, project.configs);
    NoEmptyReference(service.secretRefs, project.secrets);
    ResolvedNamesAreNameList(service.configRefs, project.configs);
    ResolvedNamesAreNameList(service.secretRefs, project.secrets);
  }

  /** A service that the parser accepts. */
  ghost predicate Complete(service: ComposeService, project: Project) {
    && service.image != ""
    && GoodReferences(service.configRefs, project.configs)
    && GoodReferences(service.secretRefs, project.secrets)
  }

  /** What the compose file asks for, read off its fields. */
  ghost predicate AsWritten(service: ComposeService, project: Project, desired: DesiredService) {
    var deploy := if service.deploy.Some? then service.deploy.value else Deploy("", None);
    && desired.image == service.image
    && desired.mode == (if deploy.mode != "" then deploy.mode else "replicated")
    && desired.replicas == (if desired.mode == "global" then 0
                            else if deploy.replicas.Some? then deploy.replicas.value
                            else if service.scale.Some? then service.scale.value
                            else 1)
    && NamesOf(desired.configs, service.configRefs, project.configs)
    && NamesOf(desired.secrets, service.secretRefs, project.secrets)
  }

  lemma ParsedIsAsWritten(service: ComposeService, project: Project)
    ensures Parses(service, project) <==> Complete(service, project)
    ensures AsWritten(service, project, Parsed(service, project))
  {
    BadReferenceIsFirst(service.configRefs, project.configs);
    BadReferenceIsFirst(service.secretRefs, project.secrets);
    ResolvedNamesAreNames(service.configRefs, project.configs);
    ResolvedNamesAreNames(service.secretRefs, project.secrets);
  }

  /** What is wrong with a project that the parser rejects. */
  ghost predicate Explains(error: ParseError, project: Project) {
    match error
    case NoServices => project.services == map[]
    case MissingImage(name) => name in project.services && project.services[name].image == ""
    case BadReference(name, why) =>
      name in project.services &&
      var service := project.services[name];
      && service.image != ""
      && if GoodReferences(service.configRefs, project.configs) then FirstBad(service.secretRefs, project.secrets, why)
         else FirstBad(service.configRefs, project.configs, why)
  }

  lemma ServicesAreAsWritten(project: Project)
    ensures AllParse(project.services.Keys, project) <==>
              forall n | n in project.services :: Complete(project.services[n], project)
    ensures ParsedServices(project).Keys == project.services.Keys
    ensures forall n | n in project.services :: AsWritten(project.services[n], project, ParsedServices(project)[n])
  {
    forall n | n in project.services
      ensures Parses(project.services[n], project) <==> Complete(project.services[n], project)
      ensures AsWritten(project.services[n], project, ParsedServices(project)[n])
    {
      ParsedIsAsWritten(project.services[n], project);
    }
  }

  method ParseService(name: string, service: ComposeService, project: Project)
    returns (r: Result<DesiredService, ParseError>)
    requires name in project.services && project.services[name] == service
    ensures r.Ok? <==> Parses(service, project)
    ensures r.Ok? ==> r.value == Parsed(service, project)
    ensures r.Err? ==> Explains(r.error, project)
  {
    if service.image == "" {
      return Err(MissingImage(name));
    }
    var (mode, replicas) := ModeAndReplicas(service.deploy, service.scale);
    var configs := ResolveNames(service.configRefs, project.configs);
    if configs.Err? {
      return Err(BadReference(name, configs.error));
    }
    var secrets := ResolveNames(service.secretRefs, project.secrets);
    if secrets.Err? {
      return Err(BadReference(name, secrets.error));
    }
    return Ok(DesiredService(service.image, mode, replicas, configs.value, secrets.value));
  }

  ghost function ParsedServices(project: Project): map<string, DesiredService> {
    map n | n in project.services :: Parsed(project.services[n], project)
  }

  ghost predicate AllParse(names: set<string>, project: Project)
    requires names <= project.services.Keys
  {
    forall n | n in names :: Parses(project.services[n], project)
  }

  /** A desired state holds name lists only, as drift detection relies on. */
  lemma ParsedStateHasNameLists(project: Project)
    requires AllParse(project.services.Keys, project)
    ensures forall n | n in project.services ::
              NameList(ParsedServices(project)[n].configs) && NameList(ParsedServices(project)[n].secrets)
  {
    forall n | n in project.services
      ensures NameList(ParsedServices(project)[n].configs) && NameList(ParsedServices(project)[n].secrets)
    {
      ParsedNameLists(project.services[n], project);
    }
  }

  lemma OneMoreParsed(project: Project, todo: set<string>, name: string)
    requires name in todo && todo <= project.services.Keys
    requires AllParse(project.services.Keys - todo, project) && Parses(project.services[name], project)
    ensures AllParse(project.services.Keys - (todo - {name}), project)
    ensures (ParsedServices(project) - todo)[name := Parsed(project.services[name], project)]
              == ParsedServices(project) - (todo - {name})
  {
    VisitKey(ParsedServices(project), todo, name);
  }

  lemma OneDoesNotParse(project: Project, name: string)
    requires name in project.services && !Parses(project.services[name], project)
    ensures !AllParse(project.services.Keys, project)
  {
  }

  lemma NoneLeft(project: Project)
    ensures ParsedServices(project) - {} == ParsedServices(project)
  {
  }

  /** The loop of ParseDesiredState, in any order. */
  method ParseServices(project: Project) returns (r: Result<map<string, DesiredService>, ParseError>)
    ensures r.Ok? <==> AllParse(project.services.Keys, project)
    ensures r.Ok? ==> r.value == ParsedServices(project)
    ensures r.Err? ==> Explains(r.error, project)
  {
    var services: map<string, DesiredService> := map[];
    var todo := project.services.Keys;
    while todo != {}
      invariant todo <= project.services.Keys && AllParse(project.services.Keys - todo, project)
      invariant services == ParsedServices(project) - todo
    {
      var name :| name in todo;
      var service := ParseService(name, project.services[name], project);
      if service.Err? {
        OneDoesNotParse(project, name);
        return Err(service.error);
      }
      OneMoreParsed(project, todo, name);
      services := services[name := service.value];
      todo := todo - {name};
    }
    NoneLeft(project);
    r := Ok(services);
  }

  /**
   ParseDesiredState after the loader: succeeds iff there is a service and every
   service parses, whatever order the services are visited in; each service is then as
   written, and an error says what is wrong.
   */
  method ParseDesiredState(project: Project) returns (r: Result<DesiredState, ParseError>)
    ensures r.Ok? <==> project.services != map[] && AllParse(project.services.Keys, project)
    ensures r.Ok? ==> r.value.services == ParsedServices(project)
    ensures r.Ok? <==>
              project.services != map[] && forall n | n in project.services :: Complete(project.services[n], project)
    ensures r.Ok? ==> r.value.services.Keys == project.services.Keys
    ensures r.Ok? ==> forall n | n in project.services :: AsWritten(project.services[n], project, r.value.services[n])
    ensures r.Err? ==> Explains(r.error, project)
  {
    ServicesAreAsWritten(project);
    if project.services == map[] {
      return Err(NoServices);
    }
    var services := ParseServices(project);
    if services.Err? {
      return Err(services.error);
    }
    r := Ok(DesiredState(services.value));
  }
}
