/** internal/config/mapping.go: the stacks of a coordinator have distinct names. */
module Config {
  import opened Wrappers

  datatype StackMapping = StackMapping(name: string, composeURL: string, timeout: int)

  datatype MappingError =
    | NoStacks
    | NameRequired(index: nat)
    | URLRequired(name: string)
    | BadURL(name: string)
    | DuplicateName(name: string)
    | NegativeTimeout(name: string)

  /** The checks one mapping must pass, given the ones before it. */
  ghost predicate Acceptable(mappings: seq<StackMapping>, i: int, validURL: string -> bool) {
    && 0 <= i < |mappings|
    && mappings[i].name != ""
    && mappings[i].composeURL != ""
    && validURL(mappings[i].composeURL)
    && (forall j | 0 <= j < i :: mappings[j].name != mappings[i].name)
    && mappings[i].timeout >= 0
  }

  /** Mapping i is the first that does not pass, and this is the first check it fails. */
  ghost predicate Fails(mappings: seq<StackMapping>, i: int, validURL: string -> bool, error: MappingError) {
    && 0 <= i < |mappings|
    && (forall j | 0 <= j < i :: Acceptable(mappings, j, validURL))
    && var m := mappings[i];
    if m.name == "" then error == NameRequired(i)
    else if m.composeURL == "" then error == URLRequired(m.name)
    else if !validURL(m.composeURL) then error == BadURL(m.name)
    else if exists j | 0 <= j < i :: mappings[j].name == m.name then error == DuplicateName(m.name)
    else m.timeout < 0 && error == NegativeTimeout(m.name)
  }

  ghost predicate DistinctNames(mappings: seq<StackMapping>) {
    forall i, j | 0 <= i < j < |mappings| :: mappings[i].name != mappings[j].name
  }

  method ValidateMappings(mappings: seq<StackMapping>, validURL: string -> bool) returns (error: Option<MappingError>)
    ensures error.None? <==> mappings != [] && forall i | 0 <= i < |mappings| :: Acceptable(mappings, i, validURL)
    ensures error == Some(NoStacks) <==> mappings == []
    ensures error.Some? && mappings != [] ==>
              exists i :: Fails(mappings, i, validURL, error.value)
    ensures error.None? ==> DistinctNames(mappings) && forall i | 0 <= i < |mappings| :: mappings[i].name != ""
  {
    if |mappings| == 0 {
      return Some(NoStacks);
    }
    var seen: set<string> := {};
    for i := 0 to |mappings|
      invariant forall n :: n in seen <==> exists j :: 0 <= j < i && mappings[j].name == n
      invariant forall j | 0 <= j < i :: Acceptable(mappings, j, validURL)
    {
      var m := mappings[i];
      assert Acceptable(mappings, i, validURL) <==>
               m.name != "" && m.composeURL != "" && validURL(m.composeURL) && m.name !in seen && m.timeout >= 0;
      if m.name == "" {
        assert Fails(mappings, i, validURL, NameRequired(i));
        return Some(NameRequired(i));
      }
      if m.composeURL == "" {
        assert Fails(mappings, i, validURL, URLRequired(m.name));
        return Some(URLRequired(m.name));
      }
      if !validURL(m.composeURL) {
        assert Fails(mappings, i, validURL, BadURL(m.name));
        return Some(BadURL(m.name));
      }
      if m.name in seen {
        assert exists j | 0 <= j < i :: mappings[j].name == m.name;
        assert Fails(mappings, i, validURL, DuplicateName(m.name));
        return Some(DuplicateName(m.name));
      }
      assert forall j | 0 <= j < i :: mappings[j].name != m.name;
      seen := seen + {m.name};
      if m.timeout < 0 {
        assert Fails(mappings, i, validURL, NegativeTimeout(m.name));
        return Some(NegativeTimeout(m.name));
      }
    }
    forall j | 0 <= j < |mappings|
      ensures mappings[j].name != "" && forall k | 0 <= k < j :: mappings[k].name != mappings[j].name
    {
      assert Acceptable(mappings, j, validURL);
    }
    return None;
  }

  /** stackKey: the key a runner stores its snapshot under. */
  function StackKey(stackName: string): string {
    if stackName != "" then stackName else "default"
  }
}
