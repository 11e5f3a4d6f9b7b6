/** internal/state/state.go: what is persisted. */
module State {
  import opened Wrappers
  import opened Health

  /** One stack's persisted grades. A nil service map is the empty map. */
  datatype StackSnapshot = StackSnapshot(
    desiredFingerprint: string,
    services: map<string, ServiceHealth>,
    evaluatedAt: int)

  const CURRENT_STATE_VERSION := 1

  /** The whole file. A nil stack map is `None`. */
  datatype State = State(version: int, stacks: Option<map<string, StackSnapshot>>)

  /** Reading a key of a map that may be nil. */
  function Stack(state: State, key: string): Option<StackSnapshot> {
    if state.stacks.Some? && key in state.stacks.value then Some(state.stacks.value[key]) else None
  }

  function PrevServices(prev: Option<StackSnapshot>): map<string, ServiceHealth> {
    if prev.Some? then prev.value.services else map[]
  }

  /** Both detectors call it a first run when no service was stored. */
  predicate FirstRun(prev: Option<StackSnapshot>) {
    PrevServices(prev) == map[]
  }
}
