/** internal/state/file_store.go: the state file as steps on a disk that can crash. */
module FileStore {
  import opened Wrappers
  import opened State

  type Bytes = string

  /** The JSON encoder and decoder; `decode` is `None` on a corrupt file. */
  datatype Codec = Codec(encode: State -> Bytes, decode: Bytes -> Option<State>)

  ghost predicate RoundTrips(codec: Codec) {
    forall s :: codec.decode(codec.encode(s)) == Some(s)
  }

  datatype File = File(content: Bytes, synced: bool)

  /**
   The state path, the temporary file of a save in progress, and what the directory
   may show at the state path after a crash: every entry since its last sync.
   */
  datatype Disk = Disk(current: Option<File>, temp: Option<File>, revertible: set<Option<File>>)

  /** A crash keeps a directory entry; only a synced file keeps its content. */
  ghost predicate CrashLeaves(disk: Disk, found: Option<File>) {
    exists e | e in disk.revertible :: e == found || (e.Some? && !e.value.synced && found.Some?)
  }

  ghost predicate Clean(disk: Disk) {
    && disk.current in disk.revertible
    && disk.temp == None
    && forall e | e in disk.revertible :: e.Some? ==> e.value.synced
  }

  const FRESH := State(CURRENT_STATE_VERSION, Some(map[]))

  /** Fills in the version and the stack map. */
  function Normalized(state: State): State {
    State(if state.version == 0 then CURRENT_STATE_VERSION else state.version,
          if state.stacks.None? then Some(map[]) else state.stacks)
  }

  /** What Load makes of the file it reads. */
  function LoadOf(codec: Codec, file: Option<File>): State {
    if file.None? || codec.decode(file.value.content).None? then FRESH
    else
      var state := Normalized(codec.decode(file.value.content).value);
      if state.version > CURRENT_STATE_VERSION then FRESH else state
  }

  function Saved(codec: Codec, state: State): File {
    File(codec.encode(Normalized(state)), true)
  }

  /** A loaded state has a supported version other than 0, and a map. */
  lemma LoadedIsNormal(codec: Codec, file: Option<File>)
    ensures var s := LoadOf(codec, file); s.version <= CURRENT_STATE_VERSION && s.stacks.Some? && Normalized(s) == s
  {
  }

  /** Load after Save: the saved state, unless its version is newer than supported. */
  lemma LoadAfterSave(codec: Codec, state: State)
    requires RoundTrips(codec)
    ensures LoadOf(codec, Some(Saved(codec, state)))
         == if state.version > CURRENT_STATE_VERSION then FRESH else Normalized(state)
  {
    assert codec.decode(codec.encode(Normalized(state))) == Some(Normalized(state));
  }

  /** A state of version 0 or 1 comes back as version 1, with the stacks it had. */
  lemma LoadAfterSaveWritten(codec: Codec, version: int, stacks: Option<map<string, StackSnapshot>>)
    requires RoundTrips(codec) && 0 <= version <= 1
    ensures LoadOf(codec, Some(Saved(codec, State(version, stacks))))
         == State(1, Some(if stacks.Some? then stacks.value else map[]))
  {
    LoadAfterSave(codec, State(version, stacks));
  }

  datatype LoadFault = NoLoadFault | LoadCancelled | ReadFails

  /** A missing file is not a failed read. */
  predicate Loads(fault: LoadFault, disk: Disk) {
    fault == NoLoadFault || (fault == ReadFails && disk.current.None?)
  }

  /** The first step of a save that fails. A failing encoder may have written part of its output. */
  datatype SaveFault =
    | NoSaveFault
    | SaveCancelled
    | MkdirFails
    | CreateFails
    | ChmodFails
    | EncodeFails(written: Bytes)
    | SyncFails
    | CloseFails
    | RenameFails

  /** The disk once `file` is renamed over the state path; a directory sync forgets the earlier entries. */
  function Installed(disk: Disk, file: File, dirSynced: bool): Disk {
    Disk(Some(file), None, if dirSynced then {Some(file)} else disk.revertible + {Some(file)})
  }

  datatype StoreError = Cancelled | ReadFailed | WriteFailed

  /** A disk state reachable inside a save that started from `before`. */
  ghost predicate DuringSave(before: Disk, file: File, disk: Disk) {
    && disk.current in {before.current, Some(file)}
    && disk.revertible <= before.revertible + {Some(file)}
  }

  ghost predicate TraceDuringSave(before: Disk, file: File, trace: seq<Disk>, from: nat) {
    from <= |trace| && forall i | from <= i < |trace| :: DuringSave(before, file, trace[i])
  }

  class Store {
    const codec: Codec
    var disk: Disk
    /** Every disk state since the store was opened: the points a crash can hit. */
    ghost var trace: seq<Disk>

    constructor (codec: Codec, disk: Disk)
      ensures this.codec == codec && this.disk == disk && trace == [disk]
    {
      this.codec := codec;
      this.disk := disk;
      this.trace := [disk];
    }

    method Load(fault: LoadFault) returns (r: Result<State, StoreError>)
      ensures r == match fault
                   case NoLoadFault => Ok(LoadOf(codec, disk.current))
                   case LoadCancelled => Err(Cancelled)
                   case ReadFails => if disk.current.None? then Ok(FRESH) else Err(ReadFailed)
      ensures r.Ok? && disk.current.None? ==> r.value == State(1, Some(map[]))
      ensures r.Ok? && disk.current.Some? ==>
                match codec.decode(disk.current.value.content)
                case None => r.value == State(1, Some(map[]))
                case Some(s) =>
                  var stacks := if s.stacks.Some? then s.stacks.value else map[];
                  r.value == if s.version > 1 then State(1, Some(map[]))
                             else State(if s.version == 0 then 1 else s.version, Some(stacks))
    {
      if fault == LoadCancelled {
        return Err(Cancelled);
      }
      if disk.current.None? {
        return Ok(State(CURRENT_STATE_VERSION, Some(map[])));
      }
      if fault == ReadFails {
        return Err(ReadFailed);
      }
      var decoded := codec.decode(disk.current.value.content);
      if decoded.None? {
        return Ok(State(CURRENT_STATE_VERSION, Some(map[])));
      }
      var state := decoded.value;
      if state.version == 0 {
        state := state.(version := CURRENT_STATE_VERSION);
      }
      if state.version > CURRENT_STATE_VERSION {
        return Ok(State(CURRENT_STATE_VERSION, Some(map[])));
      }
      if state.stacks.None? {
        state := state.(stacks := Some(map[]));
      }
      return Ok(state);
    }

    /** One operation on the disk, as part of the save that `before`, `file` and `from` describe. */
    method Operate(next: Disk, ghost before: Disk, ghost file: File, ghost from: nat)
      requires DuringSave(before, file, next) && TraceDuringSave(before, file, trace, from)
      modifies this`disk, this`trace
      ensures disk == next && trace == old(trace) + [next]
      ensures TraceDuringSave(before, file, trace, from)
    {
      disk := next;
      trace := trace + [next];
    }

    /** Write the temporary file and sync it; remove it again when a step fails. */
    method WriteTemp(state: State, fault: SaveFault, ghost before: Disk, ghost file: File, ghost from: nat)
      returns (error: Option<StoreError>)
      requires disk == before && before.temp == None && file == File(codec.encode(state), true)
      requires DuringSave(before, file, before) && TraceDuringSave(before, file, trace, from)
      modifies this`disk, this`trace
      ensures error.Some? <==> fault in {CreateFails, ChmodFails, SyncFails, CloseFails} || fault.EncodeFails?
      ensures disk == if error.Some? then before else before.(temp := Some(file))
      ensures old(trace) <= trace && TraceDuringSave(before, file, trace, from)
    {
      if fault == CreateFails {
        return Some(WriteFailed);
      }
      Operate(disk.(temp := Some(File("", false))), before, file, from);
      if fault == ChmodFails {
        Operate(disk.(temp := None), before, file, from);
        return Some(WriteFailed);
      }
      if fault.EncodeFails? {
        Operate(disk.(temp := Some(File(fault.written, false))), before, file, from);
        Operate(disk.(temp := None), before, file, from);
        return Some(WriteFailed);
      }
      var content := codec.encode(state);
      Operate(disk.(temp := Some(File(content, false))), before, file, from);
      if fault == SyncFails {
        Operate(disk.(temp := None), before, file, from);
        return Some(WriteFailed);
      }
      Operate(disk.(temp := Some(File(content, true))), before, file, from);
      if fault == CloseFails {
        Operate(disk.(temp := None), before, file, from);
        return Some(WriteFailed);
      }
      return None;
    }

    /**
     Write a temporary file, sync it, rename it over the state file, sync the
     directory, ignoring an error of that last sync. A failed save leaves the disk as
     it was. At every point in between, the state path shows the old file or the
     complete, synced new one.
     */
    method Save(state: State, fault: SaveFault, dirSyncFails: bool) returns (error: Option<StoreError>)
      requires Clean(disk)
      modifies this`disk, this`trace
      ensures error.None? <==> fault == NoSaveFault
      ensures error.Some? ==> disk == old(disk)
      ensures error.None? ==> disk == Installed(old(disk), Saved(codec, state), !dirSyncFails)
      ensures Clean(disk)
      ensures old(trace) <= trace
      ensures TraceDuringSave(old(disk), Saved(codec, state), trace, |old(trace)|)
    {
      ghost var before, file, from := disk, Saved(codec, state), |trace|;
      if fault == SaveCancelled {
        return Some(Cancelled);
      }
      var state' := state;
      if state'.version == 0 {
        state' := state'.(version := CURRENT_STATE_VERSION);
      }
      if state'.stacks.None? {
        state' := state'.(stacks := Some(map[]));
      }
      if fault == MkdirFails {
        return Some(WriteFailed);
      }
      error := WriteTemp(state', fault, before, file, from);
      if error.Some? {
        return;
      }
      if fault == RenameFails {
        Operate(disk.(temp := None), before, file, from);
        return Some(WriteFailed);
      }
      Operate(Disk(disk.temp, None, disk.revertible + {disk.temp}), before, file, from);
      if !dirSyncFails {
        Operate(disk.(revertible := {disk.current}), before, file, from);
      }
      return None;
    }
  }

  /** What a crash during a save can leave: exactly the entries not yet synced away, and the new file. */
  lemma CrashLeavesAWholeState(before: Disk, file: File, found: Option<File>)
    requires Clean(before) && file.synced
    ensures (exists disk :: DuringSave(before, file, disk) && CrashLeaves(disk, found)) <==>
              found in before.revertible + {Some(file)}
  {
    if found in before.revertible + {Some(file)} {
      var renamed := Installed(before, file, false);
      assert DuringSave(before, file, renamed) && CrashLeaves(renamed, found);
    }
  }

  /**
   Crash atomicity, exactly: a crash at any point of a save leaves a file that loads
   as the whole old or the whole new state iff every entry the directory may still
   show does. After a successful directory sync that is so.
   */
  lemma CrashInSaveIsAtomicIff(codec: Codec, before: Disk, state: State)
    requires Clean(before)
    ensures var file := Saved(codec, state);
      var whole := {LoadOf(codec, before.current), LoadOf(codec, Some(file))};
      && ((forall disk, found | DuringSave(before, file, disk) && CrashLeaves(disk, found) ::
           LoadOf(codec, found) in whole)
          <==> forall e | e in before.revertible :: LoadOf(codec, e) in whole)
      && (before.revertible == {before.current} ==> forall e | e in before.revertible :: LoadOf(codec, e) in whole)
  {
    var file := Saved(codec, state);
    var whole := {LoadOf(codec, before.current), LoadOf(codec, Some(file))};
    if forall disk, found | DuringSave(before, file, disk) && CrashLeaves(disk, found) ::
         LoadOf(codec, found) in whole
    {
      forall e | e in before.revertible ensures LoadOf(codec, e) in whole {
        assert DuringSave(before, file, before) && CrashLeaves(before, e);
      }
    }
    if forall e | e in before.revertible :: LoadOf(codec, e) in whole {
      forall disk, found | DuringSave(before, file, disk) && CrashLeaves(disk, found)
        ensures LoadOf(codec, found) in whole
      {
        CrashLeavesAWholeState(before, file, found);
      }
    }
  }

  /**
   The failure: after a save whose directory sync failed, a crash at any point of the
   next save can bring back the state before both.
   */
  lemma UnsyncedSaveCanBeUndone(codec: Codec, before: Disk, first: State, second: State) returns (disk: Disk)
    requires RoundTrips(codec) && Clean(before)
    requires first.version <= CURRENT_STATE_VERSION && second.version <= CURRENT_STATE_VERSION
    requires LoadOf(codec, before.current) !in {Normalized(first), Normalized(second)}
    ensures var between := Installed(before, Saved(codec, first), false);
      && Clean(between) && DuringSave(between, Saved(codec, second), disk)
      && CrashLeaves(disk, before.current)
      && LoadOf(codec, before.current) !in {LoadOf(codec, between.current), LoadOf(codec, Some(Saved(codec, second)))}
  {
    LoadAfterSave(codec, first);
    LoadAfterSave(codec, second);
    disk := Installed(before, Saved(codec, first), false);
    assert before.current in disk.revertible;
  }

  // ----- One evaluation's change of the file -----

  /** The loaded state with one stack replaced. */
  function WithStack(loaded: State, key: string, snapshot: StackSnapshot): State {
    loaded.(stacks := Some((if loaded.stacks.Some? then loaded.stacks.value else map[])[key := snapshot]))
  }

  /** A save of a loaded state with one stack replaced changes that stack only. */
  lemma SaveChangesOneStack(codec: Codec, file: Option<File>, key: string, snapshot: StackSnapshot, other: string)
    requires RoundTrips(codec)
    ensures var after := LoadOf(codec, Some(Saved(codec, WithStack(LoadOf(codec, file), key, snapshot))));
      Stack(after, other) == if other == key then Some(snapshot) else Stack(LoadOf(codec, file), other)
  {
    LoadedIsNormal(codec, file);
    LoadAfterSave(codec, WithStack(LoadOf(codec, file), key, snapshot));
  }
}

/** What one successful evaluation does to the file, and the alerts it yields. */
module Persistence {
  import opened Wrappers
  import opened State
  import opened Transition
  import opened Debounce
  import opened FileStore

  /** The file with this stack's snapshot brought up to date, every other stack kept. */
  function NextFile(codec: Codec, file: Option<File>, key: string, cycle: Cycle, n: int): File {
    var loaded := LoadOf(codec, file);
    Saved(codec, WithStack(loaded, key, Snapshot(Stack(loaded, key), cycle, n)))
  }

  ghost function NextBatch(codec: Codec, file: Option<File>, key: string, cycle: Cycle,
                           n: int): seq<ServiceTransition> {
    Batch(Stack(LoadOf(codec, file), key), cycle.services, n)
  }

  /** What is stored next carries the cycle's fingerprint, time and services. */
  lemma NextFileIsStamped(codec: Codec, file: Option<File>, key: string, cycle: Cycle, n: int)
    requires RoundTrips(codec)
    ensures var stored := Stack(LoadOf(codec, Some(NextFile(codec, file, key, cycle, n))), key);
      && stored.Some? && stored.value.desiredFingerprint == cycle.fingerprint
          && stored.value.evaluatedAt == cycle.evaluatedAt
      && stored.value.services.Keys == cycle.services.Keys
  {
    SaveChangesOneStack(codec, file, key, Snapshot(Stack(LoadOf(codec, file), key), cycle, n), key);
  }
}
