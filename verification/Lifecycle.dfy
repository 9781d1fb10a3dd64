/** The worker's lifecycle machine, slots and configuration
    (src/state/machine.ts, src/executor/slots.ts, src/state/config.ts). */
module Lifecycle {
  import opened Prelude
  import opened TaskEvents

  datatype WorkerState = BOOT | READY | ACCEPTING | DRAINING | OFFLINE

  /** The table of valid transitions. */
  function Transitions(from: WorkerState): set<WorkerState> {
    match from
    case BOOT => {READY}
    case READY => {ACCEPTING, DRAINING, OFFLINE}
    case ACCEPTING => {DRAINING, OFFLINE}
    case DRAINING => {OFFLINE}
    case OFFLINE => {}
  }

  /** How far a state is along the lifecycle. */
  function Rank(state: WorkerState): nat {
    match state
    case BOOT => 0
    case READY => 1
    case ACCEPTING => 2
    case DRAINING => 3
    case OFFLINE => 4
  }

  /** The table is exactly: never back, and from BOOT only to READY. */
  lemma TransitionsOnlyAdvance(from: WorkerState, to: WorkerState)
    ensures to in Transitions(from) <==> Rank(from) < Rank(to) && (from == BOOT ==> to == READY)
  {
  }

  /** A worker accepts exactly while it can still be drained. */
  lemma AcceptsIff(state: WorkerState)
    ensures Accepts(state) <==> DRAINING in Transitions(state)
  {
  }

  predicate Accepts(state: WorkerState) {
    state == READY || state == ACCEPTING
  }

  class WorkerStateMachine {
    var state: WorkerState

    constructor ()
      ensures state == BOOT
    {
      state := BOOT;
    }

    /** False where the source throws; the state then stays. */
    method Transition(to: WorkerState) returns (ok: bool)
      modifies this
      ensures ok <==> to in Transitions(old(state))
      ensures state == if ok then to else old(state)
    {
      if to !in Transitions(state) {
        return false;
      }
      state := to;
      return true;
    }
  }

  datatype Acquisition = Acquired | NoSlots | Duplicate

  class SlotManager {
    var slots: map<TaskId, int>
    var maxConcurrency: int

    constructor (maxConcurrency: int)
      requires maxConcurrency >= 1
      ensures slots == map[] && this.maxConcurrency == maxConcurrency
    {
      slots := map[];
      this.maxConcurrency := maxConcurrency;
    }

    /** False where the source throws; the limit then stays. */
    method SetMaxConcurrency(value: int) returns (ok: bool)
      modifies this`maxConcurrency
      ensures ok <==> value >= 1
      ensures maxConcurrency == if ok then value else old(maxConcurrency)
    {
      if value < 1 {
        return false;
      }
      maxConcurrency := value;
      return true;
    }

    predicate HasAvailableSlot()
      reads this
    {
      |slots| < maxConcurrency
    }

    method Acquire(id: TaskId, startedAt: int) returns (r: Acquisition)
      modifies this`slots
      ensures r == if id in old(slots) then Duplicate
                   else if |old(slots)| < maxConcurrency then Acquired else NoSlots
      ensures slots == if r == Acquired then old(slots)[id := startedAt] else old(slots)
    {
      if id in slots {
        return Duplicate;
      }
      if !HasAvailableSlot() {
        return NoSlots;
      }
      slots := slots[id := startedAt];
      return Acquired;
    }

    method Release(id: TaskId) returns (held: bool)
      modifies this`slots
      ensures held <==> id in old(slots)
      ensures slots == old(slots) - {id}
    {
      held := id in slots;
      slots := slots - {id};
    }
  }

  datatype RuntimeConfig = RuntimeConfig(
    maxConcurrency: int,
    resourceCaps: map<string, real>,
    featureFlags: map<string, bool>)

  datatype ConfigUpdate = ConfigUpdate(
    maxConcurrency: Option<int>,
    resourceCaps: Option<map<string, real>>,
    featureFlags: Option<map<string, bool>>)

  predicate Rejected(update: ConfigUpdate) {
    update.maxConcurrency.Some? && update.maxConcurrency.value < 1
  }

  function Updated(runtime: RuntimeConfig, update: ConfigUpdate): RuntimeConfig {
    RuntimeConfig(
      if update.maxConcurrency.Some? then update.maxConcurrency.value else runtime.maxConcurrency,
      if update.resourceCaps.Some? then runtime.resourceCaps + update.resourceCaps.value else runtime.resourceCaps,
      if update.featureFlags.Some? then runtime.featureFlags + update.featureFlags.value else runtime.featureFlags)
  }

  /** A merge keeps every entry the update does not name and takes the update's
      value for every one it does. */
  lemma MergeTakesUpdate(runtime: RuntimeConfig, update: ConfigUpdate, key: string)
    ensures var caps := Updated(runtime, update).resourceCaps;
            if update.resourceCaps.Some? && key in update.resourceCaps.value
            then key in caps && caps[key] == update.resourceCaps.value[key]
            else (key in caps <==> key in runtime.resourceCaps)
                 && (key in caps ==> caps[key] == runtime.resourceCaps[key])
    ensures var flags := Updated(runtime, update).featureFlags;
            if update.featureFlags.Some? && key in update.featureFlags.value
            then key in flags && flags[key] == update.featureFlags.value[key]
            else (key in flags <==> key in runtime.featureFlags)
                 && (key in flags ==> flags[key] == runtime.featureFlags[key])
    ensures Updated(runtime, update).maxConcurrency ==
            match update.maxConcurrency
            case None => runtime.maxConcurrency
            case Some(limit) => limit
  {
  }

  /** The configuration with its subscribers: each one is a slot table whose
      limit follows `maxConcurrency`. */
  class ConfigManager {
    var runtime: RuntimeConfig
    var listeners: seq<SlotManager>

    constructor (maxConcurrency: int)
      requires maxConcurrency >= 1
      ensures runtime == RuntimeConfig(maxConcurrency, map[], map[]) && listeners == []
    {
      runtime := RuntimeConfig(maxConcurrency, map[], map[]);
      listeners := [];
    }

    method OnUpdate(listener: SlotManager)
      modifies this`listeners
      ensures listeners == old(listeners) + [listener]
    {
      listeners := listeners + [listener];
    }

    /** All or nothing: a rejected update changes neither the configuration nor
        any subscriber; an accepted one reaches every subscriber. */
    method Update(update: ConfigUpdate) returns (ok: bool)
      requires runtime.maxConcurrency >= 1
      modifies this`runtime, (set s | s in listeners)`maxConcurrency
      ensures ok <==> update.maxConcurrency == None || update.maxConcurrency.value >= 1
      ensures runtime == if ok then Updated(old(runtime), update) else old(runtime)
      ensures runtime.maxConcurrency >= 1
      ensures forall s :: s in listeners ==>
                s.maxConcurrency == if ok then runtime.maxConcurrency else old(s.maxConcurrency)
    {
      if update.maxConcurrency.Some? {
        if update.maxConcurrency.value < 1 {
          return false;
        }
        runtime := runtime.(maxConcurrency := update.maxConcurrency.value);
      }
      if update.resourceCaps.Some? {
        runtime := runtime.(resourceCaps := runtime.resourceCaps + update.resourceCaps.value);
      }
      if update.featureFlags.Some? {
        runtime := runtime.(featureFlags := runtime.featureFlags + update.featureFlags.value);
      }
      for i := 0 to |listeners|
        invariant runtime == Updated(old(runtime), update)
        invariant forall k :: 0 <= k < i ==> listeners[k].maxConcurrency == runtime.maxConcurrency
      {
        var taken := listeners[i].SetMaxConcurrency(runtime.maxConcurrency);
      }
      return true;
    }
  }
}
