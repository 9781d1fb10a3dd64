/** The in-memory event store (src/store/memory-store.ts) and the replayer over
    it (src/replay/replayer.ts). */
module EventStore {
  import opened Prelude
  import opened TaskEvents

  /** A JavaScript Map: its keys in insertion order, and their logs. */
  datatype Store = Store(keys: seq<TaskId>, logs: map<TaskId, seq<OutboundEvent>>)

  const EMPTY: Store := Store([], map[])

  ghost predicate WellKeyed(s: Store) {
    Distinct(s.keys) && forall id :: id in s.logs <==> id in s.keys
  }

  function LogOf(logs: map<TaskId, seq<OutboundEvent>>, id: TaskId): seq<OutboundEvent> {
    if id in logs then logs[id] else []
  }

  /** `record`: the oldest task makes room for a new one in a full store,
      unless its id is the empty string, which the source's guard skips. */
  function Recorded(maxTasks: nat, s: Store, id: TaskId, event: OutboundEvent): Store {
    var room := if Evicts(maxTasks, s, id) then Store(s.keys[1..], s.logs - {s.keys[0]}) else s;
    Store(if id in room.logs then room.keys else room.keys + [id],
          room.logs[id := LogOf(room.logs, id) + [event]])
  }

  predicate Evicts(maxTasks: nat, s: Store, id: TaskId) {
    maxTasks > 0 && id !in s.logs && |s.keys| >= maxTasks && s.keys[0] != ""
  }

  lemma RecordKeepsKeys(maxTasks: nat, s: Store, id: TaskId, event: OutboundEvent)
    requires WellKeyed(s)
    ensures WellKeyed(Recorded(maxTasks, s, id, event))
  {
    var room := if Evicts(maxTasks, s, id) then Store(s.keys[1..], s.logs - {s.keys[0]}) else s;
    assert s.keys != [] ==> s.keys == [s.keys[0]] + s.keys[1..];
    assert WellKeyed(room);
  }

  /** One call keeps the bound exactly unless a new task meets a full store
      whose oldest id is empty. */
  lemma RecordKeepsBoundIff(maxTasks: nat, s: Store, id: TaskId, event: OutboundEvent)
    requires WellKeyed(s) && 0 < maxTasks && |s.keys| <= maxTasks
    ensures |Recorded(maxTasks, s, id, event).keys| <= maxTasks
            <==> !(id !in s.logs && |s.keys| == maxTasks && s.keys[0] == "")
  {
  }

  lemma BoundFailsForEmptyId(event: OutboundEvent)
    ensures |Recorded(1, Recorded(1, EMPTY, "", event), "a", event).keys| == 2
  {
  }

  // ---- refinement of a FIFO queue ----

  datatype Call = Call(id: TaskId, event: OutboundEvent)

  datatype Entry = Entry(id: TaskId, log: seq<OutboundEvent>)

  function Play(maxTasks: nat, calls: seq<Call>): Store {
    if calls == [] then EMPTY else Recorded(maxTasks, Play(maxTasks, Front(calls)), Last(calls).id, Last(calls).event)
  }

  /** Where the first entry with an empty id stands, or the end. */
  function FirstEmpty(journal: seq<Entry>): (z: nat)
    ensures z <= |journal|
    ensures z < |journal| ==> journal[z].id == ""
    ensures forall i :: 0 <= i < z ==> journal[i].id != ""
  {
    if journal == [] || journal[0].id == "" then 0 else 1 + FirstEmpty(journal[1..])
  }

  /** Where the retained part of a journal begins: k entries from its end, but
      never past an entry with an empty id; k = 0 retains everything. */
  function Start(journal: seq<Entry>, k: nat): (p: nat)
    ensures p <= |journal|
  {
    if k == 0 || |journal| <= k then 0 else Min(|journal| - k, FirstEmpty(journal))
  }

  function Window(journal: seq<Entry>, k: nat): seq<Entry> {
    journal[Start(journal, k)..]
  }

  function PositionIn(window: seq<Entry>, id: TaskId): (i: nat)
    ensures i <= |window|
    ensures i < |window| ==> window[i].id == id
    ensures forall k :: 0 <= k < i ==> window[k].id != id
  {
    if window == [] || window[0].id == id then 0 else 1 + PositionIn(window[1..], id)
  }

  /** The reference: a journal of every insertion ever made, in order, each
      with the records it has received since. A record goes to the task's entry
      in the retained part, or opens a new entry. Nothing is ever removed. */
  function Journal(k: nat, calls: seq<Call>): seq<Entry> {
    if calls == [] then [] else JournalNext(k, Journal(k, Front(calls)), Last(calls))
  }

  function JournalNext(k: nat, journal: seq<Entry>, call: Call): seq<Entry> {
    var window := Window(journal, k);
    var i := PositionIn(window, call.id);
    if i < |window| then journal[|journal| - |window| + i := Entry(call.id, window[i].log + [call.event])]
    else journal + [Entry(call.id, [call.event])]
  }

  ghost predicate Shows(s: Store, window: seq<Entry>) {
    && |s.keys| == |window|
    && (forall i :: 0 <= i < |window| ==> s.keys[i] == window[i].id)
    && (forall i :: 0 <= i < |window| ==> window[i].id in s.logs && s.logs[window[i].id] == window[i].log)
  }

  /** For every bound and every sequence of calls, the store is the retained
      part of that journal, ids in insertion order. It is within its bound k
      exactly as long as no entry with an empty id has come k entries or more
      before the end; otherwise it is the last k insertions only. */
  lemma {:induction false} StoreIsWindowOfJournal(k: nat, calls: seq<Call>)
    ensures WellKeyed(Play(k, calls)) && Shows(Play(k, calls), Window(Journal(k, calls), k))
    ensures k > 0 ==> (|Play(k, calls).keys| <= k
                       <==> |Journal(k, calls)| <= FirstEmpty(Journal(k, calls)) + k)
    ensures k > 0 && |Journal(k, calls)| <= FirstEmpty(Journal(k, calls)) + k ==>
              |Play(k, calls).keys| == Min(k, |Journal(k, calls)|)
    decreases |calls|
  {
    if calls != [] {
      var s, journal, call := Play(k, Front(calls)), Journal(k, Front(calls)), Last(calls);
      StoreIsWindowOfJournal(k, Front(calls));
      RecordKeepsKeys(k, s, call.id, call.event);
      WindowMoves(k, journal, call);
      RecordMovesWindow(k, s, Window(journal, k), call);
    }
  }

  /** What one more call does to the window. */
  function WindowNext(k: nat, window: seq<Entry>, call: Call): seq<Entry> {
    var i := PositionIn(window, call.id);
    if i < |window| then window[i := Entry(call.id, window[i].log + [call.event])]
    else (if k > 0 && |window| >= k && window[0].id != "" then window[1..] else window)
         + [Entry(call.id, [call.event])]
  }

  lemma WindowMoves(k: nat, journal: seq<Entry>, call: Call)
    ensures Window(JournalNext(k, journal, call), k) == WindowNext(k, Window(journal, k), call)
  {
    var window := Window(journal, k);
    var i := PositionIn(window, call.id);
    if i < |window| {
      WindowExtends(k, journal, i, Entry(call.id, window[i].log + [call.event]));
    } else {
      WindowOpens(k, journal, Entry(call.id, [call.event]));
    }
  }

  lemma WindowExtends(k: nat, journal: seq<Entry>, i: nat, e: Entry)
    requires i < |Window(journal, k)| && Window(journal, k)[i].id == e.id
    ensures Window(journal[Start(journal, k) + i := e], k) == Window(journal, k)[i := e]
  {
    SameIdsSameStart(journal, journal[Start(journal, k) + i := e], k);
  }

  lemma WindowOpens(k: nat, journal: seq<Entry>, e: Entry)
    ensures var window := Window(journal, k);
            Window(journal + [e], k)
            == (if k > 0 && |window| >= k && window[0].id != "" then window[1..] else window) + [e]
  {
    var p, window := Start(journal, k), Window(journal, k);
    FirstEmptySnoc(journal, e);
    if k > 0 && |window| >= k && window[0].id != "" {
      assert Start(journal + [e], k) == p + 1;
      assert journal[p..][1..] == journal[p + 1..];
      assert (journal + [e])[p + 1..] == journal[p + 1..] + [e];
    } else {
      assert Start(journal + [e], k) == p;
      assert (journal + [e])[p..] == journal[p..] + [e];
    }
  }

  lemma SameIdsSameStart(a: seq<Entry>, b: seq<Entry>, k: nat)
    requires |a| == |b| && forall i :: 0 <= i < |a| ==> a[i].id == b[i].id
    ensures Start(a, k) == Start(b, k)
  {
    var x, y := FirstEmpty(a), FirstEmpty(b);
    assert x < |a| ==> b[x].id == "";
    assert y < |b| ==> a[y].id == "";
  }

  lemma FirstEmptySnoc(journal: seq<Entry>, e: Entry)
    ensures FirstEmpty(journal + [e]) ==
            if FirstEmpty(journal) < |journal| || e.id == "" then FirstEmpty(journal) else |journal| + 1
  {
    var z, next := FirstEmpty(journal), journal + [e];
    assert next[|journal|] == e;
    assert z < |journal| ==> next[z] == journal[z];
    assert FirstEmpty(next) < |journal| ==> next[FirstEmpty(next)] == journal[FirstEmpty(next)];
  }

  lemma RecordMovesWindow(k: nat, s: Store, window: seq<Entry>, call: Call)
    requires WellKeyed(s) && Shows(s, window)
    ensures Shows(Recorded(k, s, call.id, call.event), WindowNext(k, window, call))
  {
    var i := PositionIn(window, call.id);
    if i < |window| {
      RecordExtends(k, s, window, call, i);
    } else {
      assert call.id !in s.keys;
      RecordOpens(k, s, window, call);
    }
  }

  lemma RecordExtends(k: nat, s: Store, window: seq<Entry>, call: Call, i: nat)
    requires WellKeyed(s) && Shows(s, window) && i < |window| && window[i].id == call.id
    ensures Shows(Recorded(k, s, call.id, call.event), window[i := Entry(call.id, window[i].log + [call.event])])
  {
    forall j | 0 <= j < |window| && j != i ensures window[j].id != call.id {
      assert s.keys[j] != s.keys[i];
    }
  }

  lemma RecordOpens(k: nat, s: Store, window: seq<Entry>, call: Call)
    requires WellKeyed(s) && Shows(s, window) && call.id !in s.keys
    ensures Shows(Recorded(k, s, call.id, call.event),
                  (if k > 0 && |window| >= k && window[0].id != "" then window[1..] else window)
                  + [Entry(call.id, [call.event])])
  {
    assert call.id !in s.logs;
    forall j | 0 <= j < |window| ensures window[j].id != call.id {
      assert s.keys[j] in s.keys;
    }
    if Evicts(k, s, call.id) {
      forall j | 1 <= j < |window| ensures window[j].id != s.keys[0] {
        assert s.keys[j] != s.keys[0];
      }
    }
  }

  // ---- what a kept log holds, in terms of the calls ----

  /** The call at `p` inserts its task: the store did not hold it. */
  ghost predicate InsertsAt(k: nat, calls: seq<Call>, p: int) {
    0 <= p < |calls| && calls[p].id !in Play(k, calls[..p]).logs
  }

  /** The events of the calls for one task from position `p` on. */
  function EventsSince(calls: seq<Call>, p: nat, id: TaskId): seq<OutboundEvent> {
    if |calls| <= p then []
    else
      var before := EventsSince(Front(calls), p, id);
      if Last(calls).id == id then before + [Last(calls).event] else before
  }

  /** The position is that of the latest insertion of the task. */
  ghost predicate LatestInsertion(k: nat, calls: seq<Call>, id: TaskId, p: int) {
    && InsertsAt(k, calls, p) && calls[p].id == id
    && forall q :: p < q < |calls| && calls[q].id == id ==> !InsertsAt(k, calls, q)
  }

  /** A record of a task the store holds is no insertion. */
  lemma LatestInsertionStays(k: nat, calls: seq<Call>, id: TaskId, p: int)
    requires calls != [] && LatestInsertion(k, Front(calls), id, p)
    requires id in Play(k, Front(calls)).logs
    ensures LatestInsertion(k, calls, id, p)
  {
    var before := Front(calls);
    assert calls[..|before|] == before;
    assert before[..p] == calls[..p];
    forall q | p < q < |calls| && calls[q].id == id ensures !InsertsAt(k, calls, q) {
      if q < |before| {
        assert before[..q] == calls[..q];
        assert !InsertsAt(k, before, q);
      }
    }
  }

  lemma EvictedOrKept(k: nat, calls: seq<Call>, id: TaskId)
    requires calls != [] && id in Play(k, calls).logs
    ensures var before, call := Play(k, Front(calls)), Last(calls);
            && (id !in before.logs ==> call.id == id)
            && Play(k, calls).logs[id] ==
                 LogOf(before.logs, id) + if call.id == id then [call.event] else []
  {
    StoreIsWindowOfJournal(k, Front(calls));
  }

  /** For every bound and every sequence of calls, the log of a kept task is
      exactly its events from its latest insertion on, in order. */
  lemma {:induction false} KeptLogIsSinceInsertion(k: nat, calls: seq<Call>, id: TaskId) returns (p: nat)
    requires id in Play(k, calls).logs
    ensures LatestInsertion(k, calls, id, p)
    ensures Play(k, calls).logs[id] == EventsSince(calls, p, id)
    decreases |calls|
  {
    var before := Front(calls);
    EvictedOrKept(k, calls, id);
    if id in Play(k, before).logs {
      p := KeptLogIsSinceInsertion(k, before, id);
      LatestInsertionStays(k, calls, id, p);
    } else {
      p := |before|;
      assert calls[..|before|] == before;
      assert EventsSince(before, p, id) == [];
    }
  }

  // ---- output hashes ----

  /** The hash of the first completion in a log. */
  function FirstHash(log: seq<OutboundEvent>): Option<string> {
    if log == [] then None
    else if IsCompletion(log[0]) then Some(log[0].fact.outputHash)
    else FirstHash(log[1..])
  }

  /** The hash of the last completion in a log. */
  function LastHash(log: seq<OutboundEvent>): Option<string> {
    if log == [] then None
    else if IsCompletion(Last(log)) then Some(Last(log).fact.outputHash)
    else LastHash(Front(log))
  }

  /** The hashes of all completions in a log, in order. */
  function HashesIn(log: seq<OutboundEvent>): seq<string> {
    if log == [] then []
    else HashesIn(Front(log)) + if IsCompletion(Last(log)) then [Last(log).fact.outputHash] else []
  }

  lemma {:induction false} FirstHashSnoc(log: seq<OutboundEvent>, e: OutboundEvent)
    ensures FirstHash(log + [e]) ==
            if FirstHash(log).Some? then FirstHash(log) else if IsCompletion(e) then Some(e.fact.outputHash) else None
  {
    if log == [] {
      assert [e][1..] == [];
    } else {
      assert (log + [e])[1..] == log[1..] + [e];
      FirstHashSnoc(log[1..], e);
    }
  }

  /** One function reads the first of them, the other the last. */
  lemma {:induction false} HashEnds(log: seq<OutboundEvent>)
    ensures FirstHash(log) == if HashesIn(log) == [] then None else Some(HashesIn(log)[0])
    ensures LastHash(log) == if HashesIn(log) == [] then None else Some(Last(HashesIn(log)))
    decreases |log|
  {
    if log != [] {
      HashEnds(Front(log));
      FirstHashSnoc(Front(log), Last(log));
      assert log == Front(log) + [Last(log)];
    }
  }

  class MemoryEventStore {
    const maxTasks: nat
    var order: seq<TaskId>
    var events: map<TaskId, seq<OutboundEvent>>

    ghost function Contents(): Store
      reads this
    {
      Store(order, events)
    }

    ghost predicate Valid()
      reads this
    {
      WellKeyed(Contents())
    }

    constructor (maxTasks: nat)
      ensures Valid() && Contents() == EMPTY && this.maxTasks == maxTasks
    {
      this.maxTasks := maxTasks;
      order, events := [], map[];
    }

    method Record(id: TaskId, event: OutboundEvent)
      requires Valid()
      modifies this
      ensures Valid() && Contents() == Recorded(maxTasks, old(Contents()), id, event)
    {
      RecordKeepsKeys(maxTasks, Contents(), id, event);
      if maxTasks > 0 && id !in events && |order| >= maxTasks {
        var oldestKey := order[0];
        if oldestKey != "" {
          events := events - {oldestKey};
          order := order[1..];
        }
      }
      var existing := if id in events then events[id] else [];
      existing := existing + [event];
      if id !in events {
        order := order + [id];
      }
      events := events[id := existing];
    }

    method GetOutputHash(id: TaskId) returns (hash: Option<string>)
      ensures hash == FirstHash(LogOf(events, id))
    {
      var log := LogOf(events, id);
      for i := 0 to |log|
        invariant FirstHash(log) == FirstHash(log[i..])
      {
        if IsCompletion(log[i]) {
          return Some(log[i].fact.outputHash);
        }
        assert log[i..][1..] == log[i + 1..];
      }
      return None;
    }
  }

  datatype ReplayResult =
    | NoRecord
    | Replayed(eventsReplayed: nat, outputHashMatch: Option<bool>)
    | EmitThrew

  class Replayer {
    const eventStore: MemoryEventStore

    constructor (eventStore: MemoryEventStore)
      ensures this.eventStore == eventStore
    {
      this.eventStore := eventStore;
    }

    /** Re-emits a task's log. `emitThrowsAt` is the emission that throws, if
        any does; `emitted` is what reached the requester. */
    method ReplayWithValidation(id: TaskId, expectedOutputHash: Option<string>, emitThrowsAt: Option<nat>)
      returns (result: ReplayResult, emitted: seq<OutboundEvent>)
      ensures result == NoRecord <==> id !in eventStore.events
      ensures result == NoRecord ==> emitted == []
      ensures result == EmitThrew ==> emitThrowsAt.Some? && emitThrowsAt.value < |LogOf(eventStore.events, id)|
                                      && emitted == LogOf(eventStore.events, id)[..emitThrowsAt.value]
      ensures result.Replayed? ==>
                var log := LogOf(eventStore.events, id);
                && emitted == log && result.eventsReplayed == |log|
                && result.outputHashMatch ==
                     (if expectedOutputHash.None? || LastHash(log).None? then None
                      else Some(LastHash(log) == expectedOutputHash))
      ensures emitThrowsAt.None? ==> result != EmitThrew
    {
      emitted := [];
      if id !in eventStore.events {
        return NoRecord, [];
      }
      var events := eventStore.events[id];
      var outputHash: Option<string> := None;
      for i := 0 to |events|
        invariant emitted == events[..i] && outputHash == LastHash(events[..i])
      {
        assert Front(events[..i + 1]) == events[..i];
        if emitThrowsAt == Some(i) {
          return EmitThrew, emitted;
        }
        emitted := emitted + [events[i]];
        if IsCompletion(events[i]) {
          outputHash := Some(events[i].fact.outputHash);
        }
      }
      assert events[..|events|] == events;
      var outputHashMatch: Option<bool> := None;
      if expectedOutputHash.Some? && outputHash.Some? {
        outputHashMatch := Some(outputHash == expectedOutputHash);
      }
      return Replayed(|events|, outputHashMatch), emitted;
    }
  }
}
