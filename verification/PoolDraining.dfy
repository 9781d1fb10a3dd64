/** Whether a worker's drain and its failure exclude each other. */
module PoolDraining {
  import opened Prelude
  import opened PoolProtocol
  import opened PoolBudget
  import opened PoolEvents

  /** What reports a failure of `id`: WorkerFailed if only final failures count,
      else WorkerUnhealthy, which opens every report. */
  function Report(id: WorkerId, final: bool): PoolEvent {
    if final then WorkerFailed(id) else WorkerUnhealthy(id)
  }

  /** The event occurred and `id` was not launched since. */
  ghost predicate SinceLaunch(trace: seq<PoolEvent>, id: WorkerId, e: PoolEvent) {
    exists i :: 0 <= i < |trace| && trace[i] == e && forall k :: i < k < |trace| ==> !Launches(trace[k], id)
  }

  /** Positions of a drained and a failure report of one life of `id`. */
  ghost predicate ClashAt(trace: seq<PoolEvent>, id: WorkerId, final: bool, i: int, j: int) {
    && 0 <= i < |trace| && 0 <= j < |trace|
    && trace[i] == WorkerDrained(id) && trace[j] == Report(id, final)
    && forall k :: i < k < j || j < k < i ==> !Launches(trace[k], id)
  }

  /** Some life of `id` holds both a WorkerDrained and a failure report. */
  ghost predicate Clash(trace: seq<PoolEvent>, id: WorkerId, final: bool) {
    exists i, j :: ClashAt(trace, id, final, i, j)
  }

  lemma SinceSnoc(trace: seq<PoolEvent>, x: PoolEvent, id: WorkerId, e: PoolEvent)
    ensures SinceLaunch(trace + [x], id, e) <==> x == e || (SinceLaunch(trace, id, e) && !Launches(x, id))
  {
    var t := trace + [x];
    assert t[|trace|] == x;
    if SinceLaunch(t, id, e) && x != e {
      var i :| 0 <= i < |t| && t[i] == e && forall k :: i < k < |t| ==> !Launches(t[k], id);
      assert trace[i] == e;
      assert forall k :: i < k < |trace| ==> trace[k] == t[k];
    }
    if SinceLaunch(trace, id, e) && !Launches(x, id) {
      var i :| 0 <= i < |trace| && trace[i] == e && forall k :: i < k < |trace| ==> !Launches(trace[k], id);
      assert t[i] == e;
      assert forall k :: i < k < |trace| ==> t[k] == trace[k];
    }
  }

  lemma ClashSnoc(trace: seq<PoolEvent>, x: PoolEvent, id: WorkerId, final: bool)
    ensures Clash(trace + [x], id, final) <==>
            || Clash(trace, id, final)
            || (x == WorkerDrained(id) && SinceLaunch(trace, id, Report(id, final)))
            || (x == Report(id, final) && SinceLaunch(trace, id, WorkerDrained(id)))
  {
    var t := trace + [x];
    assert t[|trace|] == x && forall k :: 0 <= k < |trace| ==> t[k] == trace[k];
    if i, j :| ClashAt(t, id, final, i, j) {
      if i < |trace| && j < |trace| {
        assert ClashAt(trace, id, final, i, j);
      } else if i < |trace| {
        assert trace[i] == WorkerDrained(id);
      } else {
        assert trace[j] == Report(id, final);
      }
    }
    if i, j :| ClashAt(trace, id, final, i, j) {
      assert ClashAt(t, id, final, i, j);
    }
    if x == WorkerDrained(id) && SinceLaunch(trace, id, Report(id, final)) {
      var j :| 0 <= j < |trace| && trace[j] == Report(id, final) && forall k :: j < k < |trace| ==> !Launches(trace[k], id);
      assert ClashAt(t, id, final, |trace|, j);
    }
    if x == Report(id, final) && SinceLaunch(trace, id, WorkerDrained(id)) {
      var i :| 0 <= i < |trace| && trace[i] == WorkerDrained(id) && forall k :: i < k < |trace| ==> !Launches(trace[k], id);
      assert ClashAt(t, id, final, i, |trace|);
    }
  }

  // ---- one step ----

  predicate IsDrained(op: Op, id: WorkerId) {
    op.Child? && op.event == ChildDrained(id)
  }

  /** A failure report of `id` can come before its next launch. */
  predicate CouldFail(cfg: PoolConfig, t: Table, id: WorkerId, final: bool) {
    Active(t, id) && (final ==> t[id].failures >= cfg.maxFailures)
  }

  /** What a step announces of `id`, at most two events; a launch, a failure
      report and a drained one never come in the same step. */
  lemma StepReports(cfg: PoolConfig, used: set<WorkerId>, t: Table, op: Op, id: WorkerId, final: bool)
    requires Allowed(cfg, used, t, op)
    ensures var events := Step(cfg, t, op).events;
            && |events| <= 2
            && (WorkerDrained(id) in events <==> IsDrained(op, id))
            && (IsDrained(op, id) ==> events == [WorkerDrained(id)])
            && (Report(id, final) in events ==> CouldFail(cfg, t, id, final))
            && (Report(id, final) in events ==> forall e :: e in events ==> !Launches(e, id))
  {
  }

  lemma StepCouldFail(cfg: PoolConfig, used: set<WorkerId>, t: Table, op: Op, id: WorkerId, final: bool)
    requires Allowed(cfg, used, t, op) && !CouldFail(cfg, t, id, final)
    requires forall e :: e in Step(cfg, t, op).events ==> !Launches(e, id)
    ensures !CouldFail(cfg, Step(cfg, t, op).table, id, final)
  {
    if !Active(t, id) {
      StepGrounding(cfg, used, t, op, id);
    }
  }

  lemma SinceAppend(trace: seq<PoolEvent>, events: seq<PoolEvent>, id: WorkerId, e: PoolEvent)
    requires |events| <= 2
    ensures SinceLaunch(trace + events, id, e) ==>
              e in events || (SinceLaunch(trace, id, e) && forall x :: x in events ==> !Launches(x, id))
  {
    if |events| == 0 {
      assert trace + events == trace;
    } else if |events| == 1 {
      SinceSnoc(trace, events[0], id, e);
      assert trace + events == trace + [events[0]];
    } else {
      SinceSnoc(trace, events[0], id, e);
      SinceSnoc(trace + [events[0]], events[1], id, e);
      assert trace + events == trace + [events[0]] + [events[1]];
    }
  }

  lemma ClashSnocTwice(trace: seq<PoolEvent>, x: PoolEvent, y: PoolEvent, id: WorkerId, final: bool)
    requires Clash(trace + [x] + [y], id, final) && !Clash(trace, id, final)
    ensures || (x == WorkerDrained(id) && y == Report(id, final))
            || (x == Report(id, final) && y == WorkerDrained(id))
            || ((x == WorkerDrained(id) || y == WorkerDrained(id)) && SinceLaunch(trace, id, Report(id, final)))
            || ((x == Report(id, final) || y == Report(id, final)) && SinceLaunch(trace, id, WorkerDrained(id)))
  {
    ClashSnoc(trace, x, id, final);
    ClashSnoc(trace + [x], y, id, final);
    SinceSnoc(trace, x, id, WorkerDrained(id));
    SinceSnoc(trace, x, id, Report(id, final));
  }

  /** A clash appears in the step that brings the second of the two. */
  lemma ClashAppend(trace: seq<PoolEvent>, events: seq<PoolEvent>, id: WorkerId, final: bool)
    requires |events| <= 2
    requires !(WorkerDrained(id) in events && Report(id, final) in events)
    requires Clash(trace + events, id, final) && !Clash(trace, id, final)
    ensures || (WorkerDrained(id) in events && SinceLaunch(trace, id, Report(id, final)))
            || (Report(id, final) in events && SinceLaunch(trace, id, WorkerDrained(id)))
  {
    assert events == [] ==> trace + events == trace;
    if |events| == 1 {
      ClashSnoc(trace, events[0], id, final);
      assert trace + events == trace + [events[0]];
    } else if |events| == 2 {
      assert trace + events == trace + [events[0]] + [events[1]];
      ClashSnocTwice(trace, events[0], events[1], id, final);
    }
  }

  // ---- histories ----

  /** No failure can follow a drain of the same life any more. */
  ghost predicate Settled(cfg: PoolConfig, ops: seq<Op>, id: WorkerId, final: bool) {
    && !Clash(TraceOf(cfg, ops), id, final)
    && (SinceLaunch(TraceOf(cfg, ops), id, WorkerDrained(id)) ==> !CouldFail(cfg, After(cfg, ops), id, final))
  }

  /** A drained announcement arriving now does no harm: its worker is out of
      reach of a failure report, and has none in its present life. */
  ghost predicate DrainIsSafe(cfg: PoolConfig, ops: seq<Op>, id: WorkerId, final: bool) {
    && !CouldFail(cfg, After(cfg, ops), id, final)
    && !SinceLaunch(TraceOf(cfg, ops), id, Report(id, final))
  }

  lemma StaysSettled(cfg: PoolConfig, ops: seq<Op>, op: Op, id: WorkerId, final: bool)
    requires Legal(cfg, ops + [op]) && Settled(cfg, ops, id, final)
    requires IsDrained(op, id) ==> DrainIsSafe(cfg, ops, id, final)
    ensures Settled(cfg, ops + [op], id, final)
  {
    HistorySnoc(cfg, ops, op);
    var t, trace := After(cfg, ops), TraceOf(cfg, ops);
    var events := Step(cfg, t, op).events;
    StepReports(cfg, GeneratedIds(ops), t, op, id, final);
    if Clash(trace + events, id, final) {
      ClashAppend(trace, events, id, final);
    }
    SinceAppend(trace, events, id, WorkerDrained(id));
    if SinceLaunch(trace + events, id, WorkerDrained(id)) && !CouldFail(cfg, t, id, final) {
      StepCouldFail(cfg, GeneratedIds(ops), t, op, id, final);
    }
  }

  /** In a legal history whose drained announcements are all safe when they
      arrive, no life of a worker is both drained and failed. */
  lemma {:induction false} SafeDrainsNeverFail(cfg: PoolConfig, ops: seq<Op>, id: WorkerId, final: bool)
    requires Legal(cfg, ops)
    requires forall k :: 0 <= k < |ops| && IsDrained(ops[k], id) ==> DrainIsSafe(cfg, ops[..k], id, final)
    ensures Settled(cfg, ops, id, final)
    decreases |ops|
  {
    if ops != [] {
      var before := Front(ops);
      assert ops == before + [Last(ops)] && ops[..|before|] == before;
      forall k | 0 <= k < |before| && IsDrained(before[k], id) ensures DrainIsSafe(cfg, before[..k], id, final) {
        assert before[..k] == ops[..k];
      }
      SafeDrainsNeverFail(cfg, before, id, final);
      StaysSettled(cfg, before, Last(ops), id, final);
    }
  }

  lemma {:induction false} ContinuesSettled(cfg: PoolConfig, ops: seq<Op>, more: seq<Op>, id: WorkerId, final: bool)
    requires Legal(cfg, ops + more) && Settled(cfg, ops, id, final)
    requires forall op :: op in more ==> !IsDrained(op, id)
    ensures Settled(cfg, ops + more, id, final)
    decreases |more|
  {
    if more == [] {
      assert ops + more == ops;
    } else {
      assert ops + more == ops + Front(more) + [Last(more)];
      HistorySnoc(cfg, ops + Front(more), Last(more));
      assert Last(more) in more && forall op :: op in Front(more) ==> op in more;
      ContinuesSettled(cfg, ops, Front(more), id, final);
      StaysSettled(cfg, ops + Front(more), Last(more), id, final);
    }
  }

  /** Every legal continuation without another drained announcement of `id`
      keeps its drains and failures apart. */
  ghost predicate KeepsApart(cfg: PoolConfig, ops: seq<Op>, id: WorkerId, final: bool) {
    forall more :: Legal(cfg, ops + more) && (forall op :: op in more ==> !IsDrained(op, id)) ==>
      !Clash(TraceOf(cfg, ops + more), id, final)
  }

  /** When no life of `id` is both drained and failed yet, a drained announcement
      arriving next keeps it so in every legal continuation exactly if no
      failure of it was reported since its last launch and none can be before
      the next: it is out of service or, if only final failures count, has
      budget left. */
  lemma DrainSafeIff(cfg: PoolConfig, ops: seq<Op>, id: WorkerId, now: Instant, final: bool)
    requires Legal(cfg, ops) && !Clash(TraceOf(cfg, ops), id, final)
    ensures KeepsApart(cfg, ops + [Child(ChildDrained(id), now)], id, final) <==> DrainIsSafe(cfg, ops, id, final)
  {
    var drained := ops + [Child(ChildDrained(id), now)];
    HistorySnoc(cfg, ops, Child(ChildDrained(id), now));
    var trace := TraceOf(cfg, ops);
    ClashSnoc(trace, WorkerDrained(id), id, final);
    SinceSnoc(trace, WorkerDrained(id), id, WorkerDrained(id));
    if DrainIsSafe(cfg, ops, id, final) {
      assert Settled(cfg, drained, id, final);
      forall more | Legal(cfg, drained + more) && forall op :: op in more ==> !IsDrained(op, id)
        ensures !Clash(TraceOf(cfg, drained + more), id, final)
      {
        ContinuesSettled(cfg, drained, more, id, final);
      }
    } else if SinceLaunch(trace, id, Report(id, final)) {
      assert drained + [] == drained;
    } else {
      CrashAfterDrain(cfg, drained, id, now, final);
    }
  }

  lemma CrashAfterDrain(cfg: PoolConfig, ops: seq<Op>, id: WorkerId, now: Instant, final: bool)
    requires Legal(cfg, ops) && CouldFail(cfg, After(cfg, ops), id, final)
    requires SinceLaunch(TraceOf(cfg, ops), id, WorkerDrained(id))
    ensures !KeepsApart(cfg, ops, id, final)
  {
    var crash := Child(Exited(id, Some(1)), now);
    HistorySnoc(cfg, ops, crash);
    ReportAfterDrain(cfg, TraceOf(cfg, ops), id, After(cfg, ops)[id].failures + 1, final);
    assert Legal(cfg, ops + [crash]) && Clash(TraceOf(cfg, ops + [crash]), id, final);
  }

  lemma ReportAfterDrain(cfg: PoolConfig, trace: seq<PoolEvent>, id: WorkerId, failures: nat, final: bool)
    requires SinceLaunch(trace, id, WorkerDrained(id)) && (final ==> failures > cfg.maxFailures)
    ensures Clash(trace + ChargeEvents(cfg, id, failures), id, final)
  {
    var events := ChargeEvents(cfg, id, failures);
    assert trace + events == trace + [events[0]] + [events[1]];
    ClashSnoc(trace, events[0], id, final);
    SinceSnoc(trace, events[0], id, WorkerDrained(id));
    ClashSnoc(trace + [events[0]], events[1], id, final);
  }

  // ---- both orders occur ----

  /** The first `i` steps are legal and led to this table and these events. */
  ghost predicate Reached(cfg: PoolConfig, ops: seq<Op>, i: nat, t: Table, trace: seq<PoolEvent>)
    requires i <= |ops|
  {
    && Legal(cfg, ops[..i]) && GeneratedIds(ops[..i]) == (if i == 0 then {} else {"w"})
    && After(cfg, ops[..i]) == t && TraceOf(cfg, ops[..i]) == trace
  }

  lemma Follow(cfg: PoolConfig, ops: seq<Op>, i: nat, t: Table, trace: seq<PoolEvent>)
    requires i < |ops| && Reached(cfg, ops, i, t, trace)
    requires if i == 0 then ops[i].Spawn? && ops[i].id == "w" else ops[i].Child? || ops[i].Check?
    requires Allowed(cfg, if i == 0 then {} else {"w"}, t, ops[i])
    ensures Reached(cfg, ops, i + 1, Step(cfg, t, ops[i]).table, trace + Step(cfg, t, ops[i]).events)
  {
    assert Front(ops[..i + 1]) == ops[..i] && Last(ops[..i + 1]) == ops[i];
  }

  lemma FollowSpawn(cfg: PoolConfig, ops: seq<Op>)
    requires ops != [] && ops[0] == Spawn("w", cfg.basePort, true) && cfg.basePort <= cfg.maxPort
    ensures Reached(cfg, ops, 1, map["w" := NewWorker(cfg.basePort)], [WorkerSpawned("w", cfg.basePort)])
  {
    assert ops[..0] == [];
    Follow(cfg, ops, 0, map[], []);
  }

  lemma FollowAll(cfg: PoolConfig, ops: seq<Op>, t: Table, trace: seq<PoolEvent>)
    requires Reached(cfg, ops, |ops|, t, trace)
    ensures Legal(cfg, ops) && After(cfg, ops) == t && TraceOf(cfg, ops) == trace
  {
    assert ops[..|ops|] == ops;
  }

  /** A worker asked directly to drain exits, and the health sweep finds it gone
      before the pool reads the announcements it sent. */
  function SweptFirst(port: U16): seq<Op> {
    [Spawn("w", port, true), Child(Ready(port, "w"), 0), Check("w", Probe(false, false, 1)),
     Child(ChildDraining("w"), 2), Child(ChildDrained("w"), 2)]
  }

  /** It is then reported failed for good, draining and drained, in one life. */
  lemma DrainedAfterFailed(cfg: PoolConfig)
    requires cfg.basePort <= cfg.maxPort && cfg.maxFailures == 0
    ensures var ops := SweptFirst(cfg.basePort);
            && Legal(cfg, ops)
            && TraceOf(cfg, ops) == [WorkerSpawned("w", cfg.basePort), WorkerHealthy("w", cfg.basePort), AllWorkersHealthy,
                                     WorkerUnhealthy("w"), WorkerFailed("w"), WorkerDraining("w"), WorkerDrained("w")]
            && Clash(TraceOf(cfg, ops), "w", true)
  {
    var ops, port := SweptFirst(cfg.basePort), cfg.basePort;
    var trace := FailedForGood(port) + [WorkerDraining("w")] + [WorkerDrained("w")];
    SweptFirstFails(cfg, ops, port);
    FailureThenDrain(cfg, ops, 3, Managed(port, Stopped, 1, 0), FailedForGood(port));
    assert trace == [WorkerSpawned("w", port), WorkerHealthy("w", port), AllWorkersHealthy,
                     WorkerUnhealthy("w"), WorkerFailed("w"), WorkerDraining("w"), WorkerDrained("w")];
    assert ClashAt(trace, "w", true, 6, 4);
  }

  function FailedForGood(port: U16): seq<PoolEvent> {
    [WorkerSpawned("w", port), WorkerHealthy("w", port), AllWorkersHealthy, WorkerUnhealthy("w"), WorkerFailed("w")]
  }

  lemma SweptFirstFails(cfg: PoolConfig, ops: seq<Op>, port: U16)
    requires port == cfg.basePort <= cfg.maxPort && cfg.maxFailures == 0 && ops == SweptFirst(port)
    ensures Reached(cfg, ops, 3, map["w" := Managed(port, Stopped, 1, 0)], FailedForGood(port))
  {
    var spawned := [WorkerSpawned("w", port)];
    var ready := spawned + [WorkerHealthy("w", port), AllWorkersHealthy];
    FollowSpawn(cfg, ops);
    Follow(cfg, ops, 1, map["w" := NewWorker(port)], spawned);
    Follow(cfg, ops, 2, map["w" := Managed(port, Healthy, 0, 0)], ready);
    assert ready + [WorkerUnhealthy("w"), WorkerFailed("w")] == FailedForGood(port);
  }

  /** The two announcements of a drain end the history. */
  lemma FailureThenDrain(cfg: PoolConfig, ops: seq<Op>, i: nat, m: Managed, trace: seq<PoolEvent>)
    requires |ops| == i + 2 && Reached(cfg, ops, i, map["w" := m], trace) && i > 0
    requires ops[i] == Child(ChildDraining("w"), 2) && ops[i + 1] == Child(ChildDrained("w"), 2)
    ensures Legal(cfg, ops) && After(cfg, ops) == map["w" := m.(state := Draining)]
    ensures TraceOf(cfg, ops) == trace + [WorkerDraining("w")] + [WorkerDrained("w")]
  {
    var t := map["w" := m.(state := Draining)];
    Follow(cfg, ops, i, map["w" := m], trace);
    Follow(cfg, ops, i + 1, t, trace + [WorkerDraining("w")]);
    FollowAll(cfg, ops, t, trace + [WorkerDraining("w")] + [WorkerDrained("w")]);
  }

  /** As above, but before the worker announced itself ready. */
  function SweptAtOnce(port: U16): seq<Op> {
    [Spawn("w", port, true), Check("w", Probe(false, false, 1)),
     Child(ChildDraining("w"), 2), Child(ChildDrained("w"), 2)]
  }

  function RestartPromised(port: U16): seq<PoolEvent> {
    [WorkerSpawned("w", port), WorkerUnhealthy("w"), WorkerRestarting("w", 1)]
  }

  /** With budget left the same order diverts an announced restart: the worker
      ends Draining, and nothing is pending for it. */
  lemma DrainDivertsRestart(cfg: PoolConfig)
    requires cfg.basePort <= cfg.maxPort && cfg.maxFailures >= 1
    ensures var ops := SweptAtOnce(cfg.basePort);
            && Legal(cfg, ops)
            && TraceOf(cfg, ops) == [WorkerSpawned("w", cfg.basePort), WorkerUnhealthy("w"), WorkerRestarting("w", 1),
                                     WorkerDraining("w"), WorkerDrained("w")]
            && After(cfg, ops) == map["w" := Managed(cfg.basePort, Draining, 1, 0)]
            && Clash(TraceOf(cfg, ops), "w", false)
  {
    var ops, port := SweptAtOnce(cfg.basePort), cfg.basePort;
    var trace := RestartPromised(port) + [WorkerDraining("w")] + [WorkerDrained("w")];
    SweptAtOnceCharges(cfg, ops, port);
    FailureThenDrain(cfg, ops, 2, Managed(port, Failed(1 + DelayFor(cfg, 1)), 1, 0), RestartPromised(port));
    assert ClashAt(trace, "w", false, 4, 1);
  }

  lemma SweptAtOnceCharges(cfg: PoolConfig, ops: seq<Op>, port: U16)
    requires port == cfg.basePort <= cfg.maxPort && cfg.maxFailures >= 1 && ops == SweptAtOnce(port)
    ensures Reached(cfg, ops, 2, map["w" := Managed(port, Failed(1 + DelayFor(cfg, 1)), 1, 0)], RestartPromised(port))
  {
    var spawned := [WorkerSpawned("w", port)];
    FollowSpawn(cfg, ops);
    Follow(cfg, ops, 1, map["w" := NewWorker(port)], spawned);
    assert spawned + [WorkerUnhealthy("w"), WorkerRestarting("w", 1)] == RestartPromised(port);
  }

  /** A worker that announces drained without draining, and then crashes, is
      reported failed for good as well. */
  lemma FailedAfterDrained(cfg: PoolConfig)
    requires cfg.basePort <= cfg.maxPort && cfg.maxFailures == 0
    ensures var ops := [Spawn("w", cfg.basePort, true), Child(ChildDrained("w"), 0), Child(Exited("w", Some(1)), 1)];
            && Legal(cfg, ops)
            && TraceOf(cfg, ops) ==
                 [WorkerSpawned("w", cfg.basePort), WorkerDrained("w"), WorkerUnhealthy("w"), WorkerFailed("w")]
            && Clash(TraceOf(cfg, ops), "w", true)
  {
    var port := cfg.basePort;
    var ops := [Spawn("w", port, true), Child(ChildDrained("w"), 0), Child(Exited("w", Some(1)), 1)];
    var drained := [WorkerSpawned("w", port)] + [WorkerDrained("w")];
    FollowSpawn(cfg, ops);
    Follow(cfg, ops, 1, map["w" := NewWorker(port)], [WorkerSpawned("w", port)]);
    Follow(cfg, ops, 2, map["w" := NewWorker(port)], drained);
    FollowAll(cfg, ops, map["w" := Managed(port, Failed(1 + DelayFor(cfg, 1)), 1, 0)],
              drained + [WorkerUnhealthy("w"), WorkerFailed("w")]);
    assert ClashAt(TraceOf(cfg, ops), "w", true, 1, 3);
  }
}
