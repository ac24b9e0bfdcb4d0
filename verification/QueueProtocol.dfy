/** Any number of workers over one queue: every interleaving of their transactions. */
module QueueProtocol {
  import opened Prelude
  import opened TaskQueue

  /** `held` maps each busy worker to the task it claimed; `effects` lists the tasks whose handler's
      changes were committed; `reaps` counts how often each row was reclaimed. */
  datatype World = World(rows: Rows, held: map<Worker, Task>, effects: seq<TaskId>, reaps: map<TaskId, nat>)

  datatype Event =
    | Enqueue(id: TaskId, taskType: string, priority: int, runAfter: real, key: Option<string>, maxAttempts: int)
    | Claim(worker: Worker, task: TaskId, now: real)
    | Commit(worker: Worker)
    | Fail(worker: Worker, retryAfter: Option<real>, now: real)
    | Crash(worker: Worker)
    | Reap(now: real, timeout: real)

  const START := World(map[], map[], [], map[])

  predicate Enabled(w: World, e: Event) {
    match e
    case Enqueue(id, _, _, _, _, _) => id !in w.rows
    case Claim(worker, task, now) => worker !in w.held && task in w.rows && Due(w.rows[task], now, [])
    case Commit(worker) => worker in w.held
    case Fail(worker, _, _) => worker in w.held
    case Crash(worker) => worker in w.held
    case Reap(_, _) => true
  }

  /** The operating assumption behind the lock timeout: a reclaimed row's worker has stopped. */
  predicate Considerate(w: World, e: Event) {
    e.Reap? ==> forall worker :: worker in w.held && w.held[worker].id in w.rows ==>
      !Stale(w.rows[w.held[worker].id], e.now, e.timeout)
  }

  function Released(held: map<Worker, Task>, worker: Worker): map<Worker, Task> {
    map v | v in held && v != worker :: held[v]
  }

  /** One committed transaction, or one crash. */
  function Next(schedule: seq<int>, w: World, e: Event): World {
    if !Enabled(w, e) then w
    else
      match e
      case Enqueue(id, taskType, priority, runAfter, key, maxAttempts) =>
        if Clashes(w.rows, key) then w
        else w.(rows := w.rows[id := NewRow(taskType, priority, runAfter, key, maxAttempts)], reaps := w.reaps[id := 0])
      case Claim(worker, task, now) =>
        var row := Claimed(w.rows[task], worker, now);
        w.(rows := w.rows[task := row], held := w.held[worker := Snapshot(task, row)])
      case Commit(worker) =>
        var id := w.held[worker].id;
        w.(rows := if id in w.rows then w.rows[id := Completed(w.rows[id])] else w.rows,
           held := Released(w.held, worker), effects := w.effects + [id])
      case Fail(worker, retryAfter, now) =>
        var task := w.held[worker];
        w.(rows := if task.id in w.rows
                   then w.rows[task.id := Failed(w.rows[task.id], task, schedule, retryAfter, now)] else w.rows,
           held := Released(w.held, worker))
      case Crash(worker) => w.(held := Released(w.held, worker))
      case Reap(now, timeout) =>
        w.(rows := ReapAll(w.rows, now, timeout),
           reaps := map id | id in w.reaps ::
             w.reaps[id] + if id in w.rows && Stale(w.rows[id], now, timeout) then 1 else 0)
  }

  function After(schedule: seq<int>, events: seq<Event>): World {
    if events == [] then START else Next(schedule, After(schedule, events[..|events| - 1]), events[|events| - 1])
  }

  predicate Legal(schedule: seq<int>, events: seq<Event>) {
    events == [] ||
    var n := |events| - 1;
    var before := After(schedule, events[..n]);
    Legal(schedule, events[..n]) && Enabled(before, events[n]) && Considerate(before, events[n])
  }

  // ---- the invariant ----

  function Limit(row: Row): int {
    Max(1, row.maxAttempts)
  }

  /** Attempts never outrun the limit by more than the number of times the row was reclaimed. */
  predicate WithinLimit(row: Row, reaps: nat) {
    0 <= row.attempts <= Limit(row) + reaps - if row.status == Pending then 1 else 0
  }

  /** The holder of a running row is unique, and its snapshot agrees with the row. */
  predicate Agrees(w: World, worker: Worker)
    requires worker in w.held
  {
    var task := w.held[worker];
    task.id in w.rows && w.rows[task.id].status == Running && w.rows[task.id].lockedBy == Some(worker) &&
    task == Snapshot(task.id, w.rows[task.id])
  }

  function Times(effects: seq<TaskId>, id: TaskId): nat {
    if effects == [] then 0 else Times(effects[..|effects| - 1], id) + if effects[|effects| - 1] == id then 1 else 0
  }

  predicate OnceIfDone(w: World, id: TaskId) {
    Times(w.effects, id) == if id in w.rows && w.rows[id].status == Done then 1 else 0
  }

  ghost predicate UniqueKeys(rows: Rows) {
    forall a, b :: a in rows && b in rows && a != b && Live(rows[a]) ==> !Holds(rows[b], rows[a].dedupKey)
  }

  ghost predicate Inv(w: World) {
    && w.reaps.Keys == w.rows.Keys
    && (forall worker :: worker in w.held ==> Agrees(w, worker))
    && UniqueKeys(w.rows)
    && (forall id :: id in w.rows ==> WithinLimit(w.rows[id], w.reaps[id]))
    && (forall id :: OnceIfDone(w, id))
  }

  lemma TimesSnoc(effects: seq<TaskId>, id: TaskId, x: TaskId)
    ensures Times(effects + [id], x) == Times(effects, x) + if x == id then 1 else 0
  {
    assert (effects + [id])[..|effects|] == effects;
  }

  /** Besides `Enqueue`, no transaction ever brings a row into the index: no update can hit the constraint. */
  lemma OnlyEnqueueAddsLiveRows(schedule: seq<int>, w: World, e: Event, id: TaskId)
    requires Inv(w) && Enabled(w, e) && !e.Enqueue?
    ensures id in Next(schedule, w, e).rows <==> id in w.rows
    ensures id in w.rows && Live(Next(schedule, w, e).rows[id]) ==> Live(w.rows[id])
    ensures id in w.rows ==> Next(schedule, w, e).rows[id].dedupKey == w.rows[id].dedupKey
  {
    if e.Commit? || e.Fail? {
      assert Agrees(w, e.worker);
    }
  }

  lemma StepKeepsUnique(schedule: seq<int>, w: World, e: Event)
    requires Inv(w) && Enabled(w, e)
    ensures UniqueKeys(Next(schedule, w, e).rows)
  {
    if !e.Enqueue? {
      forall id ensures (id in Next(schedule, w, e).rows <==> id in w.rows) &&
          (id in w.rows ==> (Live(Next(schedule, w, e).rows[id]) ==> Live(w.rows[id])) &&
                            Next(schedule, w, e).rows[id].dedupKey == w.rows[id].dedupKey) {
        OnlyEnqueueAddsLiveRows(schedule, w, e, id);
      }
    }
  }

  lemma StepKeepsHolders(schedule: seq<int>, w: World, e: Event)
    requires Inv(w) && Enabled(w, e) && Considerate(w, e)
    ensures forall worker :: worker in Next(schedule, w, e).held ==> Agrees(Next(schedule, w, e), worker)
  {
    hide UniqueKeys, OnceIfDone, WithinLimit;
    var v := Next(schedule, w, e);
    forall worker | worker in v.held ensures Agrees(v, worker) {
      if worker in w.held {
        assert Agrees(w, worker);
        if (e.Commit? || e.Fail?) && e.worker in w.held {
          assert Agrees(w, e.worker);
        }
      }
    }
  }

  lemma StepKeepsCounts(schedule: seq<int>, w: World, e: Event)
    requires Inv(w) && Enabled(w, e)
    ensures var v := Next(schedule, w, e); v.reaps.Keys == v.rows.Keys
    ensures forall id :: id in Next(schedule, w, e).rows ==>
      WithinLimit(Next(schedule, w, e).rows[id], Next(schedule, w, e).reaps[id])
  {
    hide UniqueKeys, OnceIfDone;
    var v := Next(schedule, w, e);
    assert v.reaps.Keys == v.rows.Keys;
    forall id | id in v.rows ensures WithinLimit(v.rows[id], v.reaps[id]) {
      if id in w.rows {
        assert WithinLimit(w.rows[id], w.reaps[id]);
      }
      if e.Fail? {
        assert Agrees(w, e.worker);
      }
    }
  }

  lemma StepKeepsEffects(schedule: seq<int>, w: World, e: Event)
    requires Inv(w) && Enabled(w, e)
    ensures forall id :: OnceIfDone(Next(schedule, w, e), id)
  {
    hide UniqueKeys, WithinLimit;
    var v := Next(schedule, w, e);
    forall id ensures OnceIfDone(v, id) {
      assert OnceIfDone(w, id);
      if e.Commit? || e.Fail? {
        assert Agrees(w, e.worker);
      }
      if e.Commit? {
        TimesSnoc(w.effects, w.held[e.worker].id, id);
      }
    }
  }

  lemma StepKeeps(schedule: seq<int>, w: World, e: Event)
    requires Inv(w) && Enabled(w, e) && Considerate(w, e)
    ensures Inv(Next(schedule, w, e))
  {
    StepKeepsUnique(schedule, w, e);
    StepKeepsHolders(schedule, w, e);
    StepKeepsCounts(schedule, w, e);
    StepKeepsEffects(schedule, w, e);
  }

  /** Every reachable world is safe. */
  lemma {:induction false} RunsAreSafe(schedule: seq<int>, events: seq<Event>)
    requires Legal(schedule, events)
    ensures Inv(After(schedule, events))
  {
    if events == [] {
    } else {
      var n := |events| - 1;
      RunsAreSafe(schedule, events[..n]);
      StepKeeps(schedule, After(schedule, events[..n]), events[n]);
    }
  }

  // ---- what the invariant means ----

  predicate SameKey(w: World, a: TaskId, b: TaskId) {
    a in w.rows && b in w.rows && w.rows[a].dedupKey.Some? && w.rows[a].dedupKey == w.rows[b].dedupKey
  }

  predicate Finished(w: World, id: TaskId) {
    id in w.rows && (w.rows[id].status == Done || w.rows[id].status == Dead)
  }

  /** Over any run: one executor per task, each handler's effects committed at most once and exactly when
      the row reads done, and no dedup key twice among waiting and running rows. */
  lemma QueueSafety(schedule: seq<int>, events: seq<Event>)
    requires Legal(schedule, events)
    ensures var w := After(schedule, events);
      && (forall v1, v2 :: v1 in w.held && v2 in w.held && w.held[v1].id == w.held[v2].id ==> v1 == v2)
      && (forall id :: Times(w.effects, id) <= 1)
      && (forall id :: id in w.rows ==> (Times(w.effects, id) == 1 <==> w.rows[id].status == Done))
      && (forall a, b :: a != b && SameKey(w, a, b) ==> Finished(w, a) || Finished(w, b))
  {
    RunsAreSafe(schedule, events);
    var w := After(schedule, events);
    forall v1, v2 | v1 in w.held && v2 in w.held && w.held[v1].id == w.held[v2].id ensures v1 == v2 {
      assert Agrees(w, v1) && Agrees(w, v2);
    }
    forall id ensures Times(w.effects, id) <= 1 &&
        (id in w.rows ==> (Times(w.effects, id) == 1 <==> w.rows[id].status == Done)) {
      assert OnceIfDone(w, id);
    }
    forall a, b | a != b && SameKey(w, a, b)
      ensures Finished(w, a) || Finished(w, b)
    {
      if !Finished(w, a) {
        assert !Holds(w.rows[b], w.rows[a].dedupKey);
      }
    }
  }

  /** `done` and `dead` are final: nothing that happens later touches the row again. */
  lemma {:induction false} FinishedStays(schedule: seq<int>, events: seq<Event>, k: nat, id: TaskId)
    requires Legal(schedule, events) && k <= |events| && Finished(After(schedule, events[..k]), id)
    ensures id in After(schedule, events).rows
    ensures After(schedule, events).rows[id] == After(schedule, events[..k]).rows[id]
  {
    hide Inv;
    var n := |events| - 1;
    if k == |events| {
      assert events[..k] == events;
    } else {
      assert events[..n][..k] == events[..k];
      FinishedStays(schedule, events[..n], k, id);
      RunsAreSafe(schedule, events[..n]);
      FinishedStep(schedule, After(schedule, events[..n]), events[n], id);
    }
  }

  lemma FinishedStep(schedule: seq<int>, w: World, e: Event, id: TaskId)
    requires Inv(w) && Enabled(w, e) && Finished(w, id)
    ensures id in Next(schedule, w, e).rows && Next(schedule, w, e).rows[id] == w.rows[id]
  {
    if e.Commit? || e.Fail? {
      assert Agrees(w, e.worker);
    }
  }

  // ---- what each transaction does, and nothing else ----

  /** The task that a worker's transaction settles. */
  predicate Settles(w: World, worker: Worker, id: TaskId) {
    worker in w.held && w.held[worker].id == id
  }

  /** Over any run a row is only ever inserted as new, claimed when due, settled by its holder, or taken back from
      a lock older than the timeout, each with exactly these effects. */
  predicate MovesTo(schedule: seq<int>, w: World, e: Event, id: TaskId, row: Row, after: Row) {
    match e
    case Enqueue(_, _, _, _, _, _) => after == row
    case Claim(worker, task, now) =>
      if task != id then after == row
      else row.status == Pending && row.runAfter <= now &&
           after == row.(status := Running, lockedAt := Some(now), lockedBy := Some(worker), attempts := row.attempts + 1)
    case Commit(worker) =>
      if !Settles(w, worker, id) then after == row
      else row.status == Running && row.lockedBy == Some(worker) &&
           after == row.(status := Done, lockedAt := None, lockedBy := None)
    case Fail(worker, retryAfter, now) =>
      if !Settles(w, worker, id) then after == row
      else row.status == Running && row.lockedBy == Some(worker) &&
           FailsTo(row, after, row.attempts, schedule, retryAfter, now, row.maxAttempts)
    case Crash(_) => after == row
    case Reap(now, timeout) =>
      after == if Abandoned(row, now - timeout) then row.(status := Pending, lockedAt := None, lockedBy := None) else row
  }

  lemma RowMoves(schedule: seq<int>, w: World, e: Event, id: TaskId)
    requires Inv(w) && Enabled(w, e) && id in w.rows
    ensures id in Next(schedule, w, e).rows && MovesTo(schedule, w, e, id, w.rows[id], Next(schedule, w, e).rows[id])
  {
    hide Failed, FailsTo, UniqueKeys, OnceIfDone, WithinLimit;
    if (e.Commit? || e.Fail?) && e.worker in w.held {
      assert Agrees(w, e.worker);
      if e.Fail? && w.held[e.worker].id == id {
        FailedIsExact(w.rows[id], w.held[e.worker], schedule, e.retryAfter, e.now);
      }
    }
  }

  /** An insert adds the new row exactly when no waiting or running row has its key. */
  lemma InsertAdds(schedule: seq<int>, w: World, e: Event)
    requires Enabled(w, e) && e.Enqueue?
    ensures Next(schedule, w, e).rows ==
            if Taken(w.rows, e.key) then w.rows
            else w.rows[e.id := Row(e.taskType, e.priority, e.runAfter, e.key, e.maxAttempts, Pending, 0, None, None)]
  {
    assert Clashes(w.rows, e.key) <==> Taken(w.rows, e.key);
  }

  lemma NothingElseInserts(schedule: seq<int>, w: World, e: Event, id: TaskId)
    requires Inv(w) && Enabled(w, e) && !e.Enqueue?
    ensures id in Next(schedule, w, e).rows ==> id in w.rows
  {
    if e.Commit? || e.Fail? {
      assert Agrees(w, e.worker);
    }
  }

  /** Every step of every run, on every row. */
  lemma RunsMoveRows(schedule: seq<int>, events: seq<Event>, k: nat, id: TaskId)
    requires Legal(schedule, events) && k < |events|
    ensures var w, v, e := After(schedule, events[..k]), After(schedule, events[..k + 1]), events[k];
            if id in w.rows then id in v.rows && MovesTo(schedule, w, e, id, w.rows[id], v.rows[id])
            else if e.Enqueue? && e.id == id && !Taken(w.rows, e.key) then
              id in v.rows &&
              v.rows[id] == Row(e.taskType, e.priority, e.runAfter, e.key, e.maxAttempts, Pending, 0, None, None)
            else id !in v.rows
  {
    hide Inv, Next, Enabled, Considerate, Legal, After, MovesTo, Taken;
    StepAt(schedule, events, k);
    var w, e := After(schedule, events[..k]), events[k];
    RunsAreSafe(schedule, events[..k]);
    if id in w.rows {
      RowMoves(schedule, w, e, id);
    } else if e.Enqueue? {
      InsertAdds(schedule, w, e);
    } else {
      NothingElseInserts(schedule, w, e, id);
    }
  }

  // ---- how often a task is tried ----

  function Claims(events: seq<Event>, id: TaskId): nat {
    if events == [] then 0
    else
      var last := events[|events| - 1];
      Claims(events[..|events| - 1], id) + if last.Claim? && last.task == id then 1 else 0
  }

  predicate NoReaps(events: seq<Event>) {
    forall k :: 0 <= k < |events| ==> !events[k].Reap?
  }

  predicate NoHints(events: seq<Event>) {
    forall k :: 0 <= k < |events| && events[k].Fail? ==> events[k].retryAfter.None?
  }

  lemma {:induction false} ClaimsAreAttempts(schedule: seq<int>, events: seq<Event>, id: TaskId)
    requires Legal(schedule, events)
    ensures Claims(events, id) ==
            if id in After(schedule, events).rows then After(schedule, events).rows[id].attempts else 0
  {
    if events == [] {
    } else {
      var n := |events| - 1;
      ClaimsAreAttempts(schedule, events[..n], id);
    }
  }

  /** How often a row was taken back from an old lock. */
  function Reclaims(schedule: seq<int>, events: seq<Event>, id: TaskId): nat {
    if events == [] then 0
    else
      var n := |events| - 1;
      var rows, e := After(schedule, events[..n]).rows, events[n];
      Reclaims(schedule, events[..n], id) +
      if e.Reap? && id in rows && Abandoned(rows[id], e.now - e.timeout) then 1 else 0
  }

  lemma {:induction false} ReapsAreReclaims(schedule: seq<int>, events: seq<Event>, id: TaskId)
    requires Legal(schedule, events)
    ensures var w := After(schedule, events);
            if id in w.rows then id in w.reaps && w.reaps[id] == Reclaims(schedule, events, id)
            else Reclaims(schedule, events, id) == 0
  {
    hide Clashes, Failed, Considerate;
    if events == [] {
    } else {
      var n := |events| - 1;
      ReapsAreReclaims(schedule, events[..n], id);
      RunsAreSafe(schedule, events[..n]);
      hide Inv, After;
      RowsOnlyGrow(schedule, After(schedule, events[..n]), events[n], id);
    }
  }

  lemma RowsOnlyGrow(schedule: seq<int>, w: World, e: Event, id: TaskId)
    requires Inv(w) && Enabled(w, e)
    ensures id in w.rows ==> id in Next(schedule, w, e).rows
    ensures e.Fail? && e.worker in w.held ==> w.held[e.worker].id in w.rows
    ensures e.Commit? && e.worker in w.held ==> w.held[e.worker].id in w.rows
  {
    hide Failed, Clashes;
    if (e.Commit? || e.Fail?) && e.worker in w.held {
      assert Agrees(w, e.worker);
    }
  }

  /** Over any run: the n-th claim of a task that fails takes the n-th delay of the schedule, or the hint, and is the
      last once n reaches the row's limit or, without a hint, outruns the schedule. */
  lemma FailFollowsSchedule(schedule: seq<int>, events: seq<Event>, k: nat)
    requires Legal(schedule, events) && k < |events| && events[k].Fail?
    ensures var w, v, e := After(schedule, events[..k]), After(schedule, events[..k + 1]), events[k];
            e.worker in w.held &&
            var id := w.held[e.worker].id;
            var n := Claims(events[..k], id);
            id in w.rows && id in v.rows && n >= 1 &&
            FailsTo(w.rows[id], v.rows[id], n, schedule, e.retryAfter, e.now, w.rows[id].maxAttempts)
  {
    hide Next, Considerate, Legal, After, FailsTo, Claims, UniqueKeys, OnceIfDone, WithinLimit;
    StepAt(schedule, events, k);
    var w, e := After(schedule, events[..k]), events[k];
    RunsAreSafe(schedule, events[..k]);
    assert Agrees(w, e.worker);
    RowMoves(schedule, w, e, w.held[e.worker].id);
    ClaimsAreAttempts(schedule, events[..k], w.held[e.worker].id);
    HeldWasClaimed(schedule, events[..k], e.worker);
  }

  lemma {:induction false} HeldWasClaimed(schedule: seq<int>, events: seq<Event>, worker: Worker)
    requires Legal(schedule, events) && worker in After(schedule, events).held
    ensures Claims(events, After(schedule, events).held[worker].id) >= 1
  {
    hide Considerate, Failed, Completed, ReapAll, Clashes, NewRow;
    if events == [] {
    } else {
      var n := |events| - 1;
      if worker in After(schedule, events[..n]).held {
        HeldWasClaimed(schedule, events[..n], worker);
      }
    }
  }

  /** Every claim raises the stored count, so a task is claimed at most max(1, max_attempts) times plus once
      for every time it was reclaimed. */
  lemma ClaimsAreBounded(schedule: seq<int>, events: seq<Event>, id: TaskId)
    requires Legal(schedule, events) && id in After(schedule, events).rows
    ensures Claims(events, id) <= Max(1, After(schedule, events).rows[id].maxAttempts) + Reclaims(schedule, events, id)
  {
    RunsAreSafe(schedule, events);
    ReapsAreReclaims(schedule, events, id);
    ClaimsAreAttempts(schedule, events, id);
    assert WithinLimit(After(schedule, events).rows[id], After(schedule, events).reaps[id]);
  }

  /** One claim of a row that was enqueued with `m` attempts allowed. */
  function OneClaim(m: int): seq<Event> {
    [Enqueue(1, "embed", 0, 0.0, None, m), Claim(1, 1, 0.0)]
  }

  lemma OneClaimRuns(schedule: seq<int>, m: int)
    ensures var w := After(schedule, OneClaim(m));
            Legal(schedule, OneClaim(m)) && Claims(OneClaim(m), 1) == 1 &&
            1 in w.rows && w.rows[1].maxAttempts == m && 1 in w.reaps && w.reaps[1] == 0
  {
    var es := OneClaim(m);
    assert es[..0] == [] && es[..1] == [es[0]] && es[..1][..0] == [];
    assert Legal(schedule, []) && Enabled(START, es[0]) && !Clashes(map[], None);
    assert Legal(schedule, es[..1]);
    assert After(schedule, es[..1]).rows == map[1 := NewRow("embed", 0, 0.0, None, m)];
    assert Claims(es[..1], 1) == 0;
  }

  /** The row's own max_attempts, with the reclaims added, bounds its claims. */
  predicate PlainBound(schedule: seq<int>, events: seq<Event>, id: TaskId) {
    var w := After(schedule, events);
    id in w.rows ==> Claims(events, id) <= w.rows[id].maxAttempts + Reclaims(schedule, events, id)
  }

  predicate RowAllows(schedule: seq<int>, events: seq<Event>, id: TaskId, m: int) {
    Legal(schedule, events) &&
    var rows := After(schedule, events).rows;
    id in rows && rows[id].maxAttempts == m
  }

  /** The plain bound holds over every run of every row with `m` attempts allowed if and only if `m` is at least
      one: the limit is looked at only after a run. */
  lemma PlainBoundIffAtLeastOne(schedule: seq<int>, m: int)
    ensures m >= 1 <==>
      forall events, id :: RowAllows(schedule, events, id, m) ==> PlainBound(schedule, events, id)
  {
    forall events, id | RowAllows(schedule, events, id, m) && m >= 1
      ensures PlainBound(schedule, events, id)
    {
      ClaimsAreBounded(schedule, events, id);
    }
    OneClaimRuns(schedule, m);
    ReapsAreReclaims(schedule, OneClaim(m), 1);
    assert RowAllows(schedule, OneClaim(m), 1, m);
    assert m < 1 ==> !PlainBound(schedule, OneClaim(m), 1);
  }

  predicate WithinSchedule(row: Row, steps: nat) {
    row.attempts <= steps + if row.status == Pending then 0 else 1
  }

  lemma {:induction false} ScheduleBounds(schedule: seq<int>, events: seq<Event>, id: TaskId)
    requires Legal(schedule, events) && NoReaps(events) && NoHints(events)
    ensures var w := After(schedule, events);
            id in w.rows ==> id in w.reaps && w.reaps[id] == 0 && WithinSchedule(w.rows[id], |schedule|)
  {
    if events == [] {
    } else {
      var n := |events| - 1;
      var w := After(schedule, events[..n]);
      ScheduleBounds(schedule, events[..n], id);
      RunsAreSafe(schedule, events[..n]);
      hide UniqueKeys, OnceIfDone, WithinLimit;
      if events[n].Commit? || events[n].Fail? {
        assert Agrees(w, events[n].worker);
      }
    }
  }

  /** With nothing reclaimed and no Retry-After, both limits apply: the row's and the schedule's. */
  lemma QuietClaimsAreBounded(schedule: seq<int>, events: seq<Event>, id: TaskId)
    requires Legal(schedule, events) && NoReaps(events) && NoHints(events) && id in After(schedule, events).rows
    ensures Claims(events, id) <= Min(Max(1, After(schedule, events).rows[id].maxAttempts), |schedule| + 1)
  {
    ClaimsAreBounded(schedule, events, id);
    ReapsAreReclaims(schedule, events, id);
    ScheduleBounds(schedule, events, id);
    ClaimsAreAttempts(schedule, events, id);
  }

  // ---- locks and delays ----

  /** A row carries a lock, with its owner and time, exactly while it runs. */
  predicate LockFits(row: Row) {
    (row.status == Running <==> row.lockedBy.Some?) && (row.status == Running <==> row.lockedAt.Some?)
  }

  lemma {:induction false} LockedExactlyWhileRunning(schedule: seq<int>, events: seq<Event>)
    ensures forall id :: id in After(schedule, events).rows ==> LockFits(After(schedule, events).rows[id])
  {
    if events == [] {
    } else {
      var n := |events| - 1;
      LockedExactlyWhileRunning(schedule, events[..n]);
      hide BackoffDelay, Clashes;
    }
  }

  predicate ClaimedBetween(events: seq<Event>, k: nat, id: TaskId) {
    exists j :: k <= j < |events| && events[j].Claim? && events[j].task == id
  }

  /** A row put back after a failure stays put, reclaims included, until somebody claims it. */
  lemma {:induction false} RetryWaits(schedule: seq<int>, events: seq<Event>, k: nat, id: TaskId)
    requires Legal(schedule, events) && k <= |events| && !ClaimedBetween(events, k, id)
    requires id in After(schedule, events[..k]).rows && After(schedule, events[..k]).rows[id].status == Pending
    ensures id in After(schedule, events).rows
    ensures After(schedule, events).rows[id] == After(schedule, events[..k]).rows[id]
  {
    hide Inv;
    var n := |events| - 1;
    if k == |events| {
      assert events[..k] == events;
    } else {
      assert events[..n][..k] == events[..k];
      assert forall j :: 0 <= j < n ==> events[..n][j] == events[j];
      RetryWaits(schedule, events[..n], k, id);
      RunsAreSafe(schedule, events[..n]);
      PendingStep(schedule, After(schedule, events[..n]), events[n], id);
    }
  }

  lemma PendingStep(schedule: seq<int>, w: World, e: Event, id: TaskId)
    requires Inv(w) && Enabled(w, e) && id in w.rows && w.rows[id].status == Pending
    requires e.Claim? ==> e.task != id
    ensures id in Next(schedule, w, e).rows && Next(schedule, w, e).rows[id] == w.rows[id]
  {
    if e.Commit? || e.Fail? {
      assert Agrees(w, e.worker);
    }
  }

  /** Over any run: after a failure that is retried, the next claim of the task comes no earlier than the schedule's
      delay for that attempt, or than the Retry-After given instead of it, to the second. */
  lemma RetriesKeepTheirDelay(schedule: seq<int>, events: seq<Event>, k: nat, j: nat)
    requires Legal(schedule, events) && k < j < |events| && events[k].Fail? && events[j].Claim?
    requires Settles(After(schedule, events[..k]), events[k].worker, events[j].task)
    requires events[j].task in After(schedule, events[..k + 1]).rows
    requires After(schedule, events[..k + 1]).rows[events[j].task].status == Pending
    requires !ClaimedBetween(events[..j], k + 1, events[j].task)
    ensures var n := Claims(events[..k], events[j].task);
            if events[k].retryAfter.None? then
              1 <= n <= |schedule| && events[j].now >= events[k].now + (60 * schedule[n - 1]) as real
            else events[j].now > events[k].now + events[k].retryAfter.value - 1.0
  {
    hide Inv, Legal, After, Next, ClaimedBetween, Claims;
    FailFollowsSchedule(schedule, events, k);
    StepAt(schedule, events, j);
    assert events[..j][..k + 1] == events[..k + 1];
    RetryWaits(schedule, events[..j], k + 1, events[j].task);
  }

  lemma StepAt(schedule: seq<int>, events: seq<Event>, k: nat)
    requires Legal(schedule, events) && k < |events|
    ensures Legal(schedule, events[..k]) && Enabled(After(schedule, events[..k]), events[k])
    ensures After(schedule, events[..k + 1]) == Next(schedule, After(schedule, events[..k]), events[k])
  {
    hide Enabled, Considerate, Next;
    LegalPrefix(schedule, events, k + 1);
    assert events[..k + 1][..k] == events[..k] && events[..k + 1][k] == events[k];
  }

  lemma {:induction false} LegalPrefix(schedule: seq<int>, events: seq<Event>, k: nat)
    requires Legal(schedule, events) && k <= |events|
    ensures Legal(schedule, events[..k])
  {
    if k == |events| {
      assert events[..k] == events;
    } else {
      LegalPrefix(schedule, events[..|events| - 1], k);
      assert events[..|events| - 1][..k] == events[..k];
    }
  }

  // ---- the assumption on reclaiming is exactly what is needed ----

  /** Reclaiming keeps the invariant if and only if no busy worker's row is reclaimed. */
  lemma ReapIsSafeIffConsiderate(schedule: seq<int>, w: World, now: real, timeout: real)
    requires Inv(w)
    ensures Inv(Next(schedule, w, Reap(now, timeout))) <==> Considerate(w, Reap(now, timeout))
  {
    var e := Reap(now, timeout);
    if Considerate(w, e) {
      StepKeeps(schedule, w, e);
    } else {
      var worker :| worker in w.held && w.held[worker].id in w.rows && Stale(w.rows[w.held[worker].id], now, timeout);
      assert !Agrees(Next(schedule, w, e), worker);
    }
  }

  lemma AfterSnoc(schedule: seq<int>, events: seq<Event>, e: Event)
    ensures After(schedule, events + [e]) == Next(schedule, After(schedule, events), e)
  {
    assert (events + [e])[..|events|] == events;
  }

  /** `tail` may follow `events`, whatever was assumed of them. */
  predicate Follows(schedule: seq<int>, events: seq<Event>, tail: seq<Event>) {
    tail == [] ||
    var n := |tail| - 1;
    Follows(schedule, events, tail[..n]) && Enabled(After(schedule, events + tail[..n]), tail[n])
  }

  lemma {:induction false} FollowingKeepsLegal(schedule: seq<int>, events: seq<Event>, tail: seq<Event>)
    requires Legal(schedule, events) && NoReaps(tail) && Follows(schedule, events, tail)
    ensures Legal(schedule, events + tail)
  {
    if tail == [] {
      assert events + tail == events;
    } else {
      var n := |tail| - 1;
      FollowingKeepsLegal(schedule, events, tail[..n]);
      assert (events + tail)[..|events| + n] == events + tail[..n];
    }
  }

  lemma FreshWorker(held: map<Worker, Task>) returns (worker: Worker)
    ensures worker !in held
  {
    worker := AboveAll(held.Keys);
  }

  lemma {:induction false} AboveAll(workers: set<Worker>) returns (worker: Worker)
    ensures forall v :: v in workers ==> v < worker
  {
    if v: Worker :| v in workers {
      var above := AboveAll(workers - {v});
      worker := Max(above, v + 1);
      forall u | u in workers ensures u < worker {
        assert u == v || u in workers - {v};
      }
    } else {
      worker := 0;
    }
  }

  ghost predicate CommitsTwice(schedule: seq<int>, events: seq<Event>, tail: seq<Event>, id: TaskId) {
    NoReaps(tail) && Follows(schedule, events, tail) && Times(After(schedule, events + tail).effects, id) >= 2
  }

  /** Once a busy worker's row is reclaimed, a second worker can run it and both commit. */
  lemma BothCommit(schedule: seq<int>, events: seq<Event>, worker: Worker, id: TaskId)
    requires var w := After(schedule, events);
             worker in w.held && w.held[worker].id == id && id in w.rows && w.rows[id].status == Pending
    ensures exists tail :: CommitsTwice(schedule, events, tail, id)
  {
    hide After, Times, Legal;
    var w := After(schedule, events);
    var other := FreshWorker(w.held);
    var a, b, c := Claim(other, id, w.rows[id].runAfter), Commit(worker), Commit(other);
    var tail := [a, b, c];
    AfterSnoc(schedule, events, a);
    AfterSnoc(schedule, events + [a], b);
    AfterSnoc(schedule, events + [a] + [b], c);
    assert events + [] == events && events + [a, b] == events + [a] + [b] && events + tail == events + [a] + [b] + [c];
    assert [a][..0] == [] && [a, b][..1] == [a] && tail[..2] == [a, b];
    assert Enabled(w, a);
    assert Follows(schedule, events, []);
    assert Follows(schedule, events, [a]);
    assert Follows(schedule, events, [a, b]);
    TimesSnoc(w.effects, id, id);
    TimesSnoc(w.effects + [id], id, id);
    assert CommitsTwice(schedule, events, tail, id);
  }

  /** From every reachable world: after a reclaim some continuation commits one task's effects twice if and only
      if the reclaim took a busy worker's row. */
  lemma DoubleCommitIffInconsiderate(schedule: seq<int>, events: seq<Event>, now: real, timeout: real)
    requires Legal(schedule, events)
    ensures (exists tail, id :: CommitsTwice(schedule, events + [Reap(now, timeout)], tail, id)) <==>
            !Considerate(After(schedule, events), Reap(now, timeout))
  {
    var e := Reap(now, timeout);
    var w := After(schedule, events);
    AfterSnoc(schedule, events, e);
    if Considerate(w, e) {
      assert (events + [e])[..|events|] == events;
      forall tail, id ensures !CommitsTwice(schedule, events + [e], tail, id) {
        if NoReaps(tail) && Follows(schedule, events + [e], tail) {
          FollowingKeepsLegal(schedule, events + [e], tail);
          QueueSafety(schedule, events + [e] + tail);
          assert Times(After(schedule, events + [e] + tail).effects, id) <= 1;
        }
      }
    } else {
      var worker :| worker in w.held && w.held[worker].id in w.rows && Stale(w.rows[w.held[worker].id], now, timeout);
      BothCommit(schedule, events + [e], worker, w.held[worker].id);
    }
  }

  /** A worker slower than the lock timeout: its task is reclaimed, run again, and committed twice. */
  function SlowWorker(): seq<Event> {
    [Enqueue(1, "embed", 0, 0.0, None, 4), Claim(1, 1, 0.0), Reap(2000.0, 1800.0), Claim(2, 1, 2000.0), Commit(1), Commit(2)]
  }

  lemma SlowWorkerStart(schedule: seq<int>)
    ensures var w := After(schedule, SlowWorker()[..3]);
            w.held == map[1 := Task(1, "embed", 1, 4)] && w.effects == [] && w.rows.Keys == {1} &&
            w.rows[1] == NewRow("embed", 0, 0.0, None, 4).(attempts := 1)
  {
    var es := SlowWorker();
    assert es[..3] == [] + [es[0]] + [es[1]] + [es[2]];
    AfterSnoc(schedule, [], es[0]);
    AfterSnoc(schedule, [] + [es[0]], es[1]);
    AfterSnoc(schedule, [] + [es[0]] + [es[1]], es[2]);
  }

  /** The effects are there twice. */
  lemma SlowWorkerCommitsTwice(schedule: seq<int>)
    ensures Times(After(schedule, SlowWorker()).effects, 1) == 2
  {
    hide Times;
    var es := SlowWorker();
    SlowWorkerStart(schedule);
    assert es == es[..3] + [es[3]] + [es[4]] + [es[5]];
    AfterSnoc(schedule, es[..3], es[3]);
    AfterSnoc(schedule, es[..3] + [es[3]], es[4]);
    AfterSnoc(schedule, es[..3] + [es[3]] + [es[4]], es[5]);
    assert After(schedule, es).effects == [1] + [1];
    TimesSnoc([1], 1, 1);
    TimesSnoc([], 1, 1);
    assert [] + [1] == [1];
    NoEffectsYet();
  }

  lemma NoEffectsYet()
    ensures Times([], 1) == 0
  {
  }

  /** The only step of the run that breaks an assumption is the reclaiming of a busy worker's row. */
  lemma SlowWorkerReclaimed(schedule: seq<int>)
    ensures Legal(schedule, SlowWorker()[..2])
    ensures !Considerate(After(schedule, SlowWorker()[..2]), SlowWorker()[2])
  {
    var es := SlowWorker();
    assert es[..2][..1] == [] + [es[0]] && es[..2] == [] + [es[0]] + [es[1]];
    assert es[..2][..1][..0] == [] && es[..2][1] == es[1] && es[..2][..1][0] == es[0];
    AfterSnoc(schedule, [], es[0]);
    AfterSnoc(schedule, [] + [es[0]], es[1]);
    assert [] + [es[0]] == [es[0]];
    assert Legal(schedule, es[..2][..1][..0]) && Enabled(START, es[0]);
    assert Legal(schedule, es[..2][..1]);
  }
}
