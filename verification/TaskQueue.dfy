/** queue.py and runner.py: the durable queue, one row per task, each statement one atomic change. */
module TaskQueue {
  import opened Prelude

  type TaskId = int
  type Worker = int

  datatype Status = Pending | Running | Done | Dead

  datatype Row = Row(
    taskType: string, priority: int, runAfter: real, dedupKey: Option<string>, maxAttempts: int,
    status: Status, attempts: int, lockedAt: Option<real>, lockedBy: Option<Worker>)

  /** What a worker carries away from a claim: a snapshot, not the row. */
  datatype Task = Task(id: TaskId, taskType: string, attempts: int, maxAttempts: int)

  type Rows = map<TaskId, Row>

  predicate Live(row: Row) {
    row.status == Pending || row.status == Running
  }

  predicate Holds(row: Row, key: Option<string>) {
    Live(row) && row.dedupKey.Some? && row.dedupKey == key
  }

  /** The partial unique index: a non-null key among pending and running rows. */
  predicate Clashes(rows: Rows, key: Option<string>) {
    exists id :: id in rows && Holds(rows[id], key)
  }

  function NewRow(taskType: string, priority: int, runAfter: real, key: Option<string>, maxAttempts: int): Row {
    Row(taskType, priority, runAfter, key, maxAttempts, Pending, 0, None, None)
  }

  predicate Due(row: Row, now: real, types: seq<string>) {
    row.status == Pending && row.runAfter <= now && (types == [] || row.taskType in types)
  }

  function Claimed(row: Row, worker: Worker, now: real): Row {
    row.(status := Running, lockedAt := Some(now), lockedBy := Some(worker), attempts := row.attempts + 1)
  }

  function Snapshot(id: TaskId, row: Row): Task {
    Task(id, row.taskType, row.attempts, row.maxAttempts)
  }

  function Completed(row: Row): Row {
    row.(status := Done, lockedAt := None, lockedBy := None)
  }

  function BackoffDelay(attempts: int, schedule: seq<int>): Option<real> {
    var index := attempts - 1;
    if index < 0 || index >= |schedule| then None else Some((60 * schedule[index]) as real)
  }

  /** Python's `int` on a float: towards zero. */
  function Truncated(x: real): real {
    if x >= 0.0 then x.Floor as real else 0.0 - ((0.0 - x).Floor as real)
  }

  function Delay(task: Task, schedule: seq<int>, retryAfter: Option<real>): Option<real> {
    if retryAfter.Some? then retryAfter else BackoffDelay(task.attempts, schedule)
  }

  predicate GivesUp(task: Task, schedule: seq<int>, retryAfter: Option<real>) {
    Delay(task, schedule, retryAfter).None? || task.attempts >= task.maxAttempts
  }

  function Failed(row: Row, task: Task, schedule: seq<int>, retryAfter: Option<real>, now: real): Row {
    if GivesUp(task, schedule, retryAfter)
    then row.(status := Dead, lockedAt := None, lockedBy := None)
    else row.(status := Pending, lockedAt := None, lockedBy := None,
              runAfter := now + Truncated(Delay(task, schedule, retryAfter).value))
  }

  predicate Stale(row: Row, now: real, timeout: real) {
    row.status == Running && row.lockedAt.Some? && row.lockedAt.value < now - timeout
  }

  function Reaped(row: Row, now: real, timeout: real): Row {
    if Stale(row, now, timeout) then row.(status := Pending, lockedAt := None, lockedBy := None) else row
  }

  function ReapAll(rows: Rows, now: real, timeout: real): Rows {
    map id | id in rows :: Reaped(rows[id], now, timeout)
  }

  // ---- the statements, in place ----

  /** A pending row whose time has come, of a wanted type. */
  predicate Claimable(rows: Rows, id: TaskId, now: real, types: seq<string>) {
    id in rows && rows[id].status == Pending && rows[id].runAfter <= now && (types != [] ==> rows[id].taskType in types)
  }

  /** Such a row with none of higher priority, nor an earlier one of its own. */
  ghost predicate ComesFirst(rows: Rows, id: TaskId, now: real, types: seq<string>) {
    && Claimable(rows, id, now, types)
    && forall other :: Claimable(rows, other, now, types) ==>
         rows[other].priority <= rows[id].priority &&
         (rows[other].priority == rows[id].priority ==> rows[id].runAfter <= rows[other].runAfter)
  }

  /** Running, and locked before `since`. */
  predicate Abandoned(row: Row, since: real) {
    row.status == Running && row.lockedAt.Some? && row.lockedAt.value < since
  }

  /** Some waiting or running row has this key. */
  predicate Taken(rows: Rows, key: Option<string>) {
    key.Some? && exists id :: id in rows && rows[id].dedupKey == key && (rows[id].status == Pending || rows[id].status == Running)
  }

  /** `s` is `x` without its fraction. */
  predicate WholePart(x: real, s: real) {
    s.Floor as real == s && if x >= 0.0 then s <= x < s + 1.0 else s - 1.0 < x <= s
  }

  /** What the failure of its `n`-th attempt makes of a row: dead once the attempts are used up, or the schedule when
      there is no hint; otherwise pending after the n-th delay of the schedule, in minutes, or after the hint. */
  predicate FailsTo(row: Row, after: Row, n: int, schedule: seq<int>, retryAfter: Option<real>, now: real, maxAttempts: int) {
    if n >= maxAttempts || (retryAfter.None? && (n < 1 || n > |schedule|)) then
      after == row.(status := Dead, lockedAt := None, lockedBy := None)
    else
      && after == row.(status := Pending, lockedAt := None, lockedBy := None, runAfter := after.runAfter)
      && if retryAfter.None? then after.runAfter == now + (60 * schedule[n - 1]) as real
         else WholePart(retryAfter.value, after.runAfter - now)
  }

  lemma WholeNumber(m: int)
    ensures Truncated(m as real) == m as real
  {
    assert 0.0 - m as real == (-m) as real;
  }

  lemma IsWhole(k: int, s: real)
    requires s == k as real
    ensures s.Floor as real == s
  {
  }

  lemma Negated(k: int)
    ensures 0.0 - k as real == (-k) as real
  {
  }

  lemma TruncatedIsWhole(x: real)
    ensures WholePart(x, Truncated(x))
  {
    var s := Truncated(x);
    if x >= 0.0 {
      IsWhole(x.Floor, s);
    } else {
      Negated((0.0 - x).Floor);
      IsWhole(-(0.0 - x).Floor, s);
    }
  }

  /** `fail` does what it promises of every row, schedule and hint. */
  lemma FailedIsExact(row: Row, task: Task, schedule: seq<int>, retryAfter: Option<real>, now: real)
    ensures FailsTo(row, Failed(row, task, schedule, retryAfter, now), task.attempts, schedule, retryAfter, now, task.maxAttempts)
  {
    hide Truncated, WholePart;
    if retryAfter.Some? {
      TruncatedIsWhole(retryAfter.value);
      assert now + Truncated(retryAfter.value) - now == Truncated(retryAfter.value);
    } else if 1 <= task.attempts <= |schedule| {
      WholeNumber(60 * schedule[task.attempts - 1]);
    }
  }

  /** `ORDER BY priority DESC, run_after`. */
  predicate Sooner(a: Row, b: Row) {
    a.priority > b.priority || (a.priority == b.priority && a.runAfter < b.runAfter)
  }

  /** What became of a claimed task when its handler was run. */
  datatype Outcome = Succeeds | RateLimited(retryAfter: Option<real>) | Raises | NoHandler

  /** Zero and missing hints alike fall back on the schedule. */
  function Hint(outcome: Outcome): Option<real> {
    if outcome.RateLimited? && outcome.retryAfter.Some? && outcome.retryAfter.value != 0.0 then outcome.retryAfter
    else None
  }

  class Queue {
    var rows: Rows

    constructor ()
      ensures rows == map[]
    {
      rows := map[];
    }

    method Enqueue(freshId: TaskId, taskType: string, priority: int, runAfter: real, key: Option<string>, maxAttempts: int)
      returns (id: Option<TaskId>)
      requires freshId !in rows
      modifies this
      ensures id == if Taken(old(rows), key) then None else Some(freshId)
      ensures rows == if Taken(old(rows), key) then old(rows)
        else old(rows)[freshId := Row(taskType, priority, runAfter, key, maxAttempts, Pending, 0, None, None)]
    {
      if Clashes(rows, key) {
        return None;
      }
      rows := rows[freshId := NewRow(taskType, priority, runAfter, key, maxAttempts)];
      id := Some(freshId);
    }

    method Claim(worker: Worker, now: real, types: seq<string>) returns (task: Option<Task>)
      modifies this
      ensures task.None? ==> rows == old(rows) && forall id :: !Claimable(rows, id, now, types)
      ensures task.Some? ==>
        ComesFirst(old(rows), task.value.id, now, types) &&
        var row := old(rows)[task.value.id];
        rows == old(rows)[task.value.id := row.(status := Running, lockedAt := Some(now), lockedBy := Some(worker),
                                                attempts := row.attempts + 1)] &&
        task.value == Task(task.value.id, row.taskType, row.attempts + 1, row.maxAttempts)
    {
      var table := rows;
      var todo: set<TaskId> := table.Keys;
      var best: Option<TaskId> := None;
      while todo != {}
        invariant rows == table && todo <= table.Keys
        invariant best.None? ==> forall id :: id in rows && id !in todo ==> !Due(rows[id], now, types)
        invariant best.Some? ==> best.value in rows && Due(rows[best.value], now, types)
        invariant best.Some? ==> forall id :: id in rows && id !in todo && Due(rows[id], now, types) ==>
          !Sooner(rows[id], rows[best.value])
        decreases |todo|
      {
        var id: TaskId := Pick(todo);
        if Due(rows[id], now, types) && (best.None? || Sooner(rows[id], rows[best.value])) {
          best := Some(id);
        }
        todo := todo - {id};
      }
      if best.None? {
        return None;
      }
      rows := rows[best.value := Claimed(rows[best.value], worker, now)];
      task := Some(Snapshot(best.value, rows[best.value]));
    }

    method Complete(id: TaskId)
      modifies this
      ensures rows == if id in old(rows)
        then old(rows)[id := old(rows)[id].(status := Done, lockedAt := None, lockedBy := None)] else old(rows)
    {
      if id in rows {
        rows := rows[id := Completed(rows[id])];
      }
    }

    method Fail(task: Task, schedule: seq<int>, retryAfter: Option<real>, now: real) returns (status: Status)
      modifies this
      ensures if task.id in old(rows) then
          task.id in rows && rows == old(rows)[task.id := rows[task.id]] &&
          FailsTo(old(rows)[task.id], rows[task.id], task.attempts, schedule, retryAfter, now, task.maxAttempts) &&
          status == rows[task.id].status
        else rows == old(rows)
      ensures task.id in old(rows) ==> rows[task.id] == Failed(old(rows)[task.id], task, schedule, retryAfter, now)
    {
      if task.id in rows {
        FailedIsExact(rows[task.id], task, schedule, retryAfter, now);
      }
      if task.id in rows {
        rows := rows[task.id := Failed(rows[task.id], task, schedule, retryAfter, now)];
      }
      status := if GivesUp(task, schedule, retryAfter) then Dead else Pending;
    }

    method ReapStale(now: real, timeout: real) returns (count: nat)
      modifies this
      ensures rows.Keys == old(rows).Keys
      ensures forall id :: id in rows && Abandoned(old(rows)[id], now - timeout) ==>
        rows[id] == old(rows)[id].(status := Pending, lockedAt := None, lockedBy := None)
      ensures forall id :: id in rows && !Abandoned(old(rows)[id], now - timeout) ==> rows[id] == old(rows)[id]
      ensures count == |set id | id in old(rows) && Abandoned(old(rows)[id], now - timeout)|
    {
      var stale := set id | id in rows && Stale(rows[id], now, timeout);
      assert stale == set id | id in rows && Abandoned(rows[id], now - timeout);
      rows := ReapAll(rows, now, timeout);
      count := |stale|;
    }

    /** `run_once` with nobody else at work: claim in one transaction, run and settle in the next. */
    method RunOnce(worker: Worker, outcome: Outcome, schedule: seq<int>, claimedAt: real, settledAt: real)
      returns (ran: bool, ghost task: Option<Task>)
      modifies this
      ensures ran <==> exists id :: Claimable(old(rows), id, claimedAt, [])
      ensures !ran ==> rows == old(rows)
      ensures ran ==>
        task.Some? && ComesFirst(old(rows), task.value.id, claimedAt, []) &&
        var id, row := task.value.id, old(rows)[task.value.id];
        var held := row.(status := Running, lockedAt := Some(claimedAt), lockedBy := Some(worker), attempts := row.attempts + 1);
        id in rows && rows == old(rows)[id := rows[id]] &&
        if outcome.Succeeds? then rows[id] == held.(status := Done, lockedAt := None, lockedBy := None)
        else
          var hint := if outcome.RateLimited? && outcome.retryAfter != Some(0.0) then outcome.retryAfter else None;
          FailsTo(held, rows[id], row.attempts + 1, schedule, hint, settledAt, row.maxAttempts)
    {
      var claimed := Claim(worker, claimedAt, []);
      task := claimed;
      if claimed.None? {
        return false, None;
      }
      ran := true;
      match outcome
      case NoHandler =>
        var _ := Fail(claimed.value, schedule, None, settledAt);
      case Succeeds =>
        Complete(claimed.value.id);
      case RateLimited(_) =>
        var _ := Fail(claimed.value, schedule, Hint(outcome), settledAt);
      case Raises =>
        var _ := Fail(claimed.value, schedule, None, settledAt);
    }
  }
}
