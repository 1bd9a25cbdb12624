/** The Postgres job queue: one table of job rows, changed by four statements. */
module JobQueue {
  import opened Wrappers

  type JobId = nat

  datatype JobKind = Fetch | Parse | Normalize | Upsert

  datatype Status = Queued | Running | Done | Failed | DeadLetter

  /** Times are in microseconds, the resolution of TIMESTAMPTZ. */
  datatype Job = Job(kind: JobKind, priority: int, attempts: nat, runAfter: int,
                     status: Status, lastError: Option<string>)

  type Table = map<JobId, Job>

  datatype QueueError = NoKinds | DuplicateJobId

  const MAX_ATTEMPTS: nat := 5
  const SECOND: int := 1_000_000

  predicate Runnable(job: Job, now: int, kinds: set<JobKind>) {
    job.status == Queued && job.runAfter <= now && job.kind in kinds
  }

  /** ORDER BY priority ASC, run_after ASC. */
  predicate Ahead(a: Job, b: Job) {
    a.priority < b.priority || (a.priority == b.priority && a.runAfter <= b.runAfter)
  }

  /** `id` may be returned by the claiming SELECT when the rows in `locked` are skipped. */
  predicate IsNext(table: Table, id: JobId, now: int, kinds: set<JobKind>, locked: set<JobId>) {
    && id in table && id !in locked && Runnable(table[id], now, kinds)
    && forall other | other in table && other !in locked && Runnable(table[other], now, kinds) ::
         Ahead(table[id], table[other])
  }

  function Enqueued(table: Table, id: JobId, kind: JobKind, priority: int, runAfter: int): Table {
    table[id := Job(kind, priority, 0, runAfter, Queued, None)]
  }

  function Claimed(table: Table, id: JobId): Table
    requires id in table
  {
    table[id := table[id].(status := Running, attempts := table[id].attempts + 1)]
  }

  /** An UPDATE whose WHERE clause names only the job id: no row, no change; the status is not tested. */
  function MarkedDone(table: Table, id: JobId): Table {
    if id in table then table[id := table[id].(status := Done, lastError := None)] else table
  }

  function Backoff(attempts: nat): int {
    attempts * attempts * SECOND
  }

  function FailedRow(job: Job, now: int, error: string, maxAttempts: int): Job {
    if job.attempts >= maxAttempts then
      job.(status := DeadLetter, lastError := Some(error))
    else
      job.(status := Queued, lastError := Some(error), runAfter := now + Backoff(job.attempts))
  }

  function MarkedFailed(table: Table, id: JobId, now: int, error: string, maxAttempts: int): Table {
    if id in table then table[id := FailedRow(table[id], now, error, maxAttempts)] else table
  }

  /** A finite non-empty set of runnable rows has one that ORDER BY ... LIMIT 1 may return. */
  lemma {:induction false} NextExists(table: Table, pool: set<JobId>)
    requires pool != {}
    requires forall id | id in pool :: id in table
    ensures exists id | id in pool :: forall other | other in pool :: Ahead(table[id], table[other])
    decreases |pool|
  {
    var x :| x in pool;
    var rest := pool - {x};
    if rest == {} {
      assert pool == {x};
    } else {
      NextExists(table, rest);
      var y :| y in rest && forall other | other in rest :: Ahead(table[y], table[other]);
      var best := if Ahead(table[x], table[y]) then x else y;
      assert best in pool && forall other | other in pool :: Ahead(table[best], table[other]);
    }
  }

  class JobTable {
    var rows: Table

    constructor ()
      ensures rows == map[]
    {
      rows := map[];
    }

    /** INSERT of a queued row; the UNIQUE constraint on the id makes a repeated id an error. */
    method Enqueue(id: JobId, kind: JobKind, priority: int, runAfter: Option<int>, now: int)
      returns (r: Result<JobId, QueueError>)
      modifies this
      ensures id in old(rows) ==> r == Err(DuplicateJobId) && rows == old(rows)
      ensures id !in old(rows) ==> r == Ok(id)
      ensures id !in old(rows) ==>
                rows == Enqueued(old(rows), id, kind, priority, if runAfter.Some? then runAfter.value else now)
      ensures id !in old(rows) ==>
                && rows[id].status == Queued && rows[id].attempts == 0 && rows[id].lastError == None
                && rows[id].kind == kind && rows[id].priority == priority
                && rows[id].runAfter == if runAfter.Some? then runAfter.value else now
    {
      if id in rows {
        return Err(DuplicateJobId);
      }
      var due := match runAfter case Some(t) => t case None => now;
      rows := rows[id := Job(kind, priority, 0, due, Queued, None)];
      r := Ok(id);
    }

    /** Claims the most urgent runnable row that no other transaction holds locked. */
    method ClaimOne(kinds: set<JobKind>, now: int, locked: set<JobId>)
      returns (r: Result<Option<JobId>, QueueError>)
      modifies this
      ensures r.Err? <==> kinds == {}
      ensures r.Ok? && r.value.None? <==>
                kinds != {} && forall id | id in old(rows) && id !in locked :: !Runnable(old(rows)[id], now, kinds)
      ensures r.Ok? && r.value.Some? ==>
                IsNext(old(rows), r.value.value, now, kinds, locked) && rows == Claimed(old(rows), r.value.value)
      ensures r.Ok? && r.value.Some? ==>
                var was, job := old(rows)[r.value.value], rows[r.value.value];
                && was.status == Queued && was.runAfter <= now && was.kind in kinds && r.value.value !in locked
                && job == was.(status := Running, attempts := was.attempts + 1)
                && forall other | other in old(rows) && other !in locked && old(rows)[other].status == Queued
                                  && old(rows)[other].runAfter <= now && old(rows)[other].kind in kinds ::
                     || was.priority < old(rows)[other].priority
                     || (was.priority == old(rows)[other].priority && was.runAfter <= old(rows)[other].runAfter)
      ensures r.Ok? && r.value.None? ==>
                forall id | id in old(rows) && id !in locked && old(rows)[id].status == Queued && old(rows)[id].kind in kinds ::
                  old(rows)[id].runAfter > now
      ensures r.Err? || r.value.None? ==> rows == old(rows)
    {
      if kinds == {} {
        return Err(NoKinds);
      }
      var pool := set id | id in rows && id !in locked && Runnable(rows[id], now, kinds);
      if pool == {} {
        assert forall id | id in rows && id !in locked :: !Runnable(rows[id], now, kinds) by {
          forall id | id in rows && id !in locked ensures !Runnable(rows[id], now, kinds) {
            assert id !in pool;
          }
        }
        return Ok(None);
      }
      NextExists(rows, pool);
      var id :| id in pool && forall other | other in pool :: Ahead(rows[id], rows[other]);
      var job := rows[id];
      rows := rows[id := job.(status := Running, attempts := job.attempts + 1)];
      r := Ok(Some(id));
    }

    method MarkDone(id: JobId)
      modifies this
      ensures rows == MarkedDone(old(rows), id)
    {
      if id in rows {
        rows := rows[id := rows[id].(status := Done, lastError := None)];
      }
    }

    method MarkFailed(id: JobId, now: int, error: string, maxAttempts: int := MAX_ATTEMPTS)
      modifies this
      ensures rows == MarkedFailed(old(rows), id, now, error, maxAttempts)
    {
      if id in rows {
        var job := rows[id];
        var exhausted := job.attempts >= maxAttempts;
        rows := rows[id := job.(
          status := if exhausted then DeadLetter else Queued,
          lastError := Some(error),
          runAfter := if exhausted then job.runAfter else now + job.attempts * job.attempts * SECOND)];
      }
    }
  }
}
