/**
 * Any number of workers running `run_once` against one job table, as a transition system.
 * A claim, a finish and a failure each commit alone; a worker may die between any two of them.
 */
module WorkerProtocol {
  import opened Wrappers
  import opened JobQueue

  type WorkerId = nat

  const DISPATCHABLE: set<JobKind> := {Fetch, Parse, Normalize, Upsert}

  /** What the worker does with a claimed row once the dispatch has returned or raised. */
  function Closed(table: Table, id: JobId, now: int, dispatchError: Option<string>): Table {
    match dispatchError
    case None => MarkedDone(table, id)
    case Some(error) => MarkedFailed(table, id, now, error, MAX_ATTEMPTS)
  }

  /**
   * What closing the k-th attempt leaves of a row: done without error, dead after five attempts, else
   * queued again k*k seconds later.
   */
  predicate ClosedRow(was: Job, job: Job, k: nat, now: int, dispatchError: Option<string>) {
    && job.kind == was.kind && job.priority == was.priority && job.attempts == k
    && job.lastError == dispatchError
    && (dispatchError == None ==> job.status == Done && job.runAfter == was.runAfter)
    && (dispatchError != None && k >= 5 ==> job.status == DeadLetter && job.runAfter == was.runAfter)
    && (dispatchError != None && k < 5 ==> job.status == Queued && job.runAfter == now + k * k * 1_000_000)
  }

  /** One tick of one worker that is not interrupted; `dispatchError` is what the handler raised, if anything. */
  method RunOnce(jobs: JobTable, claimTime: int, markTime: int, locked: set<JobId>, dispatchError: Option<string>)
    returns (claimed: Option<JobId>)
    modifies jobs
    ensures claimed.None? <==>
              forall id | id in old(jobs.rows) && id !in locked :: !Runnable(old(jobs.rows)[id], claimTime, DISPATCHABLE)
    ensures claimed.None? ==> jobs.rows == old(jobs.rows)
    ensures claimed.Some? ==> IsNext(old(jobs.rows), claimed.value, claimTime, DISPATCHABLE, locked)
    ensures claimed.Some? ==>
              jobs.rows == Closed(Claimed(old(jobs.rows), claimed.value), claimed.value, markTime, dispatchError)
    ensures claimed.Some? ==>
              var id := claimed.value;
              && jobs.rows.Keys == old(jobs.rows).Keys
              && (forall other | other in jobs.rows && other != id :: jobs.rows[other] == old(jobs.rows)[other])
              && ClosedRow(old(jobs.rows)[id], jobs.rows[id], old(jobs.rows)[id].attempts + 1, markTime, dispatchError)
  {
    assert Fetch in DISPATCHABLE;
    var r := jobs.ClaimOne(DISPATCHABLE, claimTime, locked);
    claimed := r.value;
    if claimed.Some? {
      match dispatchError {
        case None => jobs.MarkDone(claimed.value);
        case Some(error) => jobs.MarkFailed(claimed.value, markTime, error);
      }
    }
  }

  /** `held` maps each worker that has a job in its hands to that job. */
  datatype System = System(table: Table, held: map<WorkerId, JobId>, now: int)

  datatype Step =
    | Enqueue(id: JobId, kind: JobKind, priority: int, runAfter: int)
    | Claim(worker: WorkerId, id: JobId, locked: set<JobId>)
    | Close(worker: WorkerId, dispatchError: Option<string>)
    | Crash(worker: WorkerId)
    | Tick(elapsed: nat)

  ghost predicate Next(s: System, step: Step, s': System) {
    match step
    case Enqueue(id, kind, priority, runAfter) =>
      id !in s.table && s' == s.(table := Enqueued(s.table, id, kind, priority, runAfter))
    case Claim(worker, id, locked) =>
      && worker !in s.held && IsNext(s.table, id, s.now, DISPATCHABLE, locked)
      && s' == s.(table := Claimed(s.table, id), held := s.held[worker := id])
    case Close(worker, dispatchError) =>
      && worker in s.held
      && s' == s.(table := Closed(s.table, s.held[worker], s.now, dispatchError), held := s.held - {worker})
    case Crash(worker) =>
      worker in s.held && s' == s.(held := s.held - {worker})
    case Tick(elapsed) =>
      s' == s.(now := s.now + elapsed)
  }

  /** An uninterrupted tick of a worker is a claim and a close, with time passing in between. */
  lemma UninterruptedTick(s: System, w: WorkerId, id: JobId, locked: set<JobId>, elapsed: nat,
                          dispatchError: Option<string>) returns (s1: System, s2: System, s3: System)
    requires w !in s.held && IsNext(s.table, id, s.now, DISPATCHABLE, locked)
    ensures Next(s, Claim(w, id, locked), s1) && Next(s1, Tick(elapsed), s2) && Next(s2, Close(w, dispatchError), s3)
    ensures s3.table == Closed(Claimed(s.table, id), id, s.now + elapsed, dispatchError) && s3.held == s.held
  {
    s1 := s.(table := Claimed(s.table, id), held := s.held[w := id]);
    s2 := s1.(now := s1.now + elapsed);
    s3 := s2.(table := Closed(s2.table, id, s2.now, dispatchError), held := s2.held - {w});
    assert s3.held == s.held;
  }

  /** Nobody works yet; the table holds only jobs that were never claimed. */
  ghost predicate Init(s: System) {
    && s.held == map[]
    && forall id | id in s.table :: s.table[id].status == Queued && s.table[id].attempts == 0
  }

  ghost predicate IsRun(states: seq<System>, steps: seq<Step>) {
    && |states| == |steps| + 1
    && Init(states[0])
    && forall i | 0 <= i < |steps| :: Next(states[i], steps[i], states[i + 1])
  }

  function Claims(steps: seq<Step>, id: JobId): nat {
    if steps == [] then 0
    else
      var last := steps[|steps| - 1];
      Claims(steps[..|steps| - 1], id) + if last.Claim? && last.id == id then 1 else 0
  }

  // ---- Safety ----

  ghost predicate RowSafe(job: Job) {
    && job.attempts <= MAX_ATTEMPTS
    && job.status != Failed
    && (job.status == Queued ==> job.attempts < MAX_ATTEMPTS)
    && (job.status == DeadLetter ==> job.attempts == MAX_ATTEMPTS)
    && (job.status in {Running, Done} ==> job.attempts >= 1)
  }

  ghost predicate Safe(s: System) {
    && (forall w | w in s.held :: s.held[w] in s.table && s.table[s.held[w]].status == Running)
    && (forall w, v | w in s.held && v in s.held && s.held[w] == s.held[v] :: w == v)
    && (forall id | id in s.table :: RowSafe(s.table[id]))
  }

  /** Every statement keeps the invariant, although the closing updates never look at the status. */
  lemma SafeStep(s: System, step: Step, s': System)
    requires Safe(s) && Next(s, step, s')
    ensures Safe(s')
  {
    match step {
      case Close(worker, _) =>
        var id := s.held[worker];
        assert RowSafe(s.table[id]);
        forall w | w in s'.held ensures s'.held[w] in s'.table && s'.table[s'.held[w]].status == Running {
          assert w in s.held && s.held[w] != id;
        }
      case Claim(worker, id, _) =>
        assert RowSafe(s.table[id]);
        forall w | w in s.held ensures s.held[w] != id {}
      case _ =>
    }
  }

  /**
   * In every state of every run: a job is in at most one worker's hands and then running, the
   * attempts column is the number of claims and at most five, a queued job has attempts left, a
   * dead letter has none, and no row is ever `failed`.
   */
  lemma {:induction false} QueueSafety(states: seq<System>, steps: seq<Step>, i: nat)
    requires IsRun(states, steps) && i <= |steps|
    ensures Safe(states[i])
    ensures forall id | id in states[i].table :: states[i].table[id].attempts == Claims(steps[..i], id)
    ensures forall id :: id !in states[i].table ==> Claims(steps[..i], id) == 0
  {
    if i > 0 {
      var k := i - 1;
      QueueSafety(states, steps, k);
      assert Next(states[k], steps[k], states[i]);
      SafeStep(states[k], steps[k], states[i]);
      assert steps[..i][..k] == steps[..k] && steps[..i][k] == steps[k];
      forall id
        ensures id in states[i].table ==> states[i].table[id].attempts == Claims(steps[..i], id)
        ensures id !in states[i].table ==> Claims(steps[..i], id) == 0
      {
        assert Claims(steps[..i], id) == Claims(steps[..k], id) + if steps[k].Claim? && steps[k].id == id then 1 else 0;
      }
    }
  }

  /** `done` and `dead_letter` are never left: the row never changes again. */
  lemma {:induction false} TerminalForever(states: seq<System>, steps: seq<Step>, i: nat, j: nat, id: JobId)
    requires IsRun(states, steps) && i <= j <= |steps|
    requires id in states[i].table && states[i].table[id].status in {Done, DeadLetter}
    ensures id in states[j].table && states[j].table[id] == states[i].table[id]
  {
    if i < j {
      TerminalForever(states, steps, i, j - 1, id);
      QueueSafety(states, steps, j - 1);
      assert Next(states[j - 1], steps[j - 1], states[j]);
    }
  }

  ghost predicate Orphaned(s: System, id: JobId) {
    && id in s.table && s.table[id].status == Running
    && forall w | w in s.held :: s.held[w] != id
  }

  /** A running row that no live worker holds stays as it is for ever: nothing recovers a crashed worker's job. */
  lemma {:induction false} OrphanForever(states: seq<System>, steps: seq<Step>, i: nat, j: nat, id: JobId)
    requires IsRun(states, steps) && i <= j <= |steps|
    requires Orphaned(states[i], id)
    ensures Orphaned(states[j], id) && states[j].table[id] == states[i].table[id]
  {
    if i < j {
      OrphanForever(states, steps, i, j - 1, id);
      assert Next(states[j - 1], steps[j - 1], states[j]);
    }
  }

  /** A row is orphaned exactly by a crash of the worker that holds it. */
  lemma OrphanedByCrash(states: seq<System>, steps: seq<Step>, i: nat, id: JobId)
    requires IsRun(states, steps) && i < |steps|
    ensures !Orphaned(states[i], id) && Orphaned(states[i + 1], id) <==>
              && steps[i].Crash? && steps[i].worker in states[i].held
              && states[i].held[steps[i].worker] == id
  {
    QueueSafety(states, steps, i);
    OrphanStep(states[i], steps[i], states[i + 1], id);
  }

  lemma OrphanStep(s: System, step: Step, s': System, id: JobId)
    requires Safe(s) && Next(s, step, s')
    ensures !Orphaned(s, id) && Orphaned(s', id) <==> step.Crash? && s.held[step.worker] == id
  {
    if !Orphaned(s, id) && Orphaned(s', id) {
      match step {
        case Claim(worker, claimed, _) =>
          assert s'.held[worker] == claimed;
          forall v | v in s.held ensures s.held[v] != id {
            assert v in s'.held;
          }
        case Enqueue(_, _, _, _) =>
        case Tick(_) =>
        case _ =>
          if s.held[step.worker] != id {
            forall v | v in s.held ensures s.held[v] != id {
              assert v == step.worker || v in s'.held;
            }
          }
      }
    }
    if step.Crash? && s.held[step.worker] == id {
      forall v | v in s'.held ensures s'.held[v] != id {
        assert v in s.held && v != step.worker;
      }
    }
  }

  // ---- What the steps do ----

  ghost predicate ClosesAt(states: seq<System>, steps: seq<Step>, i: nat, id: JobId)
    requires IsRun(states, steps) && i < |steps|
  {
    steps[i].Close? && steps[i].worker in states[i].held && states[i].held[steps[i].worker] == id
  }

  /** A close ends the attempt the holder has claimed: the number of claims in the history, not a column, decides. */
  lemma CloseOutcome(states: seq<System>, steps: seq<Step>, i: nat, id: JobId)
    requires IsRun(states, steps) && i < |steps| && ClosesAt(states, steps, i, id)
    ensures id in states[i].table && id in states[i + 1].table
    ensures ClosedRow(states[i].table[id], states[i + 1].table[id], Claims(steps[..i], id), states[i].now,
                      steps[i].dispatchError)
    ensures steps[i].worker !in states[i + 1].held
  {
    QueueSafety(states, steps, i);
    assert Next(states[i], steps[i], states[i + 1]);
  }

  /** A row becomes `done` in a step if and only if its holder closes it without an error. */
  lemma DoneMeansSucceeded(states: seq<System>, steps: seq<Step>, i: nat, id: JobId)
    requires IsRun(states, steps) && i < |steps|
    ensures id in states[i + 1].table && states[i + 1].table[id].status == Done
            && !(id in states[i].table && states[i].table[id].status == Done)
            <==> ClosesAt(states, steps, i, id) && steps[i].dispatchError == None
  {
    QueueSafety(states, steps, i);
    assert Next(states[i], steps[i], states[i + 1]);
    if ClosesAt(states, steps, i, id) {
      CloseOutcome(states, steps, i, id);
    }
  }

  /** A row becomes a dead letter in a step if and only if its holder closes its fifth attempt with an error. */
  lemma DeadMeansFailedFiveTimes(states: seq<System>, steps: seq<Step>, i: nat, id: JobId)
    requires IsRun(states, steps) && i < |steps|
    ensures id in states[i + 1].table && states[i + 1].table[id].status == DeadLetter
            && !(id in states[i].table && states[i].table[id].status == DeadLetter)
            <==> ClosesAt(states, steps, i, id) && steps[i].dispatchError != None && Claims(steps[..i], id) == 5
  {
    QueueSafety(states, steps, i);
    assert Next(states[i], steps[i], states[i + 1]);
    if ClosesAt(states, steps, i, id) {
      CloseOutcome(states, steps, i, id);
    }
  }

  /** A job that was dispatched successfully is never dispatched again. */
  lemma SucceededNeverClaimedAgain(states: seq<System>, steps: seq<Step>, i: nat, j: nat, id: JobId)
    requires IsRun(states, steps) && i < j < |steps|
    requires ClosesAt(states, steps, i, id) && steps[i].dispatchError == None
    ensures !(steps[j].Claim? && steps[j].id == id)
    ensures id in states[j].table && states[j].table[id].status == Done
  {
    CloseOutcome(states, steps, i, id);
    TerminalForever(states, steps, i + 1, j, id);
    assert Next(states[j], steps[j], states[j + 1]);
  }

  /** A claim takes a queued row that is due, and before any less urgent one that nobody holds locked. */
  lemma ClaimOutcome(states: seq<System>, steps: seq<Step>, i: nat)
    requires IsRun(states, steps) && i < |steps| && steps[i].Claim?
    ensures var id := steps[i].id;
            && id in states[i].table && id in states[i + 1].table
            && var was := states[i].table[id];
            && was.status == Queued && was.runAfter <= states[i].now
            && states[i + 1].table[id] == was.(status := Running, attempts := was.attempts + 1)
            && steps[i].worker in states[i + 1].held && states[i + 1].held[steps[i].worker] == id
            && forall other | other in states[i].table && other !in steps[i].locked
                              && states[i].table[other].status == Queued && states[i].table[other].runAfter <= states[i].now ::
                 || was.priority < states[i].table[other].priority
                 || (was.priority == states[i].table[other].priority && was.runAfter <= states[i].table[other].runAfter)
  {
    var s := states[i];
    assert Next(s, steps[i], states[i + 1]);
    forall other | other in s.table && other !in steps[i].locked && s.table[other].status == Queued
                   && s.table[other].runAfter <= s.now
      ensures Ahead(s.table[steps[i].id], s.table[other])
    {
      EveryKindDispatched(s.table[other].kind);
      assert Runnable(s.table[other], s.now, DISPATCHABLE);
    }
  }

  lemma EveryKindDispatched(kind: JobKind)
    ensures kind in DISPATCHABLE
  {
  }

  /** No row is removed, and a row changes only when it is claimed, or closed by its holder. */
  lemma OtherRowsUntouched(states: seq<System>, steps: seq<Step>, i: nat, id: JobId)
    requires IsRun(states, steps) && i < |steps| && id in states[i].table
    ensures id in states[i + 1].table
    ensures states[i + 1].table[id] != states[i].table[id] ==>
              ClosesAt(states, steps, i, id) || (steps[i].Claim? && steps[i].id == id)
  {
    assert Next(states[i], steps[i], states[i + 1]);
  }

  // ---- A budget of worker steps ----

  function Weight(job: Job): int {
    match job.status
    case Queued => 2 * (MAX_ATTEMPTS - job.attempts)
    case Running => 2 * (MAX_ATTEMPTS - job.attempts) + 1
    case _ => 0
  }

  ghost function Potential(table: Table): int {
    if table == map[] then 0
    else
      var id :| id in table;
      Weight(table[id]) + Potential(table - {id})
  }

  lemma {:induction false} PotentialSplit(table: Table, id: JobId)
    requires id in table
    ensures Potential(table) == Weight(table[id]) + Potential(table - {id})
    decreases |table|
  {
    var x :| x in table && Potential(table) == Weight(table[x]) + Potential(table - {x});
    if x != id {
      PotentialSplit(table - {x}, id);
      PotentialSplit(table - {id}, x);
      assert table - {x} - {id} == table - {id} - {x};
    }
  }

  lemma PotentialUpdate(table: Table, id: JobId, job: Job)
    ensures Potential(table[id := job]) ==
              Potential(table) + Weight(job) - if id in table then Weight(table[id]) else 0
  {
    var after := table[id := job];
    PotentialSplit(after, id);
    assert after - {id} == table - {id};
    if id in table {
      PotentialSplit(table, id);
    } else {
      assert table - {id} == table;
    }
  }

  lemma {:induction false} PotentialNonNegative(table: Table)
    requires forall id | id in table :: RowSafe(table[id])
    ensures Potential(table) >= 0
    decreases |table|
  {
    if table != map[] {
      var id :| id in table;
      PotentialSplit(table, id);
      assert RowSafe(table[id]);
      PotentialNonNegative(table - {id});
    }
  }

  function WorkerSteps(steps: seq<Step>): nat {
    if steps == [] then 0
    else
      WorkerSteps(steps[..|steps| - 1]) + if steps[|steps| - 1].Claim? || steps[|steps| - 1].Close? then 1 else 0
  }

  function Enqueues(steps: seq<Step>): nat {
    if steps == [] then 0
    else Enqueues(steps[..|steps| - 1]) + if steps[|steps| - 1].Enqueue? then 1 else 0
  }

  /**
   * A claim uses up exactly one unit and so does a failure that requeues; a job that ends early
   * forfeits what it had left.
   */
  lemma StepSpends(s: System, step: Step, s': System)
    requires Safe(s) && Next(s, step, s')
    ensures step.Enqueue? ==> Potential(s'.table) == Potential(s.table) + 2 * MAX_ATTEMPTS
    ensures step.Claim? ==> Potential(s'.table) == Potential(s.table) - 1
    ensures step.Close? ==> Potential(s'.table) <= Potential(s.table) - 1
    ensures step.Close? && step.dispatchError.Some? ==> Potential(s'.table) == Potential(s.table) - 1
    ensures step.Crash? || step.Tick? ==> Potential(s'.table) == Potential(s.table)
  {
    match step {
      case Enqueue(id, kind, priority, runAfter) =>
        PotentialUpdate(s.table, id, Job(kind, priority, 0, runAfter, Queued, None));
      case Claim(_, id, _) =>
        PotentialUpdate(s.table, id, s'.table[id]);
      case Close(worker, _) =>
        var id := s.held[worker];
        assert RowSafe(s.table[id]);
        PotentialUpdate(s.table, id, s'.table[id]);
      case _ =>
    }
  }

  lemma {:induction false} BudgetBetween(states: seq<System>, steps: seq<Step>, i: nat)
    requires IsRun(states, steps) && i <= |steps|
    ensures WorkerSteps(steps[..i]) + Potential(states[i].table)
              <= Potential(states[0].table) + 2 * MAX_ATTEMPTS * Enqueues(steps[..i])
  {
    if i > 0 {
      BudgetBetween(states, steps, i - 1);
      QueueSafety(states, steps, i - 1);
      assert Next(states[i - 1], steps[i - 1], states[i]);
      StepSpends(states[i - 1], steps[i - 1], states[i]);
      assert steps[..i][..i - 1] == steps[..i - 1];
    }
  }

  lemma {:induction false} FreshPotential(table: Table)
    requires forall id | id in table :: table[id].status == Queued && table[id].attempts == 0
    ensures Potential(table) == 2 * MAX_ATTEMPTS * |table|
    decreases |table|
  {
    if table != map[] {
      var id :| id in table;
      PotentialSplit(table, id);
      assert (table - {id}).Keys == table.Keys - {id};
      FreshPotential(table - {id});
    }
  }

  /** However the workers interleave, crash and retry: at most ten claims and closes for every job ever submitted. */
  lemma WorkerBudget(states: seq<System>, steps: seq<Step>)
    requires IsRun(states, steps)
    ensures WorkerSteps(steps) <= 10 * (|states[0].table| + Enqueues(steps))
  {
    var n := |steps|;
    assert steps[..n] == steps;
    BudgetBetween(states, steps, n);
    QueueSafety(states, steps, n);
    PotentialNonNegative(states[n].table);
    FreshPotential(states[0].table);
  }

  // ---- The back-off schedule ----

  /** Seconds of back-off a job has behind it when it is claimed for the k-th time: 1 + 4 + ... + (k-1)^2. */
  function Waited(k: nat): nat {
    if k == 0 then 0 else Waited(k - 1) + (k - 1) * (k - 1)
  }

  lemma {:induction false} WaitedClosedForm(k: nat)
    ensures 6 * Waited(k) == if k == 0 then 0 else (k - 1) * k * (2 * k - 1)
  {
    if k > 0 {
      WaitedClosedForm(k - 1);
      SquarePyramid(k - 1);
    }
  }

  lemma SquarePyramid(a: int)
    ensures (a - 1) * a * (2 * a - 1) + 6 * (a * a) == a * (a + 1) * (2 * a + 1)
  {
    var q, c := a * a, a * a * a;
    assert (a - 1) * a * (2 * a - 1) == 2 * c - 3 * q + a;
    assert a * (a + 1) * (2 * a + 1) == 2 * c + 3 * q + a;
  }

  lemma {:induction false} ClockMonotone(states: seq<System>, steps: seq<Step>, i: nat, j: nat)
    requires IsRun(states, steps) && i <= j <= |steps|
    ensures states[i].now <= states[j].now
  {
    if i < j {
      ClockMonotone(states, steps, i, j - 1);
      assert Next(states[j - 1], steps[j - 1], states[j]);
    }
  }

  /** A queued row is left alone, by every worker, until its `run_after` has come. */
  lemma {:induction false} QueuedUntilDue(states: seq<System>, steps: seq<Step>, i: nat, j: nat, id: JobId)
    requires IsRun(states, steps) && i <= j <= |steps|
    requires id in states[i].table && states[i].table[id].status == Queued
    ensures id in states[j].table
    ensures states[j].table[id] == states[i].table[id] || states[j].now >= states[i].table[id].runAfter
  {
    if i < j {
      QueuedUntilDue(states, steps, i, j - 1, id);
      QueueSafety(states, steps, j - 1);
      QueuedStep(states[j - 1], steps[j - 1], states[j], id);
    }
  }

  lemma QueuedStep(s: System, step: Step, s': System, id: JobId)
    requires Safe(s) && Next(s, step, s') && id in s.table
    ensures id in s'.table && s'.now >= s.now
    ensures s.table[id].status == Queued ==> s'.table[id] == s.table[id] || s.now >= s.table[id].runAfter
  {
  }

  ghost predicate FailsAt(states: seq<System>, steps: seq<Step>, i: nat, id: JobId)
    requires IsRun(states, steps) && i < |steps|
  {
    && steps[i].Close? && steps[i].dispatchError.Some?
    && steps[i].worker in states[i].held && states[i].held[steps[i].worker] == id
  }

  /** A job whose k-th attempt fails, with k < 5, is not claimed again for k*k seconds, by any worker. */
  lemma NoEarlyReclaim(states: seq<System>, steps: seq<Step>, i: nat, j: nat, id: JobId)
    requires IsRun(states, steps) && i < j < |steps|
    requires FailsAt(states, steps, i, id)
    requires steps[j].Claim? && steps[j].id == id
    ensures states[j].now >= states[i].now + Backoff(Claims(steps[..i], id))
  {
    QueueSafety(states, steps, i);
    assert Next(states[i], steps[i], states[i + 1]);
    assert Next(states[j], steps[j], states[j + 1]);
    if states[i + 1].table[id].status == Queued {
      QueuedUntilDue(states, steps, i + 1, j, id);
    } else {
      TerminalForever(states, steps, i + 1, j, id);
    }
  }

  /** How late it is, for a job with this row, if `start` was the time at which it had waited `base` seconds. */
  ghost predicate Paced(job: Job, now: int, start: int, base: nat) {
    && (job.status == Running ==> now >= start + SECOND * (Waited(job.attempts) - base))
    && (job.status == Queued ==> job.runAfter >= start + SECOND * (Waited(job.attempts + 1) - base))
    && (job.status == DeadLetter ==> now >= start + SECOND * (Waited(MAX_ATTEMPTS) - base))
  }

  lemma ClaimedRowPaced(job: Job, now: int)
    requires job.status == Running
    ensures Paced(job, now, now, Waited(job.attempts))
  {
  }

  lemma FailedRowPaced(job: Job, now: int, error: string, start: int, base: nat)
    requires RowSafe(job) && job.status == Running && Paced(job, now, start, base)
    ensures Paced(FailedRow(job, now, error, MAX_ATTEMPTS), now, start, base)
  {
    assert Waited(job.attempts + 1) == Waited(job.attempts) + job.attempts * job.attempts;
  }

  lemma PacedStep(s: System, step: Step, s': System, id: JobId, start: int, base: nat)
    requires Safe(s) && Next(s, step, s') && id in s.table && Paced(s.table[id], s.now, start, base)
    ensures id in s'.table && Paced(s'.table[id], s'.now, start, base)
  {
    if step.Close? && s.held[step.worker] == id && step.dispatchError.Some? {
      FailedRowPaced(s.table[id], s.now, step.dispatchError.value, start, base);
    }
  }

  /** From a claim onwards every attempt of the job keeps to the quadratic schedule. */
  lemma {:induction false} BackoffSchedule(states: seq<System>, steps: seq<Step>, i: nat, j: nat, id: JobId)
    requires IsRun(states, steps) && i < j <= |steps|
    requires steps[i].Claim? && steps[i].id == id
    ensures id in states[j].table
    ensures Paced(states[j].table[id], states[j].now, states[i].now, Waited(Claims(steps[..i], id) + 1))
  {
    QueueSafety(states, steps, i);
    assert Next(states[i], steps[i], states[i + 1]);
    if i + 1 == j {
      ClaimedRowPaced(states[j].table[id], states[i].now);
    } else {
      BackoffSchedule(states, steps, i, j - 1, id);
      QueueSafety(states, steps, j - 1);
      assert Next(states[j - 1], steps[j - 1], states[j]);
      PacedStep(states[j - 1], steps[j - 1], states[j], id, states[i].now, Waited(Claims(steps[..i], id) + 1));
    }
  }

  /** Dead-lettering takes at least 1 + 4 + 9 + 16 = 30 seconds from the first claim. */
  lemma DeadLetterTakesThirtySeconds(states: seq<System>, steps: seq<Step>, i: nat, j: nat, id: JobId)
    requires IsRun(states, steps) && i < j <= |steps|
    requires steps[i].Claim? && steps[i].id == id && Claims(steps[..i], id) == 0
    requires id in states[j].table && states[j].table[id].status == DeadLetter
    ensures states[j].now >= states[i].now + 30 * SECOND
  {
    BackoffSchedule(states, steps, i, j, id);
    WaitedClosedForm(1);
    WaitedClosedForm(MAX_ATTEMPTS);
  }
}
