/** Review tasks and their append-only audit log. */
module Review {
  import opened Wrappers
  import opened Sorting

  type Uuid = nat

  /** `OtherKind` stands for any string that is not one of the accepted kinds. */
  datatype Kind = EntityResolutionTask | VerdictTask | ConflictTask | DeclarationTask | OtherKind(name: string)

  datatype TaskStatus = Open | Claimed | Resolved | Escalated

  datatype Action = Approve | Reject | Relink | Annotate | Escalate

  /** `machineVerdict` is the payload's entry of that name, if it has one. */
  datatype Payload = Payload(text: string, machineVerdict: Option<string>)

  datatype Task = Task(taskId: Uuid, kind: Kind, status: TaskStatus, priority: int, payload: Payload,
                       assignedTo: Option<string>)

  datatype Diff = Diff(notes: Option<string>, reviewerOverride: bool, originalMachine: Option<string>, spanIds: seq<string>)

  /** `task` is the primary key of the task row. */
  datatype ActionRow = ActionRow(task: nat, actor: string, action: Action, diff: Diff)

  /** Both tables; the primary key of a task is its position. */
  datatype Tables = Tables(tasks: seq<Task>, actions: seq<ActionRow>)

  datatype ReviewError = InvalidKind | DuplicateTaskId

  predicate Terminal(status: TaskStatus) {
    status in {Resolved, Escalated}
  }

  function DecisionStatus(action: Action): TaskStatus {
    match action
    case Approve | Reject | Relink => Resolved
    case Annotate => Open
    case Escalate => Escalated
  }

  function ParseAction(decision: string): Option<Action> {
    if decision == "approve" then Some(Approve)
    else if decision == "reject" then Some(Reject)
    else if decision == "relink" then Some(Relink)
    else if decision == "annotate" then Some(Annotate)
    else if decision == "escalate" then Some(Escalate)
    else None
  }

  function NotesDiff(notes: Option<string>): Diff {
    Diff(if notes == Some("") then None else notes, false, None, [])
  }

  /** Rejecting a verdict records the reviewer's override beside the machine's own verdict. */
  function EnrichedDiff(task: Task, action: Action, diff: Diff): Diff {
    if action != Reject || task.kind != VerdictTask then diff
    else diff.(reviewerOverride := true, originalMachine := task.payload.machineVerdict)
  }

  /** The row that carries `taskId`; the column is UNIQUE. */
  function Find(tasks: seq<Task>, taskId: Uuid): (r: Option<nat>)
    ensures r.Some? ==> r.value < |tasks| && tasks[r.value].taskId == taskId
    ensures r.None? ==> forall t | t in tasks :: t.taskId != taskId
  {
    if tasks == [] then None
    else if tasks[|tasks| - 1].taskId == taskId then Some(|tasks| - 1)
    else
      assert tasks == tasks[..|tasks| - 1] + [tasks[|tasks| - 1]];
      Find(tasks[..|tasks| - 1], taskId)
  }

  datatype Event =
    | OpenTask(taskId: Uuid, kind: Kind, payload: Payload, priority: int)
    | ResolveTask(taskId: Uuid, decision: string, reviewer: string, notes: Option<string>)
    | ConfirmSpans(task: nat, spanIds: seq<string>, reviewer: string)

  /** Whether the call changes anything; otherwise it raises, or returns None or False. */
  predicate Accepted(t: Tables, event: Event) {
    match event
    case OpenTask(taskId, kind, _, _) => !kind.OtherKind? && Find(t.tasks, taskId).None?
    case ResolveTask(taskId, decision, _, _) => ParseAction(decision).Some? && Find(t.tasks, taskId).Some?
    case ConfirmSpans(task, spanIds, _) => spanIds != [] && task < |t.tasks|
  }

  /** The task row and the audit row of a decision about an unfinished task. */
  function Decided(t: Tables, k: nat, action: Action, reviewer: string, diff: Diff): Tables
    requires k < |t.tasks|
  {
    Tables(t.tasks[k := t.tasks[k].(status := DecisionStatus(action), assignedTo := Some(reviewer))],
           t.actions + [ActionRow(k, reviewer, action, diff)])
  }

  function Apply(t: Tables, event: Event): Tables {
    if !Accepted(t, event) then t
    else
      match event
      case OpenTask(taskId, kind, payload, priority) =>
        t.(tasks := t.tasks + [Task(taskId, kind, Open, priority, payload, None)])
      case ResolveTask(taskId, decision, reviewer, notes) =>
        var row := Find(t.tasks, taskId).value;
        var task, action, diff := t.tasks[row], ParseAction(decision).value, NotesDiff(notes);
        if Terminal(task.status) then
          t.(actions := t.actions + [ActionRow(row, reviewer, action, diff)])
        else
          Decided(t, row, action, reviewer, EnrichedDiff(task, action, diff))
      case ConfirmSpans(task, spanIds, reviewer) =>
        t.(actions := t.actions + [ActionRow(task, reviewer, Annotate, Diff(None, false, None, spanIds))])
  }

  class ReviewRepository {
    var tasks: seq<Task>
    var actions: seq<ActionRow>

    constructor ()
      ensures tasks == [] && actions == []
    {
      tasks, actions := [], [];
    }

    method OpenReviewTask(taskId: Uuid, kind: Kind, payload: Payload, priority: int := 0)
      returns (r: Result<Uuid, ReviewError>)
      modifies this
      ensures Tables(tasks, actions) == Apply(old(Tables(tasks, actions)), OpenTask(taskId, kind, payload, priority))
      ensures r.Ok? <==> old(Accepted(Tables(tasks, actions), OpenTask(taskId, kind, payload, priority)))
      ensures r.Ok? ==> r.value == taskId
    {
      if kind.OtherKind? {
        return Err(InvalidKind);
      }
      if Find(tasks, taskId).Some? {
        return Err(DuplicateTaskId);
      }
      tasks := tasks + [Task(taskId, kind, Open, priority, payload, None)];
      r := Ok(taskId);
    }

    method ResolveTask(taskId: Uuid, decision: string, reviewer: string, notes: Option<string>)
      returns (r: Option<Task>)
      modifies this
      ensures Tables(tasks, actions) ==
                Apply(old(Tables(tasks, actions)), Event.ResolveTask(taskId, decision, reviewer, notes))
      ensures r.Some? <==> old(Accepted(Tables(tasks, actions), Event.ResolveTask(taskId, decision, reviewer, notes)))
      ensures r.Some? ==> r.value == tasks[Find(old(tasks), taskId).value]
    {
      var action := ParseAction(decision);
      if action.None? {
        return None;
      }
      var row := Find(tasks, taskId);
      if row.None? {
        return None;
      }
      var task := tasks[row.value];
      var diff := NotesDiff(notes);
      if Terminal(task.status) {
        actions := actions + [ActionRow(row.value, reviewer, action.value, diff)];
        return Some(task);
      }
      diff := EnrichedDiff(task, action.value, diff);
      var updated := task.(status := DecisionStatus(action.value), assignedTo := Some(reviewer));
      tasks := tasks[row.value := updated];
      actions := actions + [ActionRow(row.value, reviewer, action.value, diff)];
      r := Some(updated);
    }

    /** `task` is the row of a task read earlier; its status is not read again. */
    method AppendSpanConfirmation(task: nat, spanIds: seq<string>, reviewer: string) returns (recorded: bool)
      requires task < |tasks|
      modifies this`actions
      ensures Tables(tasks, actions) == Apply(old(Tables(tasks, actions)), ConfirmSpans(task, spanIds, reviewer))
      ensures recorded <==> spanIds != []
    {
      if spanIds == [] {
        return false;
      }
      actions := actions + [ActionRow(task, reviewer, Annotate, Diff(None, false, None, spanIds))];
      recorded := true;
    }

    method ListOpenTasks(limit: nat := 50) returns (rows: seq<nat>)
      ensures MostUrgent(tasks, limit, rows)
    {
      WorklistIsMostUrgent(tasks, limit);
      rows := Worklist(tasks, limit);
    }
  }

  // ---- Replaying the log ----

  function RunFrom(t: Tables, events: seq<Event>): Tables {
    if events == [] then t else Apply(RunFrom(t, events[..|events| - 1]), events[|events| - 1])
  }

  lemma RunOneMore(t: Tables, events: seq<Event>, event: Event)
    ensures RunFrom(t, events + [event]) == Apply(RunFrom(t, events), event)
  {
    assert (events + [event])[..|events|] == events;
  }

  function Run(events: seq<Event>): Tables {
    RunFrom(Tables([], []), events)
  }

  /** What the audit log says about one task: its status, who it is assigned to, and the action that closed it. */
  datatype Replayed = Replayed(status: TaskStatus, assignedTo: Option<string>, closedBy: Option<Action>)

  /** A terminal status absorbs; a span confirmation assigns nobody; else the decision table applies. */
  function ReplayRow(state: Replayed, row: ActionRow): Replayed {
    if Terminal(state.status) then state
    else
      var status := DecisionStatus(row.action);
      Replayed(status, if row.diff.spanIds != [] then state.assignedTo else Some(row.actor),
               if Terminal(status) then Some(row.action) else None)
  }

  function Replay(actions: seq<ActionRow>, task: nat): Replayed {
    if actions == [] then Replayed(Open, None, None)
    else
      var last := actions[|actions| - 1];
      var state := Replay(actions[..|actions| - 1], task);
      if last.task == task then ReplayRow(state, last) else state
  }

  lemma ReplayAppend(actions: seq<ActionRow>, row: ActionRow, task: nat)
    ensures Replay(actions + [row], task) ==
              if row.task == task then ReplayRow(Replay(actions, task), row) else Replay(actions, task)
  {
    assert (actions + [row])[..|actions|] == actions;
  }

  lemma {:induction false} NoRowsNoReplay(actions: seq<ActionRow>, task: nat)
    requires forall row | row in actions :: row.task < task
    ensures Replay(actions, task) == Replayed(Open, None, None)
  {
    if actions != [] {
      assert actions[|actions| - 1] in actions;
      forall row | row in actions[..|actions| - 1] ensures row.task < task {
        assert row in actions;
      }
      NoRowsNoReplay(actions[..|actions| - 1], task);
    }
  }

  /** How often the log says that a reviewer overrode the machine verdict of `task`. */
  function Overrides(actions: seq<ActionRow>, task: nat): nat {
    if actions == [] then 0
    else
      var last := actions[|actions| - 1];
      Overrides(actions[..|actions| - 1], task) + if last.task == task && last.diff.reviewerOverride then 1 else 0
  }

  lemma OverridesAppend(actions: seq<ActionRow>, row: ActionRow, task: nat)
    ensures Overrides(actions + [row], task) ==
              Overrides(actions, task) + if row.task == task && row.diff.reviewerOverride then 1 else 0
  {
    assert (actions + [row])[..|actions|] == actions;
  }

  lemma {:induction false} NoRowsNoOverrides(actions: seq<ActionRow>, task: nat)
    requires forall row | row in actions :: row.task < task
    ensures Overrides(actions, task) == 0
  {
    if actions != [] {
      assert actions[|actions| - 1] in actions;
      forall row | row in actions[..|actions| - 1] ensures row.task < task {
        assert row in actions;
      }
      NoRowsNoOverrides(actions[..|actions| - 1], task);
    }
  }

  ghost predicate TaskMatchesLog(t: Tables, task: nat)
    requires task < |t.tasks|
  {
    var state := Replay(t.actions, task);
    && t.tasks[task].status == state.status
    && t.tasks[task].assignedTo == state.assignedTo
    && t.tasks[task].status != Claimed
    && (state.closedBy.Some? <==> Terminal(state.status))
    && Overrides(t.actions, task) == (if t.tasks[task].kind == VerdictTask && state.closedBy == Some(Reject) then 1 else 0)
  }

  ghost predicate Consistent(t: Tables) {
    && (forall row | row in t.actions :: row.task < |t.tasks|)
    && (forall i, j :: 0 <= i < j < |t.tasks| ==> t.tasks[i].taskId != t.tasks[j].taskId)
    && (forall i | 0 <= i < |t.tasks| :: TaskMatchesLog(t, i))
  }

  lemma OpeningKeepsLog(t: Tables, event: Event, i: nat)
    requires Consistent(t) && Accepted(t, event) && event.OpenTask? && i <= |t.tasks|
    ensures TaskMatchesLog(Apply(t, event), i)
  {
    if i < |t.tasks| {
      assert TaskMatchesLog(t, i);
    } else {
      NoRowsNoReplay(t.actions, i);
      NoRowsNoOverrides(t.actions, i);
    }
  }

  /** A row that another task, or a closed task, or a span confirmation adds. */
  lemma HarmlessRowKeepsLog(t: Tables, row: ActionRow, i: nat)
    requires i < |t.tasks| && TaskMatchesLog(t, i) && !row.diff.reviewerOverride
    requires row.task == i ==> Terminal(t.tasks[i].status) || (row.action == Annotate && row.diff.spanIds != [])
    ensures TaskMatchesLog(t.(actions := t.actions + [row]), i)
  {
    ReplayAppend(t.actions, row, i);
    OverridesAppend(t.actions, row, i);
  }

  lemma DecisionKeepsLog(t: Tables, k: nat, action: Action, reviewer: string, diff: Diff, i: nat)
    requires k < |t.tasks| && !Terminal(t.tasks[k].status) && diff.spanIds == []
    requires diff.reviewerOverride == (action == Reject && t.tasks[k].kind == VerdictTask)
    requires i < |t.tasks| && TaskMatchesLog(t, i)
    ensures TaskMatchesLog(Decided(t, k, action, reviewer, diff), i)
  {
    var row, t' := ActionRow(k, reviewer, action, diff), Decided(t, k, action, reviewer, diff);
    ReplayAppend(t.actions, row, i);
    OverridesAppend(t.actions, row, i);
    if i == k {
      var state := Replay(t.actions, i);
      assert !Terminal(state.status) && state.closedBy.None? && Overrides(t.actions, i) == 0;
      assert Replay(t'.actions, i) == ReplayRow(state, row);
      assert Overrides(t'.actions, i) == if diff.reviewerOverride then 1 else 0;
    } else {
      assert t'.tasks[i] == t.tasks[i] && Replay(t'.actions, i) == Replay(t.actions, i);
    }
  }

  lemma RowKeepsLog(t: Tables, event: Event, i: nat)
    requires i < |t.tasks| && TaskMatchesLog(t, i) && Accepted(t, event) && !event.OpenTask?
    ensures |Apply(t, event).tasks| == |t.tasks| && TaskMatchesLog(Apply(t, event), i)
  {
    match event {
      case ConfirmSpans(task, spanIds, reviewer) =>
        HarmlessRowKeepsLog(t, ActionRow(task, reviewer, Annotate, Diff(None, false, None, spanIds)), i);
      case ResolveTask(taskId, decision, reviewer, notes) =>
        var k, action := Find(t.tasks, taskId).value, ParseAction(decision).value;
        if Terminal(t.tasks[k].status) {
          HarmlessRowKeepsLog(t, ActionRow(k, reviewer, action, NotesDiff(notes)), i);
        } else {
          var diff := EnrichedDiff(t.tasks[k], action, NotesDiff(notes));
          DecisionKeepsLog(t, k, action, reviewer, diff, i);
        }
    }
  }

  lemma ConsistentStep(t: Tables, event: Event)
    requires Consistent(t)
    ensures Consistent(Apply(t, event))
  {
    var t' := Apply(t, event);
    if Accepted(t, event) {
      forall i | 0 <= i < |t'.tasks| ensures TaskMatchesLog(t', i) {
        if event.OpenTask? {
          OpeningKeepsLog(t, event, i);
        } else {
          RowKeepsLog(t, event, i);
        }
      }
    }
  }

  /**
   * After any run of openings, decisions and confirmations, replaying a task's audit rows gives the
   * task's status and assignee; `claimed` is never reached; and the log holds exactly one override of
   * a verdict if it was a rejection that closed the task, and none otherwise.
   */
  lemma {:induction false} LogExplainsTasks(events: seq<Event>)
    ensures Consistent(Run(events))
  {
    if events != [] {
      LogExplainsTasks(events[..|events| - 1]);
      ConsistentStep(Run(events[..|events| - 1]), events[|events| - 1]);
    }
  }

  /** Every accepted call other than an opening adds exactly one row, for that task, and nothing ever changes a row. */
  lemma LogGrowsByOne(t: Tables, event: Event)
    ensures !Accepted(t, event) ==> Apply(t, event) == t
    ensures Accepted(t, event) && event.OpenTask? ==>
              Apply(t, event).actions == t.actions && t.tasks < Apply(t, event).tasks
    ensures Accepted(t, event) && !event.OpenTask? ==>
              exists row: ActionRow :: Apply(t, event).actions == t.actions + [row]
                                       && row.task < |t.tasks| && row.actor == event.reviewer
  {
    if Accepted(t, event) && !event.OpenTask? {
      var row := Apply(t, event).actions[|t.actions|];
      assert Apply(t, event).actions == t.actions + [row];
    }
  }

  /** Once resolved or escalated, a task's row never changes, although its log may still grow. */
  lemma {:induction false} TerminalTasksFrozen(events: seq<Event>, more: seq<Event>, i: nat)
    requires i < |Run(events).tasks| && Terminal(Run(events).tasks[i].status)
    ensures i < |Run(events + more).tasks| && Run(events + more).tasks[i] == Run(events).tasks[i]
    ensures Run(events).actions <= Run(events + more).actions
  {
    if more == [] {
      assert events + more == events;
    } else {
      var k := |more| - 1;
      TerminalTasksFrozen(events, more[..k], i);
      assert (events + more)[..|events| + k] == events + more[..k];
      assert (events + more)[|events| + k] == more[k];
      LogGrowsByOne(Run(events + more[..k]), more[k]);
    }
  }

  // ---- The reviewer's words ----

  lemma {:induction false} FindOnly(tasks: seq<Task>, k: nat)
    requires k < |tasks| && forall i, j :: 0 <= i < j < |tasks| ==> tasks[i].taskId != tasks[j].taskId
    ensures Find(tasks, tasks[k].taskId) == Some(k)
  {
    if k < |tasks| - 1 {
      FindOnly(tasks[..|tasks| - 1], k);
    }
  }

  /** The action that one of the five words asks for. */
  ghost predicate Asks(decision: string, action: Action) {
    || (decision == "approve" && action == Approve)
    || (decision == "reject" && action == Reject)
    || (decision == "relink" && action == Relink)
    || (decision == "annotate" && action == Annotate)
    || (decision == "escalate" && action == Escalate)
  }

  /** The audit row of a decision: who asked for what, and the override if it rejects an unfinished verdict. */
  ghost predicate IsDecisionRow(row: ActionRow, k: nat, task: Task, decision: string, reviewer: string, notes: Option<string>) {
    var rejects := decision == "reject" && task.kind == VerdictTask && task.status !in {Resolved, Escalated};
    && row.task == k && row.actor == reviewer && Asks(decision, row.action)
    && row.diff.notes == (if notes == Some("") then None else notes)
    && row.diff.reviewerOverride == rejects
    && row.diff.originalMachine == (if rejects then task.payload.machineVerdict else None)
    && row.diff.spanIds == []
  }

  lemma WordsAsk(decision: string)
    ensures ParseAction(decision).Some? ==> Asks(decision, ParseAction(decision).value)
    ensures ParseAction(decision).None? ==> forall action :: !Asks(decision, action)
  {
  }

  /** A word that asks for nothing changes nothing. */
  lemma OtherWordsIgnored(t: Tables, taskId: Uuid, decision: string, reviewer: string, notes: Option<string>)
    requires decision !in {"approve", "reject", "relink", "annotate", "escalate"}
    ensures Apply(t, ResolveTask(taskId, decision, reviewer, notes)) == t
  {
  }

  /** What each of the five words does to a task of a run and to its log. */
  lemma DecisionRecorded(events: seq<Event>, k: nat, decision: string, reviewer: string, notes: Option<string>)
    requires k < |Run(events).tasks|
    requires decision in {"approve", "reject", "relink", "annotate", "escalate"}
    ensures var t := Run(events);
            var t', task := Run(events + [ResolveTask(t.tasks[k].taskId, decision, reviewer, notes)]), t.tasks[k];
            && |t'.actions| == |t.actions| + 1 && t.actions < t'.actions
            && IsDecisionRow(t'.actions[|t.actions|], k, task, decision, reviewer, notes)
            && t'.tasks == t.tasks[k := t'.tasks[k]]
            && (task.status in {Resolved, Escalated} ==> t'.tasks[k] == task)
            && (task.status !in {Resolved, Escalated} ==>
                  && t'.tasks[k] == task.(status := t'.tasks[k].status, assignedTo := Some(reviewer))
                  && (decision in {"approve", "reject", "relink"} ==> t'.tasks[k].status == Resolved)
                  && (decision == "annotate" ==> t'.tasks[k].status == Open)
                  && (decision == "escalate" ==> t'.tasks[k].status == Escalated))
  {
    var t := Run(events);
    LogExplainsTasks(events);
    FindOnly(t.tasks, k);
    RunOneMore(Tables([], []), events, ResolveTask(t.tasks[k].taskId, decision, reviewer, notes));
    WordsAsk(decision);
    DecisionApplied(t, k, decision, reviewer, notes);
  }

  lemma DecisionApplied(t: Tables, k: nat, decision: string, reviewer: string, notes: Option<string>)
    requires k < |t.tasks| && Find(t.tasks, t.tasks[k].taskId) == Some(k)
    requires decision in {"approve", "reject", "relink", "annotate", "escalate"}
    ensures var t', task := Apply(t, ResolveTask(t.tasks[k].taskId, decision, reviewer, notes)), t.tasks[k];
            && |t'.actions| == |t.actions| + 1 && t.actions < t'.actions
            && IsDecisionRow(t'.actions[|t.actions|], k, task, decision, reviewer, notes)
            && t'.tasks == t.tasks[k := t'.tasks[k]]
            && (task.status in {Resolved, Escalated} ==> t'.tasks[k] == task)
            && (task.status !in {Resolved, Escalated} ==>
                  && t'.tasks[k] == task.(status := t'.tasks[k].status, assignedTo := Some(reviewer))
                  && (decision in {"approve", "reject", "relink"} ==> t'.tasks[k].status == Resolved)
                  && (decision == "annotate" ==> t'.tasks[k].status == Open)
                  && (decision == "escalate" ==> t'.tasks[k].status == Escalated))
  {
    WordsAsk(decision);
  }

  /** A new task of one of the four kinds is open and nobody's; a kind that is none of them opens nothing. */
  lemma OpenedTask(t: Tables, taskId: Uuid, kind: Kind, payload: Payload, priority: int)
    requires forall known | known in t.tasks :: known.taskId != taskId
    ensures Apply(t, OpenTask(taskId, kind, payload, priority)) ==
              if kind in {EntityResolutionTask, VerdictTask, ConflictTask, DeclarationTask}
              then Tables(t.tasks + [Task(taskId, kind, Open, priority, payload, None)], t.actions)
              else t
  {
  }

  /** A confirmation of spans leaves every task as it is and adds an annotation that names them. */
  lemma ConfirmedSpans(t: Tables, task: nat, spanIds: seq<string>, reviewer: string)
    requires task < |t.tasks| && spanIds != []
    ensures Apply(t, ConfirmSpans(task, spanIds, reviewer)) ==
              Tables(t.tasks, t.actions + [ActionRow(task, reviewer, Annotate, Diff(None, false, None, spanIds))])
  {
  }

  /** The i-th call rejects an unfinished verdict task. */
  ghost predicate RejectedAt(events: seq<Event>, k: nat, i: nat) {
    && i < |events| && events[i].ResolveTask? && events[i].decision == "reject"
    && k < |Run(events[..i]).tasks|
    && var task := Run(events[..i]).tasks[k];
       task.taskId == events[i].taskId && task.kind == VerdictTask && task.status !in {Resolved, Escalated}
  }

  lemma OneMoreRejection(events: seq<Event>, event: Event, k: nat, i: nat)
    ensures RejectedAt(events + [event], k, i) <==>
              RejectedAt(events, k, i) || (i == |events| && RejectedAt(events + [event], k, |events|))
  {
    if i < |events| {
      assert (events + [event])[..i] == events[..i];
    }
  }

  lemma {:induction false} TasksKept(events: seq<Event>, i: nat)
    requires i <= |events|
    ensures |Run(events[..i]).tasks| <= |Run(events).tasks|
  {
    if i == |events| {
      assert events[..i] == events;
    } else {
      var k := |events| - 1;
      TasksKept(events[..k], i);
      assert events[..k][..i] == events[..i];
      LogGrowsByOne(Run(events[..k]), events[k]);
    }
  }

  /** Whether the row a call appends is an override of task `k`. */
  lemma OverrideStep(events: seq<Event>, event: Event, k: nat)
    requires k < |Run(events).tasks|
    ensures Overrides(Run(events + [event]).actions, k) ==
              Overrides(Run(events).actions, k) + if RejectedAt(events + [event], k, |events|) then 1 else 0
  {
    var t := Run(events);
    RunOneMore(Tables([], []), events, event);
    assert (events + [event])[..|events|] == events;
    LogExplainsTasks(events);
    if Accepted(t, event) && !event.OpenTask? {
      var row := Apply(t, event).actions[|t.actions|];
      assert Apply(t, event).actions == t.actions + [row];
      OverridesAppend(t.actions, row, k);
      if event.ResolveTask? {
        var found := Find(t.tasks, event.taskId).value;
        WordsAsk(event.decision);
        DecisionApplied(t, found, event.decision, event.reviewer, event.notes);
      }
    } else if event.ResolveTask? {
      FindOnly(t.tasks, k);
    }
  }

  /** The log of a task holds an override if and only if some call with the word `reject` reached it as an unfinished verdict task. */
  lemma {:induction false} OverrideMeansRejected(events: seq<Event>, k: nat)
    requires k < |Run(events).tasks|
    ensures Overrides(Run(events).actions, k) > 0 <==> exists i :: RejectedAt(events, k, i)
  {
    var n := |events| - 1;
    var front, last := events[..n], events[n];
    assert events == front + [last];
    forall i ensures RejectedAt(events, k, i) <==> RejectedAt(front, k, i) || (i == n && RejectedAt(events, k, n)) {
      OneMoreRejection(front, last, k, i);
    }
    if k < |Run(front).tasks| {
      OverrideMeansRejected(front, k);
      OverrideStep(front, last, k);
    } else {
      LogExplainsTasks(front);
      RunOneMore(Tables([], []), front, last);
      NoRowsNoOverrides(Run(front).actions, k);
      forall i: nat | i <= n ensures !RejectedAt(events, k, i) {
        assert events[..i] == front[..i];
        TasksKept(front, i);
      }
    }
  }

  // ---- The work list ----

  function OpenRows(tasks: seq<Task>): (rows: seq<nat>)
    ensures forall i :: i in rows <==> 0 <= i < |tasks| && !Terminal(tasks[i].status)
  {
    if tasks == [] then []
    else
      var k := |tasks| - 1;
      OpenRows(tasks[..k]) + if Terminal(tasks[k].status) then [] else [k]
  }

  /** ORDER BY priority DESC, id ASC; rows outside the table do not occur. */
  predicate ListedBefore(tasks: seq<Task>, a: nat, b: nat) {
    if a < |tasks| && b < |tasks| then
      tasks[a].priority > tasks[b].priority || (tasks[a].priority == tasks[b].priority && a <= b)
    else
      b >= |tasks|
  }

  function Urgency(tasks: seq<Task>): (nat, nat) -> bool {
    (a: nat, b: nat) => ListedBefore(tasks, a, b)
  }

  lemma UrgencyIsTotalPreorder(tasks: seq<Task>)
    ensures TotalPreorder(Urgency(tasks))
  {
    var le := Urgency(tasks);
    forall a: nat, b: nat ensures le(a, b) || le(b, a) {}
    forall a: nat, b: nat, c: nat | le(a, b) && le(b, c) ensures le(a, c) {}
  }

  function SortedOpenRows(tasks: seq<Task>): seq<nat> {
    Sort(OpenRows(tasks), Urgency(tasks))
  }

  function Worklist(tasks: seq<Task>, limit: nat): seq<nat> {
    var sorted := SortedOpenRows(tasks);
    if limit < |sorted| then sorted[..limit] else sorted
  }

  lemma {:induction false} OpenRowsOnce(tasks: seq<Task>, r: nat)
    ensures multiset(OpenRows(tasks))[r] <= 1
  {
    if tasks != [] {
      var k: nat := |tasks| - 1;
      var front := OpenRows(tasks[..k]);
      OpenRowsOnce(tasks[..k], r);
      var bag: multiset<nat> := multiset(front);
      assert k !in front && bag[k] == 0;
    }
  }

  lemma OpenRowsSorted(tasks: seq<Task>)
    ensures multiset(SortedOpenRows(tasks)) == multiset(OpenRows(tasks))
    ensures Sorted(SortedOpenRows(tasks), Urgency(tasks))
    ensures forall r: nat :: r in SortedOpenRows(tasks) <==> r < |tasks| && !Terminal(tasks[r].status)
  {
    UrgencyIsTotalPreorder(tasks);
    SortSorted(OpenRows(tasks), Urgency(tasks));
    SortMembers(OpenRows(tasks), Urgency(tasks));
  }

  ghost predicate InOrder(tasks: seq<Task>, rows: seq<nat>) {
    forall i, j :: 0 <= i < j < |rows| ==> ListedBefore(tasks, rows[i], rows[j]) && rows[i] != rows[j]
  }

  lemma WorklistInOrder(tasks: seq<Task>, limit: nat)
    ensures |Worklist(tasks, limit)| <= limit && InOrder(tasks, Worklist(tasks, limit))
    ensures forall r | r in Worklist(tasks, limit) :: r < |tasks| && !Terminal(tasks[r].status)
  {
    var rows, sorted := Worklist(tasks, limit), SortedOpenRows(tasks);
    OpenRowsSorted(tasks);
    assert rows == sorted[..|rows|];
    forall i, j | 0 <= i < j < |rows| ensures ListedBefore(tasks, rows[i], rows[j]) && rows[i] != rows[j] {
      assert rows[i] == sorted[i] && rows[j] == sorted[j];
      assert Urgency(tasks)(sorted[i], sorted[j]);
      OpenRowsOnce(tasks, sorted[i]);
      if rows[i] == rows[j] {
        RepeatedElement(sorted, i, j);
      }
    }
    forall r | r in rows ensures r in sorted {}
  }

  lemma LeftOutOfWorklist(tasks: seq<Task>, limit: nat, r: nat)
    requires r < |tasks| && !Terminal(tasks[r].status) && r !in Worklist(tasks, limit)
    ensures |Worklist(tasks, limit)| == limit
    ensures forall listed | listed in Worklist(tasks, limit) :: ListedBefore(tasks, listed, r)
  {
    var rows, sorted := Worklist(tasks, limit), SortedOpenRows(tasks);
    OpenRowsSorted(tasks);
    assert rows == sorted[..|rows|];
    assert r in sorted;
    FrontOfSorted(sorted, |rows|, Urgency(tasks));
    forall listed | listed in rows ensures ListedBefore(tasks, listed, r) {
      assert Urgency(tasks)(listed, r);
    }
  }

  /** The rows are unfinished tasks in order, each once, and one is left out only when the list is full of more urgent ones. */
  ghost predicate MostUrgent(tasks: seq<Task>, limit: nat, rows: seq<nat>) {
    && |rows| <= limit && InOrder(tasks, rows)
    && (forall r | r in rows :: r < |tasks| && !Terminal(tasks[r].status))
    && (forall r: nat | r < |tasks| && !Terminal(tasks[r].status) && r !in rows ::
          |rows| == limit && forall listed | listed in rows :: ListedBefore(tasks, listed, r))
  }

  lemma WorklistIsMostUrgent(tasks: seq<Task>, limit: nat)
    ensures MostUrgent(tasks, limit, Worklist(tasks, limit))
  {
    WorklistInOrder(tasks, limit);
    forall r: nat | r < |tasks| && !Terminal(tasks[r].status) && r !in Worklist(tasks, limit)
      ensures |Worklist(tasks, limit)| == limit
      ensures forall listed | listed in Worklist(tasks, limit) :: ListedBefore(tasks, listed, r)
    {
      LeftOutOfWorklist(tasks, limit, r);
    }
  }

  /** The same without names: higher priority first, the older task first among equals, finished tasks never. */
  lemma WorklistSpelledOut(tasks: seq<Task>, limit: nat, i: nat, j: nat)
    requires i < j < |Worklist(tasks, limit)|
    ensures var a, b := Worklist(tasks, limit)[i], Worklist(tasks, limit)[j];
            && a < |tasks| && b < |tasks|
            && tasks[a].status in {Open, Claimed} && tasks[b].status in {Open, Claimed}
            && (tasks[a].priority > tasks[b].priority || (tasks[a].priority == tasks[b].priority && a < b))
  {
    WorklistIsMostUrgent(tasks, limit);
    var rows := Worklist(tasks, limit);
    assert rows[i] in rows && rows[j] in rows;
    Unfinished(tasks[rows[i]].status);
    Unfinished(tasks[rows[j]].status);
  }

  lemma Unfinished(status: TaskStatus)
    ensures Terminal(status) <==> status == Resolved || status == Escalated
    ensures !Terminal(status) <==> status == Open || status == Claimed
  {
  }
}
