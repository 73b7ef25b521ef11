/**
 * The task runner (src/workers/taskRunner.ts): one task's life-cycle, the
 * derivation of the workflow status from its tasks' statuses, and the
 * aggregated report sorted by step number.
 */
module TaskRunner {
  import opened Wrappers
  import opened Ordering
  import opened TaskModel
  import opened WorkflowModel
  import opened Persistence

  /** What a handler's `run` resolves to: a falsy value, or a value and its serialisation. */
  datatype JobValue = Falsy | Value(serialised: string)

  /**
   * What the handler registry and the handler do with one task: the lookup
   * throws (it sits outside the `try`), `run` throws, or `run` resolves.
   */
  datatype HandlerOutcome = NoHandler | Threw | Returned(value: JobValue)

  /** Whether `run` resolved or its promise was rejected with the rethrown error. */
  datatype RunOutcome = Resolved | Rethrown

  const StartingProgress: string := "starting job..."
  const FailureMarker: string := "Task execution failed"

  /** The stored `Result.data`: the serialised output, an empty object for a falsy one. */
  function StoredData(v: JobValue): (data: string)
    ensures v.Falsy? ==> data == "{}"
    ensures v.Value? ==> data == v.serialised
  {
    match v
    case Falsy => "{}"
    case Value(s) => s
  }

  /** `tasks.some(t => t.status === Failed)` */
  function AnyFailed(ts: seq<Task>): (b: bool)
    ensures b <==> exists i :: 0 <= i < |ts| && ts[i].status == TaskStatus.Failed
    decreases |ts|
  {
    if ts == [] then false
    else ts[0].status == TaskStatus.Failed || AnyFailed(ts[1..])
  }

  /** `tasks.every(t => t.status === Completed)`; true of no tasks at all. */
  function AllCompleted(ts: seq<Task>): (b: bool)
    ensures b <==> forall i :: 0 <= i < |ts| ==> ts[i].status == TaskStatus.Completed
    decreases |ts|
  {
    if ts == [] then true
    else ts[0].status == TaskStatus.Completed && AllCompleted(ts[1..])
  }

  /** The workflow status the runner derives from its tasks. */
  function DerivedStatus(ts: seq<Task>): (w: WorkflowStatus)
    ensures w != WorkflowStatus.Initial
    ensures w == WorkflowStatus.Failed <==> exists i :: 0 <= i < |ts| && ts[i].status == TaskStatus.Failed
    ensures w == WorkflowStatus.Completed <==> forall i :: 0 <= i < |ts| ==> ts[i].status == TaskStatus.Completed
  {
    if AnyFailed(ts) then WorkflowStatus.Failed
    else if AllCompleted(ts) then WorkflowStatus.Completed
    else WorkflowStatus.InProgress
  }

  lemma StatusCarriedOver(a: seq<Task>, b: seq<Task>, st: TaskStatus)
    requires multiset(a) == multiset(b)
    requires exists i :: 0 <= i < |a| && a[i].status == st
    ensures exists j :: 0 <= j < |b| && b[j].status == st
  {
    var i :| 0 <= i < |a| && a[i].status == st;
    assert a[i] in multiset(a);
    assert a[i] in b;
    var j :| 0 <= j < |b| && b[j] == a[i];
  }

  /** The derived status depends only on the statuses present, not on the order of the tasks. */
  lemma DerivedStatusIgnoresOrder(a: seq<Task>, b: seq<Task>)
    requires multiset(a) == multiset(b)
    ensures DerivedStatus(a) == DerivedStatus(b)
  {
    if exists i :: 0 <= i < |a| && a[i].status == TaskStatus.Failed {
      StatusCarriedOver(a, b, TaskStatus.Failed);
    } else if exists j :: 0 <= j < |b| && b[j].status == TaskStatus.Failed {
      StatusCarriedOver(b, a, TaskStatus.Failed);
    }
    if !(forall i :: 0 <= i < |a| ==> a[i].status == TaskStatus.Completed) {
      var i :| 0 <= i < |a| && a[i].status != TaskStatus.Completed;
      StatusCarriedOver(a, b, a[i].status);
    } else if !(forall j :: 0 <= j < |b| ==> b[j].status == TaskStatus.Completed) {
      var j :| 0 <= j < |b| && b[j].status != TaskStatus.Completed;
      StatusCarriedOver(b, a, b[j].status);
    }
  }

  /**
   * The output a report shows for a task: the stored result text of a
   * Completed task with a result id, when that result exists and is non-empty.
   * The JSON parse of that text is not modelled.
   */
  function OutputOf(t: Task, results: map<ResultId, ResultRecord>): (o: Option<string>)
    ensures o.Some? ==> t.status == TaskStatus.Completed && Present(t.resultId)
    ensures o.Some? ==> t.resultId.value in results && o.value == results[t.resultId.value].data != ""
    ensures t.status == TaskStatus.Completed && Present(t.resultId)
            && t.resultId.value in results && results[t.resultId.value].data != ""
            ==> o == Some(results[t.resultId.value].data)
  {
    if t.status == TaskStatus.Completed && Present(t.resultId)
       && t.resultId.value in results && results[t.resultId.value].data != ""
    then Some(results[t.resultId.value].data)
    else None
  }

  /** The report entry of one task. */
  function EntryFor(t: Task, results: map<ResultId, ResultRecord>): (e: TaskEntry)
    ensures e.taskId == t.taskId && e.taskType == t.taskType
    ensures e.stepNumber == t.stepNumber && e.status == t.status
    ensures e.output == OutputOf(t, results)
    ensures e.output.Some? ==> e.status == TaskStatus.Completed
    ensures e.error.Some? <==> e.status == TaskStatus.Failed
    ensures e.error.Some? ==> e.error.value == FailureMarker
  {
    TaskEntry(t.taskId, t.taskType, t.stepNumber, t.status, OutputOf(t, results),
              if t.status == TaskStatus.Failed then Some(FailureMarker) else None)
  }

  function Entries(ts: seq<Task>, results: map<ResultId, ResultRecord>): (es: seq<TaskEntry>)
    ensures |es| == |ts|
    ensures forall i :: 0 <= i < |ts| ==> es[i] == EntryFor(ts[i], results)
  {
    seq(|ts|, i requires 0 <= i < |ts| => EntryFor(ts[i], results))
  }

  /** The aggregated report of a workflow whose status has just been set. */
  function AggregateReport(wf: Workflow, ts: seq<Task>, results: map<ResultId, ResultRecord>): FinalReport
  {
    FinalReport(wf.workflowId, wf.clientId, wf.status, SortBy(Entries(ts, results), EntryKey))
  }

  /**
   * The report has exactly one entry per task, ordered by step number, with
   * output only on Completed entries and the failure marker exactly on Failed ones.
   */
  lemma AggregateReportShape(wf: Workflow, ts: seq<Task>, results: map<ResultId, ResultRecord>)
    ensures var r := AggregateReport(wf, ts, results);
      && r.workflowId == wf.workflowId && r.clientId == wf.clientId && r.status == wf.status
      && |r.tasks| == |ts|
      && SortedBy(r.tasks, EntryKey)
      && multiset(r.tasks) == multiset(Entries(ts, results))
      && (forall i :: 0 <= i < |ts| ==> EntryFor(ts[i], results) in r.tasks)
      && (forall k :: 0 <= k < |r.tasks| ==>
            && (r.tasks[k].output.Some? ==> r.tasks[k].status == TaskStatus.Completed)
            && (r.tasks[k].error.Some? <==> r.tasks[k].status == TaskStatus.Failed))
  {
    var es := Entries(ts, results);
    var r := AggregateReport(wf, ts, results);
    forall i | 0 <= i < |ts|
      ensures EntryFor(ts[i], results) in r.tasks
    {
      assert es[i] in multiset(es);
    }
    forall k | 0 <= k < |r.tasks|
      ensures r.tasks[k] in es
    {
      assert r.tasks[k] in multiset(r.tasks);
    }
  }

  /**
   * `aggregateWorkflowResults`: one entry per task pushed in a loop, then
   * sorted in place by step number.
   */
  method AggregateWorkflowResults(wf: Workflow, ts: seq<Task>, results: map<ResultId, ResultRecord>)
    returns (report: FinalReport)
    ensures report == AggregateReport(wf, ts, results)
  {
    var taskResults: seq<TaskEntry> := [];
    for i := 0 to |ts|
      invariant |taskResults| == i
      invariant forall j :: 0 <= j < i ==> taskResults[j] == EntryFor(ts[j], results)
    {
      var task := ts[i];
      var entry := TaskEntry(task.taskId, task.taskType, task.stepNumber, task.status, None, None);
      if task.status == TaskStatus.Completed && Present(task.resultId) {
        var rid := task.resultId.value;
        if rid in results && results[rid].data != "" {
          entry := entry.(output := Some(results[rid].data));
        }
      } else if task.status == TaskStatus.Failed {
        entry := entry.(error := Some(FailureMarker));
      }
      taskResults := taskResults + [entry];
    }
    assert taskResults == Entries(ts, results);
    taskResults := SortBy(taskResults, EntryKey);
    report := FinalReport(wf.workflowId, wf.clientId, wf.status, taskResults);
  }

  /**
   * The workflow after recomputation: Failed or Completed with a fresh report,
   * or InProgress with `finalResult` left as it was.
   */
  function Recompute(wf: Workflow, ts: seq<Task>, results: map<ResultId, ResultRecord>): Workflow
  {
    var status := DerivedStatus(ts);
    if status == WorkflowStatus.InProgress then wf.(status := status)
    else
      var marked := wf.(status := status);
      marked.(finalResult := Some(AggregateReport(marked, ts, results)))
  }

  /** Recomputing against unchanged tasks and results gives the same workflow again. */
  lemma RecomputeIdempotent(wf: Workflow, ts: seq<Task>, results: map<ResultId, ResultRecord>)
    ensures Recompute(Recompute(wf, ts, results), ts, results) == Recompute(wf, ts, results)
  {
  }

  /** The task as saved before the handler is looked up. */
  function Started(t: Task): Task
  {
    t.(status := TaskStatus.InProgress, progress := Some(StartingProgress))
  }

  /**
   * The tables after `run` on the stored task `id`, and how `run` ended.
   * `rid` is the primary key the results table assigns to a new result.
   */
  function RunEffect(s: State, id: TaskId, handler: Task -> HandlerOutcome, rid: ResultId): (State, RunOutcome)
    requires IndexOf(s.tasks, id).Some?
  {
    var i := IndexOf(s.tasks, id).value;
    var started := Started(s.tasks[i]);
    match handler(started)
    case NoHandler =>
      (s.(tasks := s.tasks[i := started]), Rethrown)
    case Threw =>
      (s.(tasks := s.tasks[i := started.(status := TaskStatus.Failed, progress := None)]), Rethrown)
    case Returned(v) =>
      var done := started.(resultId := Some(rid), status := TaskStatus.Completed, progress := None);
      var tasks := s.tasks[i := done];
      var results := s.results[rid := ResultRecord(rid, done.taskId, StoredData(v))];
      var workflows :=
        if done.workflowId in s.workflows
        then s.workflows[done.workflowId := Recompute(s.workflows[done.workflowId], TasksOf(tasks, done.workflowId), results)]
        else s.workflows;
      (State(tasks, workflows, results), Resolved)
  }

  /** `run` changes no task other than the one it runs. */
  lemma RunChangesOnlyItsTask(s: State, id: TaskId, handler: Task -> HandlerOutcome, rid: ResultId)
    requires IndexOf(s.tasks, id).Some?
    ensures var s' := RunEffect(s, id, handler, rid).0;
      && |s'.tasks| == |s.tasks|
      && forall j :: 0 <= j < |s.tasks| && j != IndexOf(s.tasks, id).value ==> s'.tasks[j] == s.tasks[j]
  {
  }

  /**
   * On success the task is Completed with a new result that names it and
   * holds the serialised output, and its workflow's status is recomputed from
   * all of its tasks; `finalResult` changes only on a terminal status.
   */
  lemma RunSucceeds(s: State, id: TaskId, handler: Task -> HandlerOutcome, rid: ResultId, v: JobValue)
    requires IndexOf(s.tasks, id).Some?
    requires handler(Started(s.tasks[IndexOf(s.tasks, id).value])) == Returned(v)
    ensures var i := IndexOf(s.tasks, id).value;
      var (s', outcome) := RunEffect(s, id, handler, rid);
      var t := s.tasks[i];
      var t' := s'.tasks[i];
      && outcome == Resolved
      && |s'.tasks| == |s.tasks|
      && (forall j :: 0 <= j < |s.tasks| && j != i ==> s'.tasks[j] == s.tasks[j])
      && t' == t.(status := TaskStatus.Completed, progress := None, resultId := Some(rid))
      && s'.results == s.results[rid := ResultRecord(rid, id, StoredData(v))]
      && s'.workflows.Keys == s.workflows.Keys
      && (forall w :: w in s.workflows && w != t.workflowId ==> s'.workflows[w] == s.workflows[w])
      && (t.workflowId in s.workflows ==>
            var wf := s.workflows[t.workflowId];
            var wf' := s'.workflows[t.workflowId];
            var owned := TasksOf(s'.tasks, t.workflowId);
            && wf'.status == DerivedStatus(owned)
            && wf'.workflowId == wf.workflowId && wf'.clientId == wf.clientId
            && (wf'.status == WorkflowStatus.InProgress ==> wf'.finalResult == wf.finalResult)
            && (wf'.status != WorkflowStatus.InProgress ==>
                  wf'.finalResult == Some(AggregateReport(wf.(status := wf'.status), owned, s'.results))))
  {
  }

  /**
   * On a handler failure the task is Failed with its progress cleared, no
   * result is stored, and, because the error is rethrown first, no workflow is
   * recomputed.
   */
  lemma RunFails(s: State, id: TaskId, handler: Task -> HandlerOutcome, rid: ResultId)
    requires IndexOf(s.tasks, id).Some?
    requires handler(Started(s.tasks[IndexOf(s.tasks, id).value])) == Threw
    ensures var i := IndexOf(s.tasks, id).value;
      var (s', outcome) := RunEffect(s, id, handler, rid);
      && outcome == Rethrown
      && s'.tasks == s.tasks[i := s.tasks[i].(status := TaskStatus.Failed, progress := None)]
      && s'.results == s.results
      && s'.workflows == s.workflows
  {
  }

  /** A lookup that throws leaves the task InProgress with the starting note, and nothing else changed. */
  lemma RunWithoutHandler(s: State, id: TaskId, handler: Task -> HandlerOutcome, rid: ResultId)
    requires IndexOf(s.tasks, id).Some?
    requires handler(Started(s.tasks[IndexOf(s.tasks, id).value])) == NoHandler
    ensures var i := IndexOf(s.tasks, id).value;
      var (s', outcome) := RunEffect(s, id, handler, rid);
      && outcome == Rethrown
      && s'.tasks == s.tasks[i := s.tasks[i].(status := TaskStatus.InProgress, progress := Some(StartingProgress))]
      && s'.results == s.results
      && s'.workflows == s.workflows
  {
  }

  /**
   * Running a Queued task keeps the tables consistent: in particular exactly
   * the Completed tasks have a result, and every result belongs to a task.
   */
  lemma RunKeepsValid(s: State, id: TaskId, handler: Task -> HandlerOutcome, rid: ResultId)
    requires ValidState(s)
    requires IndexOf(s.tasks, id).Some?
    requires s.tasks[IndexOf(s.tasks, id).value].status == TaskStatus.Queued
    requires rid !in s.results
    ensures ValidState(RunEffect(s, id, handler, rid).0)
  {
    var i := IndexOf(s.tasks, id).value;
    var s' := RunEffect(s, id, handler, rid).0;
    RunChangesOnlyItsTask(s, id, handler, rid);
    match handler(Started(s.tasks[i]))
    case NoHandler =>
      RunWithoutHandler(s, id, handler, rid);
      UpdateKeepsValid(s, s', i, rid, "");
    case Threw =>
      RunFails(s, id, handler, rid);
      UpdateKeepsValid(s, s', i, rid, "");
    case Returned(v) =>
      RunSucceeds(s, id, handler, rid, v);
      UpdateKeepsValid(s, s', i, rid, StoredData(v));
  }

  /**
   * Changing one Queued task keeps the tables consistent if it either gains no
   * result and does not become Completed, or becomes Completed with a new result naming it.
   */
  lemma UpdateKeepsValid(s: State, s': State, i: nat, rid: ResultId, data: string)
    requires ValidState(s)
    requires i < |s.tasks| && s.tasks[i].status == TaskStatus.Queued
    requires |s'.tasks| == |s.tasks|
    requires forall j :: 0 <= j < |s.tasks| && j != i ==> s'.tasks[j] == s.tasks[j]
    requires s'.tasks[i].taskId == s.tasks[i].taskId
    requires || (s'.results == s.results && s'.tasks[i].resultId.None? && s'.tasks[i].status != TaskStatus.Completed)
             || (&& rid !in s.results
                 && s'.results == s.results[rid := ResultRecord(rid, s.tasks[i].taskId, data)]
                 && s'.tasks[i].resultId == Some(rid) && s'.tasks[i].status == TaskStatus.Completed)
    ensures ValidState(s')
  {
    assert s.tasks[i].resultId.None?;
    forall a, b | 0 <= a < b < |s'.tasks|
      ensures s'.tasks[a].taskId != s'.tasks[b].taskId
    {
      assert s'.tasks[a].taskId == s.tasks[a].taskId;
      assert s'.tasks[b].taskId == s.tasks[b].taskId;
    }
    forall j | 0 <= j < |s'.tasks| && s'.tasks[j].resultId.Some?
      ensures s'.tasks[j].resultId.value in s'.results
      ensures s'.results[s'.tasks[j].resultId.value].taskId == s'.tasks[j].taskId
    {
      if j != i {
        assert s'.tasks[j] == s.tasks[j];
        assert s.results.Keys <= s'.results.Keys;
      }
    }
    forall r | r in s'.results
      ensures s'.results[r].resultId == r
      ensures exists j :: 0 <= j < |s'.tasks| && s'.tasks[j].resultId == Some(r)
    {
      if r in s.results {
        var j :| 0 <= j < |s.tasks| && s.tasks[j].resultId == Some(r);
        assert j != i;
        assert s'.tasks[j] == s.tasks[j];
      } else {
        assert s'.tasks[i].resultId == Some(r);
      }
    }
  }


  /** `TaskRunner.run`: the task's saves, then, only on success, the workflow's. */
  method Run(db: Store, id: TaskId, handler: Task -> HandlerOutcome, rid: ResultId)
    returns (outcome: RunOutcome)
    requires IndexOf(db.tasks, id).Some?
    modifies db
    ensures (db.Snapshot(), outcome) == RunEffect(old(db.Snapshot()), id, handler, rid)
  {
    var i := IndexOf(db.tasks, id).value;
    var task := db.tasks[i];
    task := task.(status := TaskStatus.InProgress, progress := Some(StartingProgress));
    db.tasks := db.tasks[i := task];
    var job := handler(task);
    if job.NoHandler? {
      outcome := Rethrown;
      return;
    }
    if job.Threw? {
      task := task.(status := TaskStatus.Failed, progress := None);
      db.tasks := db.tasks[i := task];
      assert db.tasks == old(db.tasks)[i := task];
      outcome := Rethrown;
      return;
    }
    db.results := db.results[rid := ResultRecord(rid, task.taskId, StoredData(job.value))];
    task := task.(resultId := Some(rid), status := TaskStatus.Completed, progress := None);
    db.tasks := db.tasks[i := task];
    assert db.tasks == old(db.tasks)[i := task];

    var workflowId := task.workflowId;
    if workflowId in db.workflows {
      var current := db.workflows[workflowId];
      ghost var loaded := current;
      var owned := TasksOf(db.tasks, workflowId);
      var allCompleted := AllCompleted(owned);
      var anyFailed := AnyFailed(owned);
      if anyFailed {
        current := current.(status := WorkflowStatus.Failed);
        var report := AggregateWorkflowResults(current, owned, db.results);
        current := current.(finalResult := Some(report));
      } else if allCompleted {
        current := current.(status := WorkflowStatus.Completed);
        var report := AggregateWorkflowResults(current, owned, db.results);
        current := current.(finalResult := Some(report));
      } else {
        current := current.(status := WorkflowStatus.InProgress);
      }
      assert current == Recompute(loaded, owned, db.results);
      db.workflows := db.workflows[workflowId := current];
    }
    outcome := Resolved;
  }
}
