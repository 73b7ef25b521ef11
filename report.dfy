/**
 * The report job (src/jobs/ReportGenerationJob.ts) as a fold over the
 * workflow's tasks: it skips the report task itself, lists every other task,
 * and counts the Completed ones that have a result and the Failed ones.
 */
module ReportGeneration {
  import opened Wrappers
  import opened Seqs
  import opened Ordering
  import opened Numerals
  import opened TaskModel
  import opened WorkflowModel
  import opened Persistence
  import opened TaskRunner

  /** One listed task; the `type` field of the source is `taskType` here. */
  datatype TaskReport = TaskReport(
    taskId: TaskId,
    taskType: string,
    status: TaskStatus,
    output: Option<string>,
    error: Option<string>)

  /** The job's output; its `generatedAt` timestamp is not modelled. */
  datatype WorkflowReport = WorkflowReport(
    workflowId: WorkflowId,
    tasks: seq<TaskReport>,
    finalReport: string)

  const Lead: string := "Workflow completed with "
  const Middle: string := " successful tasks and "
  const Tail: string := " failed tasks."

  /** The summary line stating the two counts. */
  function Summary(completed: nat, failed: nat): string
  {
    Render(completed, failed, Lead, Middle, Tail)
  }

  /** Reads the two counts back from a summary line. */
  function ParseSummary(s: string): Option<(nat, nat)>
  {
    ParseBetween(s, Lead, Middle, Tail)
  }

  /** The summary line determines both counts. */
  lemma SummaryRoundTrip(completed: nat, failed: nat)
    ensures ParseSummary(Summary(completed, failed)) == Some((completed, failed))
  {
    assert Middle[0] == ' ' && Tail[0] == ' ';
    RenderThenParse(completed, failed, Lead, Middle, Tail);
  }

  /** Two numbers rendered between fixed pieces of text. */
  function Render(a: nat, b: nat, lead: string, middle: string, tail: string): string
  {
    lead + ToDecimal(a) + middle + ToDecimal(b) + tail
  }

  /** Reads back the two numbers that stand between `lead`, `middle` and `tail`. */
  function ParseBetween(s: string, lead: string, middle: string, tail: string): Option<(nat, nat)>
  {
    if !(|lead| <= |s| && s[..|lead|] == lead) then None
    else
      var r1 := s[|lead|..];
      var k1 := DigitRun(r1);
      var r2 := r1[k1..];
      if k1 == 0 || !(|middle| <= |r2| && r2[..|middle|] == middle) then None
      else
        var r3 := r2[|middle|..];
        var k2 := DigitRun(r3);
        if k2 == 0 || r3[k2..] != tail then None
        else Some((ParseDecimal(r1[..k1]), ParseDecimal(r3[..k2])))
  }

  lemma RenderThenParse(a: nat, b: nat, lead: string, middle: string, tail: string)
    requires middle != [] && !IsDigit(middle[0])
    requires tail == [] || !IsDigit(tail[0])
    ensures ParseBetween(Render(a, b, lead, middle, tail), lead, middle, tail) == Some((a, b))
  {
    var c, f := ToDecimal(a), ToDecimal(b);
    var s := Render(a, b, lead, middle, tail);
    assert s == lead + (c + (middle + (f + tail)));
    var r1 := s[|lead|..];
    assert s[..|lead|] == lead;
    assert r1 == c + (middle + (f + tail));
    assert (middle + (f + tail))[0] == middle[0];
    DigitRunOfNumeral(c, middle + (f + tail));
    assert r1[..|c|] == c;
    var r2 := r1[|c|..];
    assert r2 == middle + (f + tail);
    assert r2[..|middle|] == middle;
    var r3 := r2[|middle|..];
    assert r3 == f + tail;
    DigitRunOfNumeral(f, tail);
    assert r3[..|f|] == f;
    assert r3[|f|..] == tail;
    DecimalRoundTrip(a);
    DecimalRoundTrip(b);
  }

  function NotSelf(selfId: TaskId): Task -> bool
  {
    (t: Task) => t.taskId != selfId
  }

  function CountedCompleted(t: Task): bool
  {
    t.status == TaskStatus.Completed && Present(t.resultId)
  }

  function IsFailed(t: Task): bool
  {
    t.status == TaskStatus.Failed
  }

  function HasError(r: TaskReport): bool
  {
    r.error.Some?
  }

  /** The workflow's tasks other than the report task, in the order they came. */
  function Others(selfId: TaskId, ts: seq<Task>): seq<Task>
  {
    Filter(ts, NotSelf(selfId))
  }

  /** The listing of one task. */
  function ReportFor(t: Task, results: map<ResultId, ResultRecord>): (r: TaskReport)
    ensures r.taskId == t.taskId && r.taskType == t.taskType && r.status == t.status
    ensures r.output == OutputOf(t, results)
    ensures r.output.Some? ==> CountedCompleted(t)
    ensures r.error.Some? <==> IsFailed(t)
    ensures r.error.Some? ==> r.error.value == FailureMarker
  {
    TaskReport(t.taskId, t.taskType, t.status, OutputOf(t, results),
               if IsFailed(t) then Some(FailureMarker) else None)
  }

  function Reports(ts: seq<Task>, results: map<ResultId, ResultRecord>): (rs: seq<TaskReport>)
    ensures |rs| == |ts|
    ensures forall i :: 0 <= i < |ts| ==> rs[i] == ReportFor(ts[i], results)
  {
    seq(|ts|, i requires 0 <= i < |ts| => ReportFor(ts[i], results))
  }

  /** `ReportGenerationJob.run` on the workflow's tasks as the repository returns them. */
  method GenerateReport(task: Task, workflowTasks: seq<Task>, results: map<ResultId, ResultRecord>)
    returns (report: WorkflowReport, completedCount: nat, failedCount: nat)
    ensures report.workflowId == task.workflowId
    ensures report.tasks == Reports(Others(task.taskId, workflowTasks), results)
    ensures completedCount == Count(Others(task.taskId, workflowTasks), CountedCompleted)
    ensures failedCount == Count(Others(task.taskId, workflowTasks), IsFailed)
    ensures report.finalReport == Summary(completedCount, failedCount)
  {
    var taskReports: seq<TaskReport> := [];
    completedCount, failedCount := 0, 0;
    ghost var others: seq<Task> := [];
    for i := 0 to |workflowTasks|
      invariant others == Others(task.taskId, workflowTasks[..i])
      invariant taskReports == Reports(others, results)
      invariant completedCount == Count(others, CountedCompleted)
      invariant failedCount == Count(others, IsFailed)
    {
      var workflowTask := workflowTasks[i];
      OthersStep(task.taskId, workflowTasks, i);
      if workflowTask.taskId == task.taskId {
        assert others + [] == others;
        continue;
      }
      CountAppend(others, [workflowTask], CountedCompleted);
      CountAppend(others, [workflowTask], IsFailed);
      ReportsAppend(others, workflowTask, results);

      var taskReport := TaskReport(workflowTask.taskId, workflowTask.taskType, workflowTask.status, None, None);
      if workflowTask.status == TaskStatus.Completed && Present(workflowTask.resultId) {
        completedCount := completedCount + 1;
        var rid := workflowTask.resultId.value;
        if rid in results && results[rid].data != "" {
          taskReport := taskReport.(output := Some(results[rid].data));
        }
      } else if workflowTask.status == TaskStatus.Failed {
        failedCount := failedCount + 1;
        taskReport := taskReport.(error := Some(FailureMarker));
      }
      assert taskReport == ReportFor(workflowTask, results);
      taskReports := taskReports + [taskReport];
      others := others + [workflowTask];
    }
    assert workflowTasks[..|workflowTasks|] == workflowTasks;
    report := WorkflowReport(task.workflowId, taskReports, Summary(completedCount, failedCount));
  }

  lemma OthersStep(selfId: TaskId, ts: seq<Task>, i: nat)
    requires i < |ts|
    ensures Others(selfId, ts[..i + 1])
         == Others(selfId, ts[..i]) + (if ts[i].taskId != selfId then [ts[i]] else [])
  {
    assert ts[..i + 1] == ts[..i] + [ts[i]];
    FilterAppend(ts[..i], [ts[i]], NotSelf(selfId));
    assert [ts[i]][1..] == [];
  }

  lemma ReportsAppend(ts: seq<Task>, t: Task, results: map<ResultId, ResultRecord>)
    ensures Reports(ts + [t], results) == Reports(ts, results) + [ReportFor(t, results)]
  {
  }

  /**
   * The report task never lists itself, and, task ids being unique, every
   * other task of the workflow is listed exactly once.
   */
  lemma ListsEveryOtherTaskOnce(self: Task, ts: seq<Task>, i: nat)
    requires forall a, b :: 0 <= a < b < |ts| ==> ts[a].taskId != ts[b].taskId
    requires i < |ts|
    ensures multiset(Others(self.taskId, ts))[ts[i]] == if ts[i].taskId == self.taskId then 0 else 1
    ensures forall k :: 0 <= k < |Others(self.taskId, ts)| ==> Others(self.taskId, ts)[k].taskId != self.taskId
  {
    FilterMultiplicity(ts, NotSelf(self.taskId), ts[i]);
    MultiplicityOfUnique(ts, i);
  }

  lemma {:induction false} MultiplicityOfUnique(ts: seq<Task>, i: nat)
    requires forall a, b :: 0 <= a < b < |ts| ==> ts[a].taskId != ts[b].taskId
    requires i < |ts|
    ensures multiset(ts)[ts[i]] == 1
    decreases |ts|
  {
    assert ts == [ts[0]] + ts[1..];
    if i == 0 {
      assert ts[0] !in ts[1..];
    } else {
      MultiplicityOfUnique(ts[1..], i - 1);
      assert ts[0] != ts[i];
    }
  }

  /**
   * Fed the repository's answer (the workflow's tasks by ascending step
   * number), the job lists the other tasks in step order.
   */
  lemma ListingKeepsStepOrder(self: Task, table: seq<Task>)
    ensures SortedBy(Others(self.taskId, SortBy(TasksOf(table, self.workflowId), StepKey)), StepKey)
  {
    FilterKeepsSorted(SortBy(TasksOf(table, self.workflowId), StepKey), NotSelf(self.taskId), StepKey);
  }

  /** No task is counted twice: both counts together never exceed the entries listed. */
  lemma {:induction false} CountsBounded(ts: seq<Task>)
    ensures Count(ts, CountedCompleted) + Count(ts, IsFailed) <= |ts|
    decreases |ts|
  {
    if ts != [] {
      CountsBounded(ts[1..]);
    }
  }

  /** The failed count is the number of listed tasks that carry the failure marker. */
  lemma {:induction false} FailedCountIsMarkedEntries(ts: seq<Task>, results: map<ResultId, ResultRecord>)
    ensures Count(Reports(ts, results), HasError) == Count(ts, IsFailed)
    decreases |ts|
  {
    if ts != [] {
      assert Reports(ts, results)[1..] == Reports(ts[1..], results);
      FailedCountIsMarkedEntries(ts[1..], results);
    }
  }
}
