/**
 * Workflow materialisation (src/workflows/WorkflowFactory.ts), from the
 * parsed definition onward: one Initial workflow, one Queued task per step,
 * and each `dependsOn` resolved by step number through a map in which the
 * last task written for a step number wins.
 */
module WorkflowFactory {
  import opened Wrappers
  import opened TaskModel
  import opened WorkflowModel
  import opened Persistence

  /** One parsed step of a workflow definition; both numbers may be absent. */
  datatype Step = Step(taskType: string, stepNumber: Option<int>, dependsOn: Option<int>)

  /** The step number the saved task carries: the column default when the step gives none. */
  function StepNumberOf(step: Step): (n: int)
    ensures step.stepNumber.None? ==> n == DefaultStepNumber
    ensures step.stepNumber.Some? ==> n == step.stepNumber.value
  {
    match step.stepNumber
    case Some(n) => n
    case None => DefaultStepNumber
  }

  /** The index of the last step whose step number is `n`, if there is one. */
  function LastStepIndex(steps: seq<Step>, n: int): (r: Option<nat>)
    ensures r.Some? ==> r.value < |steps| && StepNumberOf(steps[r.value]) == n
    ensures r.Some? ==> forall k :: r.value < k < |steps| ==> StepNumberOf(steps[k]) != n
    ensures r.None? ==> forall k :: 0 <= k < |steps| ==> StepNumberOf(steps[k]) != n
    decreases |steps|
  {
    if steps == [] then None
    else if StepNumberOf(steps[|steps| - 1]) == n then Some(|steps| - 1)
    else LastStepIndex(steps[..|steps| - 1], n)
  }

  /**
   * The dependency a `dependsOn` yields: the id of the last task created for
   * that step number; nothing when it is absent or matches no step.
   */
  function ResolveDependsOn(steps: seq<Step>, ids: seq<TaskId>, dependsOn: Option<int>): Option<TaskId>
    requires |ids| == |steps|
  {
    match dependsOn
    case None => None
    case Some(n) =>
      match LastStepIndex(steps, n)
      case None => None
      case Some(j) => Some(ids[j])
  }

  /** The step number to task map; a later task overwrites an earlier one with the same number. */
  method BuildStepMap(steps: seq<Step>, ids: seq<TaskId>, saved: seq<Task>) returns (stepToTask: map<int, TaskId>)
    requires |ids| == |steps| == |saved|
    requires forall j :: 0 <= j < |saved| ==> saved[j].stepNumber == StepNumberOf(steps[j]) && saved[j].taskId == ids[j]
    ensures forall n :: n in stepToTask <==> LastStepIndex(steps, n).Some?
    ensures forall n :: n in stepToTask ==> stepToTask[n] == ids[LastStepIndex(steps, n).value]
  {
    stepToTask := map[];
    for i := 0 to |saved|
      invariant forall n :: n in stepToTask <==> LastStepIndex(steps[..i], n).Some?
      invariant forall n :: n in stepToTask ==> stepToTask[n] == ids[LastStepIndex(steps[..i], n).value]
    {
      assert steps[..i + 1][..i] == steps[..i];
      stepToTask := stepToTask[saved[i].stepNumber := saved[i].taskId];
    }
    assert steps[..|steps|] == steps;
  }

  /**
   * Builds the workflow and its tasks. `ids` are the primary keys the first
   * save of the tasks assigns, one per step, in step order.
   */
  method CreateWorkflow(steps: seq<Step>, clientId: string, geoJson: string,
                        workflowId: WorkflowId, ids: seq<TaskId>)
    returns (workflow: Workflow, tasks: seq<Task>)
    requires |ids| == |steps|
    ensures workflow.workflowId == workflowId && workflow.clientId == clientId
    ensures workflow.status == WorkflowStatus.Initial && workflow.finalResult.None?
    ensures |tasks| == |steps|
    ensures forall i :: 0 <= i < |steps| ==>
      && tasks[i].taskId == ids[i]
      && tasks[i].status == TaskStatus.Queued
      && tasks[i].clientId == clientId
      && tasks[i].geoJson == geoJson
      && tasks[i].workflowId == workflowId
      && tasks[i].taskType == steps[i].taskType
      && tasks[i].stepNumber == StepNumberOf(steps[i])
      && tasks[i].progress.None? && tasks[i].resultId.None? && tasks[i].name.None?
    ensures forall i :: 0 <= i < |steps| ==>
      tasks[i].dependencyId == ResolveDependsOn(steps, ids, steps[i].dependsOn)
    ensures forall i :: 0 <= i < |steps| ==>
      tasks[i] == Task(ids[i], clientId, geoJson, TaskStatus.Queued, None, None, steps[i].taskType,
                       StepNumberOf(steps[i]), None, ResolveDependsOn(steps, ids, steps[i].dependsOn), workflowId)
  {
    workflow := Workflow(workflowId, clientId, WorkflowStatus.Initial, None);

    // First pass: one task per step, without dependencies.
    var saved: seq<Task> := [];
    for i := 0 to |steps|
      invariant |saved| == i
      invariant forall j :: 0 <= j < i ==>
        saved[j] == Task(ids[j], clientId, geoJson, TaskStatus.Queued, None, None,
                         steps[j].taskType, StepNumberOf(steps[j]), None, None, workflowId)
    {
      saved := saved + [Task(ids[i], clientId, geoJson, TaskStatus.Queued, None, None,
                             steps[i].taskType, StepNumberOf(steps[i]), None, None, workflowId)];
    }

    var stepToTask := BuildStepMap(steps, ids, saved);

    // Second pass: resolve each `dependsOn`, silently skipping unknown step numbers.
    tasks := saved;
    for i := 0 to |steps|
      invariant |tasks| == |saved|
      invariant forall j :: 0 <= j < |steps| ==>
        tasks[j] == saved[j].(dependencyId := if j < i then ResolveDependsOn(steps, ids, steps[j].dependsOn) else None)
    {
      if steps[i].dependsOn.Some? {
        var n := steps[i].dependsOn.value;
        if n in stepToTask {
          tasks := tasks[i := tasks[i].(dependencyId := Some(stepToTask[n]))];
        }
      }
    }
  }

  /** When several steps share a step number, a dependency on it resolves to the last of them. */
  lemma LastWriteWins(steps: seq<Step>, ids: seq<TaskId>, j: nat, k: nat)
    requires |ids| == |steps|
    requires j < k < |steps| && StepNumberOf(steps[j]) == StepNumberOf(steps[k])
    requires forall m :: k < m < |steps| ==> StepNumberOf(steps[m]) != StepNumberOf(steps[k])
    ensures ResolveDependsOn(steps, ids, Some(StepNumberOf(steps[j]))) == Some(ids[k])
  {
  }

  /** A `dependsOn` naming no step number yields no dependency and no error. */
  lemma UnresolvedIsIgnored(steps: seq<Step>, ids: seq<TaskId>, n: int)
    requires |ids| == |steps|
    requires forall k :: 0 <= k < |steps| ==> StepNumberOf(steps[k]) != n
    ensures ResolveDependsOn(steps, ids, Some(n)).None?
  {
  }

  /** A resolved dependency is always one of the tasks of the same workflow. */
  lemma DependencyStaysInWorkflow(steps: seq<Step>, ids: seq<TaskId>, d: Option<int>)
    requires |ids| == |steps|
    requires ResolveDependsOn(steps, ids, d).Some?
    ensures exists j ::
              && 0 <= j < |steps|
              && ResolveDependsOn(steps, ids, d) == Some(ids[j])
              && d == Some(StepNumberOf(steps[j]))
  {
  }

  /**
   * No cycle check: a step that depends on its own step number (and is the
   * last step with that number) becomes its own dependency.
   */
  lemma SelfDependencyAccepted(steps: seq<Step>, ids: seq<TaskId>, i: nat)
    requires |ids| == |steps| && i < |steps|
    requires steps[i].dependsOn == Some(StepNumberOf(steps[i]))
    requires forall m :: i < m < |steps| ==> StepNumberOf(steps[m]) != StepNumberOf(steps[i])
    ensures ResolveDependsOn(steps, ids, steps[i].dependsOn) == Some(ids[i])
  {
  }

  /** Appending freshly created Queued tasks with unused ids keeps the tables consistent. */
  lemma {:induction false} AddingQueuedTasksKeepsValid(s: State, tasks: seq<Task>, workflow: Workflow)
    requires ValidState(s)
    requires forall i :: 0 <= i < |tasks| ==> tasks[i].status == TaskStatus.Queued && tasks[i].resultId.None?
    requires forall i, j :: 0 <= i < j < |tasks| ==> tasks[i].taskId != tasks[j].taskId
    requires forall i, j :: 0 <= i < |s.tasks| && 0 <= j < |tasks| ==> s.tasks[i].taskId != tasks[j].taskId
    ensures ValidState(State(s.tasks + tasks, s.workflows[workflow.workflowId := workflow], s.results))
  {
    var t := s.tasks + tasks;
    forall r | r in s.results
      ensures exists i :: 0 <= i < |t| && t[i].resultId == Some(r)
    {
      var i :| 0 <= i < |s.tasks| && s.tasks[i].resultId == Some(r);
      assert t[i] == s.tasks[i];
    }
  }

  /** Materialises a definition and saves the workflow and its tasks. */
  method CreateAndSave(db: Store, steps: seq<Step>, clientId: string, geoJson: string,
                       workflowId: WorkflowId, ids: seq<TaskId>)
    returns (workflow: Workflow)
    requires |ids| == |steps|
    requires ValidState(db.Snapshot())
    requires forall i, j :: 0 <= i < j < |ids| ==> ids[i] != ids[j]
    requires forall i, j :: 0 <= i < |db.tasks| && 0 <= j < |ids| ==> db.tasks[i].taskId != ids[j]
    modifies db
    ensures workflow == Workflow(workflowId, clientId, WorkflowStatus.Initial, None)
    ensures db.workflows == old(db.workflows)[workflowId := workflow]
    ensures db.results == old(db.results)
    ensures |db.tasks| == |old(db.tasks)| + |steps|
    ensures db.tasks[..|old(db.tasks)|] == old(db.tasks)
    ensures forall i :: 0 <= i < |steps| ==>
      db.tasks[|old(db.tasks)| + i]
      == Task(ids[i], clientId, geoJson, TaskStatus.Queued, None, None, steps[i].taskType,
              StepNumberOf(steps[i]), None, ResolveDependsOn(steps, ids, steps[i].dependsOn), workflowId)
    ensures ValidState(db.Snapshot())
  {
    var tasks;
    workflow, tasks := CreateWorkflow(steps, clientId, geoJson, workflowId, ids);
    AddingQueuedTasksKeepsValid(db.Snapshot(), tasks, workflow);
    db.workflows := db.workflows[workflowId := workflow];
    db.tasks := db.tasks + tasks;
  }
}
