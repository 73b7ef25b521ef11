/**
 * The `tasks` entity (src/models/Task.ts) and the task status enumeration
 * it stores (declared in src/workers/taskRunner.ts; it sits here because
 * Dafny modules may not import each other in a cycle).
 */
module TaskModel {
  import opened Wrappers

  type TaskId = string
  type WorkflowId = string
  type ResultId = string

  /** The four statuses a task can be in; the type admits no other value. */
  datatype TaskStatus = Queued | InProgress | Completed | Failed

  /** Value of the `stepNumber` column when the entity does not supply one. */
  const DefaultStepNumber: int := 1

  /**
   * One row of the `tasks` table. The nullable columns are options; the
   * single optional `dependencyId` column is the whole dependency relation, so
   * a task names at most one predecessor; `workflowId` is the non-nullable
   * many-to-one link, so every task belongs to exactly one workflow.
   */
  datatype Task = Task(
    taskId: TaskId,
    clientId: string,
    geoJson: string,
    status: TaskStatus,
    progress: Option<string>,
    resultId: Option<ResultId>,
    taskType: string,
    stepNumber: int,
    name: Option<string>,
    dependencyId: Option<TaskId>,
    workflowId: WorkflowId)

  /** JavaScript truthiness of an optional string column: present and not empty. */
  predicate Present(o: Option<string>)
  {
    o.Some? && o.value != ""
  }

  function StepKey(t: Task): int
  {
    t.stepNumber
  }

  /** The position of the row with primary key `id`, the first one if there were several. */
  function IndexOf(table: seq<Task>, id: TaskId): (r: Option<nat>)
    ensures r.Some? ==> r.value < |table| && table[r.value].taskId == id
    ensures r.Some? ==> forall j :: 0 <= j < r.value ==> table[j].taskId != id
    ensures r.None? ==> forall j :: 0 <= j < |table| ==> table[j].taskId != id
    decreases |table|
  {
    if table == [] then None
    else if table[0].taskId == id then Some(0)
    else match IndexOf(table[1..], id)
      case None => None
      case Some(k) => Some(k + 1)
  }

  /** The task of the table whose primary key is `id`, as a relation load finds it. */
  function FindTask(table: seq<Task>, id: TaskId): Option<Task>
  {
    match IndexOf(table, id)
    case None => None
    case Some(i) => Some(table[i])
  }
}
