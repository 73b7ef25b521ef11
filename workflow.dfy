/**
 * The workflow status enumeration (src/workflows/WorkflowFactory.ts), and
 * the `Workflow` and `Result` entities as the core uses them, together with
 * the shape of the aggregated report stored in `Workflow.finalResult`.
 */
module WorkflowModel {
  import opened Wrappers
  import opened TaskModel

  datatype WorkflowStatus = Initial | InProgress | Completed | Failed

  /** One per-task entry of the aggregated report (src/workers/taskRunner.ts). */
  datatype TaskEntry = TaskEntry(
    taskId: TaskId,
    taskType: string,
    stepNumber: int,
    status: TaskStatus,
    output: Option<string>,
    error: Option<string>)

  /** The aggregated report; its `completedAt` timestamp is not modelled. */
  datatype FinalReport = FinalReport(
    workflowId: WorkflowId,
    clientId: string,
    status: WorkflowStatus,
    tasks: seq<TaskEntry>)

  /** A workflow row; its tasks are the rows of the task table that name it. */
  datatype Workflow = Workflow(
    workflowId: WorkflowId,
    clientId: string,
    status: WorkflowStatus,
    finalResult: Option<FinalReport>)

  /** A row of the `results` table: the serialised output of one task. */
  datatype ResultRecord = ResultRecord(resultId: ResultId, taskId: TaskId, data: string)

  function EntryKey(e: TaskEntry): int
  {
    e.stepNumber
  }
}
