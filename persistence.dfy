/**
 * An in-memory stand-in for the TypeORM repositories: the task table in
 * insertion order, and the workflow and result tables keyed by primary key.
 */
module Persistence {
  import opened Wrappers
  import opened Seqs
  import opened TaskModel
  import opened WorkflowModel

  /** The contents of the three tables at one moment. */
  datatype State = State(
    tasks: seq<Task>,
    workflows: map<WorkflowId, Workflow>,
    results: map<ResultId, ResultRecord>)

  function OwnedBy(workflowId: WorkflowId): Task -> bool
  {
    (t: Task) => t.workflowId == workflowId
  }

  /** The `tasks` relation of a workflow, loaded in table order. */
  function TasksOf(tasks: seq<Task>, workflowId: WorkflowId): (r: seq<Task>)
    ensures forall i :: 0 <= i < |r| ==> r[i].workflowId == workflowId && r[i] in tasks
    ensures forall i :: 0 <= i < |tasks| && tasks[i].workflowId == workflowId ==> tasks[i] in r
  {
    Filter(tasks, OwnedBy(workflowId))
  }

  /**
   * What the engine keeps true of the tables: task ids are unique, a task
   * has a result exactly when it is Completed, that result is stored and names
   * the task, and every stored result belongs to some task.
   */
  ghost predicate ValidState(s: State)
  {
    && (forall i, j :: 0 <= i < j < |s.tasks| ==> s.tasks[i].taskId != s.tasks[j].taskId)
    && (forall i :: 0 <= i < |s.tasks| ==>
          (s.tasks[i].resultId.Some? <==> s.tasks[i].status == TaskStatus.Completed))
    && (forall i :: 0 <= i < |s.tasks| && s.tasks[i].resultId.Some? ==>
          s.tasks[i].resultId.value in s.results
          && s.results[s.tasks[i].resultId.value].taskId == s.tasks[i].taskId)
    && (forall r :: r in s.results ==>
          s.results[r].resultId == r
          && exists i :: 0 <= i < |s.tasks| && s.tasks[i].resultId == Some(r))
  }

  /** The three repositories the engine reads and saves through. */
  class Store {
    var tasks: seq<Task>
    var workflows: map<WorkflowId, Workflow>
    var results: map<ResultId, ResultRecord>

    function Snapshot(): State
      reads this
    {
      State(tasks, workflows, results)
    }

    constructor ()
      ensures Snapshot() == State([], map[], map[])
      ensures ValidState(Snapshot())
    {
      tasks, workflows, results := [], map[], map[];
    }
  }
}
