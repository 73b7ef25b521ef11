/**
 * The decision logic of the two query handlers (src/routes/workflowRoutes.ts)
 * as pure response functions over the tables. Express plumbing and the 500
 * catch-all branches are not modelled.
 */
module WorkflowRoutes {
  import opened Wrappers
  import opened Seqs
  import opened TaskModel
  import opened WorkflowModel
  import opened Persistence

  /** Response of `GET /:id/status`. */
  datatype StatusResponse =
    | StatusNotFound
    | StatusBody(workflowId: WorkflowId, status: WorkflowStatus, completedTasks: nat, totalTasks: nat)
  {
    function Code(): int
    {
      if StatusNotFound? then 404 else 200
    }
  }

  /** Response of `GET /:id/results`; the stored report is returned unparsed. */
  datatype ResultsResponse =
    | ResultsNotFound
    | NotYetCompleted(currentStatus: WorkflowStatus)
    | ResultsBody(workflowId: WorkflowId, status: WorkflowStatus, finalResult: Option<FinalReport>)
  {
    function Code(): int
    {
      match this
      case ResultsNotFound => 404
      case NotYetCompleted(_) => 400
      case ResultsBody(_, _, _) => 200
    }
  }

  function IsCompleted(t: Task): bool
  {
    t.status == TaskStatus.Completed
  }

  /** `GET /:id/status`: the stored status, echoed, and the task counts. */
  function GetStatus(s: State, id: WorkflowId): (r: StatusResponse)
    ensures r.StatusNotFound? <==> id !in s.workflows
    ensures r.StatusBody? ==> r.workflowId == s.workflows[id].workflowId && r.status == s.workflows[id].status
    ensures r.StatusBody? ==> r.totalTasks == |TasksOf(s.tasks, id)|
    ensures r.StatusBody? ==> r.completedTasks == Count(TasksOf(s.tasks, id), IsCompleted)
    ensures r.StatusBody? ==> r.completedTasks <= r.totalTasks
  {
    if id !in s.workflows then StatusNotFound
    else
      var workflow := s.workflows[id];
      var tasks := TasksOf(s.tasks, id);
      StatusBody(workflow.workflowId, workflow.status, Count(tasks, IsCompleted), |tasks|)
  }

  /** `GET /:id/results`: the stored report, served only for a Completed workflow. */
  function GetResults(s: State, id: WorkflowId): (r: ResultsResponse)
    ensures r.ResultsNotFound? <==> id !in s.workflows
    ensures r.ResultsBody? <==> id in s.workflows && s.workflows[id].status == WorkflowStatus.Completed
    ensures r.NotYetCompleted? ==> r.currentStatus == s.workflows[id].status
    ensures r.ResultsBody? ==> r.workflowId == s.workflows[id].workflowId
    ensures r.ResultsBody? ==> r.status == WorkflowStatus.Completed && r.finalResult == s.workflows[id].finalResult
  {
    if id !in s.workflows then ResultsNotFound
    else
      var workflow := s.workflows[id];
      if workflow.status != WorkflowStatus.Completed then NotYetCompleted(workflow.status)
      else ResultsBody(workflow.workflowId, workflow.status, workflow.finalResult)
  }

  /** Both endpoints answer 404 exactly for an unknown workflow id. */
  lemma UnknownIdIsNotFound(s: State, id: WorkflowId)
    ensures GetStatus(s, id).Code() == 404 <==> id !in s.workflows
    ensures GetResults(s, id).Code() == 404 <==> id !in s.workflows
  {
  }

  /** Results are served (200) only for a Completed workflow; any other known status, Failed included, is a 400. */
  lemma ResultsOnlyWhenCompleted(s: State, id: WorkflowId)
    requires id in s.workflows
    ensures GetResults(s, id).Code() == 200 <==> s.workflows[id].status == WorkflowStatus.Completed
    ensures s.workflows[id].status != WorkflowStatus.Completed ==>
      GetResults(s, id) == NotYetCompleted(s.workflows[id].status) && GetResults(s, id).Code() == 400
  {
  }

  /** Every task of the workflow is either among the completed ones or not, never both. */
  lemma CompletedAndPendingMakeTotal(s: State, id: WorkflowId)
    requires id in s.workflows
    ensures GetStatus(s, id).completedTasks
            + Count(TasksOf(s.tasks, id), (t: Task) => t.status != TaskStatus.Completed)
            == GetStatus(s, id).totalTasks
  {
    CountSplits(TasksOf(s.tasks, id), IsCompleted, (t: Task) => t.status != TaskStatus.Completed);
  }
}
