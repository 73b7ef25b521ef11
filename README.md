# Workflow engine core, modelled in Dafny

This project models the core of a small workflow engine written in
TypeScript over TypeORM.

**What the engine does**

- A client submits a workflow definition: a list of steps, each with a task
  type, a step number and an optional `dependsOn` step number.
- The factory materialises it as one `Initial` workflow and one `Queued` task
  per step. It then resolves each `dependsOn` through a step-number-to-task map.
- A background worker repeatedly does the following:
  - loads the `Queued` tasks by ascending step number;
  - picks the first whose dependency is absent or `Completed`;
  - runs it.
- The task runner does three things:
  - it marks the task `InProgress` and runs the job registered for its type;
  - it stores the job's serialised output as a `Result` and marks the task
    `Completed`, or marks it `Failed` and rethrows;
  - on success only, it recomputes the workflow status from all of its tasks
    (any `Failed` → `Failed`; all `Completed` → `Completed`; otherwise
    `InProgress`). On a terminal status it also stores an aggregated report
    sorted by step number.
- One job, the report generator, lists the other tasks of its workflow and
  counts the completed and failed ones.
- Two HTTP handlers expose a workflow's status and its final results.

**Modules**, one per file:

| module | file | models |
|---|---|---|
| `Wrappers` | `wrappers.dfy` | `Option` |
| `Seqs` | `seqs.dfy` | `filter` and `filter(...).length` |
| `Ordering` | `ordering.dfy` | a stable insertion sort; it stands for `Array.prototype.sort` and for `ORDER BY stepNumber ASC` |
| `Numerals` | `numerals.dfy` | decimal rendering of the summary counters and its inverse |
| `TaskModel` | `task.dfy` | the `tasks` entity and `TaskStatus` |
| `WorkflowModel` | `workflow.dfy` | `WorkflowStatus`, `Workflow`, `Result` and the report shapes |
| `Persistence` | `persistence.dfy` | the three tables as a value `State` and as a mutable `Store` class, with the consistency invariant `ValidState` |
| `WorkflowFactory` | `factory.dfy` | workflow materialisation |
| `TaskRunner` | `runner.dfy` | `TaskRunner.run` and `aggregateWorkflowResults` |
| `TaskWorker` | `worker.dfy` | one iteration of the worker loop |
| `ReportGeneration` | `report.dfy` | the report job |
| `WorkflowRoutes` | `routes.dfy` | the decision logic of the two endpoints |

**How the model is built**

- The imperative code is written as methods with loops over the `Store`:
  - the factory's two passes and its map building;
  - the worker's scan;
  - the runner's save sequence;
  - the aggregation loop;
  - the report job's loop.
- Each method is proved equal to a pure specification function, such as
  `RunEffect`, `TickEffect`, `AggregateReport` or `Reports`/`Others`/`Count`.
- The properties are proved as lemmas about those functions.

**Where the model follows the code rather than the documented intent**

- Dependencies are resolved by step number, not by task name. When several
  steps share a step number, the last one wins. An unknown `dependsOn` is
  silently ignored.
- No cycle is rejected. A step that depends on its own step number, and is the
  last step with that number, becomes its own dependency, and it is never ready.
- On a job failure the error is rethrown before the workflow is recomputed. So
  a workflow whose task fails keeps its previous status.
- The results endpoint answers 400 for every workflow that is not `Completed`,
  `Failed` included.

## Model

| member | source | states |
|---|---|---|
| TaskModel.IndexOf | src/models/Task.ts:35-39 | the loaded `dependency` is the first row whose primary key is the id, and there is none exactly when no row has that id |
| WorkflowFactory.StepNumberOf | src/models/Task.ts:28-29 | a step without a step number gets the column default 1; otherwise its own |
| WorkflowFactory.LastStepIndex | src/workflows/WorkflowFactory.ts:64-67 | the step that owns a step number in the map is the last step carrying it, and none exists when no step carries it |
| WorkflowFactory.BuildStepMap | src/workflows/WorkflowFactory.ts:64-67 | after the `forEach`, a step number is a key exactly when some step has it, and maps to the id of the last such task |
| WorkflowFactory.CreateWorkflow | src/workflows/WorkflowFactory.ts:36-84 | an `Initial` workflow with no result; one `Queued` task per step, in step order, copying client, geometry, type and step number, with no progress, result or name; its dependency is the resolved `dependsOn` |
| WorkflowFactory.LastWriteWins | src/workflows/WorkflowFactory.ts:65-75 | a dependency on a shared step number resolves to the last task with that number |
| WorkflowFactory.UnresolvedIsIgnored | src/workflows/WorkflowFactory.ts:72-76 | a `dependsOn` that names no step leaves the task without a dependency and raises nothing |
| WorkflowFactory.DependencyStaysInWorkflow | src/workflows/WorkflowFactory.ts:70-78 | a resolved dependency is a task of the same workflow whose step number is the `dependsOn` |
| WorkflowFactory.SelfDependencyAccepted | src/workflows/WorkflowFactory.ts:70-78 | no cycle check: a step that depends on its own step number, and is the last step with that number, becomes its own dependency |
| WorkflowFactory.AddingQueuedTasksKeepsValid | src/workflows/WorkflowFactory.ts:46-62 | adding the new workflow and its fresh `Queued` tasks keeps the tables consistent |
| WorkflowFactory.CreateAndSave | src/workflows/WorkflowFactory.ts:36-84 | both saves: the stored workflow is the `Initial` one with the given id and client and no result; after the existing rows comes, per step, the `Queued` task carrying its id, client, geometry, type, step number and resolved dependency, with no progress, result or name; results are untouched, and consistency is kept |
| Persistence.TasksOf | src/workers/taskRunner.ts:57 | the `tasks` relation holds exactly the rows that name the workflow |
| TaskRunner.StoredData | src/workers/taskRunner.ts:38 | a falsy job value is stored as `{}`; any other as its serialisation |
| TaskRunner.AnyFailed | src/workers/taskRunner.ts:61 | true exactly when some task is `Failed` |
| TaskRunner.AllCompleted | src/workers/taskRunner.ts:60 | true exactly when every task is `Completed`, so true of none |
| TaskRunner.DerivedStatus | src/workers/taskRunner.ts:60-73 | `Failed` exactly when a task failed; `Completed` exactly when all completed; never `Initial` |
| TaskRunner.DerivedStatusIgnoresOrder | src/workers/taskRunner.ts:60-73 | the derived status depends only on the multiset of tasks, not on their order |
| TaskRunner.OutputOf | src/workers/taskRunner.ts:97-105 | an output appears exactly for a `Completed` task with a truthy result id whose stored data is non-empty, and it is that data |
| TaskRunner.EntryFor | src/workers/taskRunner.ts:90-108 | an entry copies id, type, step number and status; its output is the task's stored output as `OutputOf` gives it, so only if `Completed`; the failure marker exactly when `Failed` |
| TaskRunner.Entries | src/workers/taskRunner.ts:89-111 | one entry per task, in the order of the tasks |
| TaskRunner.AggregateReportShape | src/workers/taskRunner.ts:79-125 | the report carries the workflow's id, client and status; it has one entry per task, is a permutation of the entries, and is sorted by step number |
| TaskRunner.AggregateWorkflowResults | src/workers/taskRunner.ts:79-125 | the push loop followed by the in-place sort yields exactly `AggregateReport` |
| TaskRunner.RecomputeIdempotent | src/workers/taskRunner.ts:55-76 | recomputing a workflow twice over the same tasks and results changes nothing more |
| TaskRunner.RunChangesOnlyItsTask | src/workers/taskRunner.ts:25-77 | `run` changes no row of the task table other than its task |
| TaskRunner.RunSucceeds | src/workers/taskRunner.ts:34-76 | on success: the task is `Completed` with the new result and cleared progress; the result names the task and holds the output; only its workflow changes, to the derived status; a report is stored only on a terminal status |
| TaskRunner.RunFails | src/workers/taskRunner.ts:45-53 | on a job error: the task is `Failed` with cleared progress; no result is stored; no workflow changes; the error is rethrown |
| TaskRunner.RunWithoutHandler | src/workers/taskRunner.ts:26-29 | a failing job lookup leaves the task `InProgress` with the starting note, and rethrows |
| TaskRunner.UpdateKeepsValid | src/workers/taskRunner.ts:34-50 | changing one `Queued` task either without a result or to `Completed` with a fresh result naming it keeps the tables consistent |
| TaskRunner.RunKeepsValid | src/workers/taskRunner.ts:25-77 | running a `Queued` task with an unused result id keeps the tables consistent |
| TaskRunner.Run | src/workers/taskRunner.ts:25-77 | the method's saves leave the store, and return the outcome, exactly as `RunEffect` describes |
| TaskWorker.QueuedByStep | src/workers/taskWorker.ts:11-15 | the query returns the `Queued` rows, each as often as it occurs in the table (a permutation of the filtered table), sorted by step number |
| TaskWorker.QueuedMembers | src/workers/taskWorker.ts:11-15 | every row the sorted query returns is a `Queued` table row, and every `Queued` row is returned |
| TaskWorker.FirstReady | src/workers/taskWorker.ts:19-30 | the chosen candidate is ready and no earlier candidate is; none is chosen only when no candidate is ready |
| TaskWorker.FirstReadyIsUnique | src/workers/taskWorker.ts:19-30 | the first ready candidate is unique |
| TaskWorker.PickReady | src/workers/taskWorker.ts:19-30 | the scan with `break` stops at the first candidate with no dependency or a `Completed` one, or finds none |
| TaskWorker.Selected | src/workers/taskWorker.ts:11-30 | a task is chosen exactly when some `Queued` task is ready; the chosen one is a `Queued`, ready row with the least step number among the ready `Queued` rows |
| TaskWorker.FirstReadyHasLeastStep | src/workers/taskWorker.ts:11-30 | in candidates ordered by step number, the first ready one has the least step number of all ready ones |
| TaskWorker.IdleWhenNothingReady | src/workers/taskWorker.ts:32-40 | when no `Queued` task is ready, the iteration changes nothing |
| TaskWorker.TickRunsAtMostOne | src/workers/taskWorker.ts:19-40 | at most one task changes per iteration, and only a `Queued`, ready one |
| TaskWorker.BlockedTaskIsSkipped | src/workers/taskWorker.ts:24-29 | a task whose dependency exists but is not `Completed` is left unchanged |
| TaskWorker.FailedDependencyBlocksForever | src/workers/taskWorker.ts:24-29 | a task depending on a `Failed` task stays unchanged, and its dependency stays `Failed`, so it waits for ever |
| TaskWorker.SelfDependentNeverReady | src/workers/taskWorker.ts:20-28 | a `Queued` task that depends on itself is never ready |
| TaskWorker.TickKeepsValid | src/workers/taskWorker.ts:32-40 | one iteration keeps the tables consistent |
| TaskWorker.Tick | src/workers/taskWorker.ts:9-43 | one loop body leaves the store exactly as `TickEffect` describes; a rethrown error is swallowed |
| ReportGeneration.ReportFor | src/jobs/ReportGenerationJob.ts:45-66 | a listing copies id, type and status; its output is the task's stored output as `OutputOf` gives it, so only for a counted completed task; the failure marker exactly when `Failed` |
| ReportGeneration.Reports | src/jobs/ReportGenerationJob.ts:39-69 | one listing per task, in order |
| ReportGeneration.GenerateReport | src/jobs/ReportGenerationJob.ts:23-81 | the loop lists the other tasks in the order given; it counts the `Completed` ones with a truthy result id and the `Failed` ones; the summary states both counts |
| ReportGeneration.OthersStep | src/jobs/ReportGenerationJob.ts:39-43 | each iteration skips only the report task itself |
| ReportGeneration.ReportsAppend | src/jobs/ReportGenerationJob.ts:68 | pushing a listing extends the listing of the prefix |
| ReportGeneration.ListsEveryOtherTaskOnce | src/jobs/ReportGenerationJob.ts:39-43 | the report task is never listed; with unique ids, every other task is listed exactly once |
| ReportGeneration.ListingKeepsStepOrder | src/jobs/ReportGenerationJob.ts:30-43 | given the query's answer in step order, the listing is in step order |
| ReportGeneration.CountsBounded | src/jobs/ReportGenerationJob.ts:51-66 | no task is counted both completed and failed, so the two counts never exceed the listed tasks |
| ReportGeneration.FailedCountIsMarkedEntries | src/jobs/ReportGenerationJob.ts:63-66 | the failed count equals the number of listings carrying the failure marker |
| ReportGeneration.SummaryRoundTrip | src/jobs/ReportGenerationJob.ts:74 | the summary line determines both counts: parsing it gives them back |
| ReportGeneration.RenderThenParse | src/jobs/ReportGenerationJob.ts:74 | two numbers written between fixed texts that do not start with a digit are read back exactly |
| Numerals.ToDecimal | src/jobs/ReportGenerationJob.ts:74 | a counter renders as a non-empty string of digits without a leading zero |
| Numerals.DecimalRoundTrip | src/jobs/ReportGenerationJob.ts:74 | reading back a rendered counter gives the counter |
| Numerals.DigitRun | src/jobs/ReportGenerationJob.ts:74 | the digit prefix found is all digits and is followed by a non-digit or the end |
| Numerals.DigitRunOfNumeral | src/jobs/ReportGenerationJob.ts:74 | a rendered counter followed by text is read off exactly |
| Ordering.SortBy | src/workers/taskRunner.ts:114 | the sort returns a permutation of its input, sorted by key |
| Ordering.SortByStable | src/workers/taskRunner.ts:114 | elements with equal keys keep their relative order |
| Ordering.InsertByStable | src/workers/taskRunner.ts:114 | an insertion puts the element first among those sharing its key |
| Ordering.InsertBySorted | src/workers/taskRunner.ts:114 | inserting into a sorted sequence keeps it sorted |
| Ordering.InsertByPermutes | src/workers/taskRunner.ts:114 | inserting adds exactly one occurrence of the element |
| Ordering.FilterKeepsSorted | src/jobs/ReportGenerationJob.ts:39-43 | dropping tasks from a sorted list leaves it sorted |
| Seqs.Filter | src/routes/workflowRoutes.ts:24-26 | a filtered element is one of the input satisfying the predicate, and every input element satisfying it is kept |
| Seqs.CountIsFilterLength | src/routes/workflowRoutes.ts:24-26 | counting agrees with the length of the filtered list |
| Seqs.CountSplits | src/routes/workflowRoutes.ts:24-32 | the tasks counted by a predicate and by its negation make up all of them |
| Seqs.FilterMultiplicity | src/jobs/ReportGenerationJob.ts:39-43 | filtering keeps each selected element as often as it occurs and drops the others |
| WorkflowRoutes.GetStatus | src/routes/workflowRoutes.ts:10-38 | 404 exactly for an unknown id; otherwise the stored id and status, the number of tasks, and the number of `Completed` ones (never more than the total) |
| WorkflowRoutes.GetResults | src/routes/workflowRoutes.ts:41-70 | 404 exactly for an unknown id; the body exactly for a `Completed` workflow, with its stored report; otherwise a 400 carrying the current status |
| WorkflowRoutes.UnknownIdIsNotFound | src/routes/workflowRoutes.ts:20-22 | both endpoints answer 404 exactly when the id is unknown |
| WorkflowRoutes.ResultsOnlyWhenCompleted | src/routes/workflowRoutes.ts:54-59 | for a known workflow, 200 exactly when `Completed`; any other status, `Failed` included, gets 400 with that status |
| WorkflowRoutes.CompletedAndPendingMakeTotal | src/routes/workflowRoutes.ts:24-32 | the completed count plus the not-completed tasks equals the total |

## Left out

- Reading and parsing the YAML file is outside the model. `CreateWorkflow` starts from the parsed steps.
- JSON serialisation and parsing are outside the model.
  - A job's value is given with its serialisation.
  - Stored outputs and reports are kept as text or as datatypes, not parsed.
- Timestamps are not modelled: `completedAt` and `generatedAt` read the clock.
- Logging is not modelled.
- The 500 branches of the endpoints are not modelled: they need a database error, which the in-memory tables cannot raise.
- TypeORM is replaced by in-memory tables, and the primary keys the database generates are parameters. The `ids` of `CreateWorkflow`, the `workflowId` and the `rid` of `Run` are assumed fresh.
- The job registry and the jobs are not modelled; they are a parameter `handler` that throws, is missing, or returns a value.
  - `PolygonAreaJob` is not part of this model.
  - The report job's own database query is a parameter of `GenerateReport`.
- The endless worker loop and its five-second sleep are left out. `Tick` models one iteration.
- Concurrency is left out: several workers and interleaved saves.
  - The race between the factory's two saves is not modelled, because `CreateAndSave` performs both at once.
- WorkflowFactory.CreateAndSave: the task rows are appended after the second save only. Between the two saves the tasks exist without dependencies; no reader in the model observes that moment.
- TaskWorker.QueuedByStep: the database's order for tasks with equal step numbers is unspecified. The model assumes table order.
- Persistence.TasksOf: the `tasks` relation is assumed to load in table order.
- WorkflowFactory.StepNumberOf: a step with no step number is assumed to take the column default 1 before the map is built. The code reads the number back from the saved entity.
- TaskRunner.OutputOf: the parse-or-keep-raw choice of the stored data is not modelled. The output is the stored text.
- WorkflowRoutes.GetResults: the stored report is returned as it is, not re-parsed.
- ReportGeneration.GenerateReport: it takes the query's answer as a parameter, so its ordering is stated separately by `ListingKeepsStepOrder`.
