/**
 * One iteration of the dispatcher loop (src/workers/taskWorker.ts): load the
 * Queued tasks by ascending step number, pick the first whose dependency is
 * absent or Completed, run it, and swallow whatever it throws. The endless
 * loop and its five-second sleep are not modelled.
 */
module TaskWorker {
  import opened Wrappers
  import opened Seqs
  import opened Ordering
  import opened TaskModel
  import opened Persistence
  import opened TaskRunner

  function IsQueued(t: Task): bool
  {
    t.status == TaskStatus.Queued
  }

  /** The query result: the Queued tasks, ordered by step number (ties in table order). */
  function QueuedByStep(table: seq<Task>): (q: seq<Task>)
    ensures SortedBy(q, StepKey)
    ensures multiset(q) == multiset(Filter(table, IsQueued))
    ensures forall k :: 0 <= k < |q| ==> q[k].status == TaskStatus.Queued && q[k] in table
    ensures forall i :: 0 <= i < |table| && table[i].status == TaskStatus.Queued ==> table[i] in q
  {
    QueuedMembers(table);
    SortBy(Filter(table, IsQueued), StepKey)
  }

  lemma QueuedMembers(table: seq<Task>)
    ensures var q := SortBy(Filter(table, IsQueued), StepKey);
      && (forall k :: 0 <= k < |q| ==> q[k] in table && IsQueued(q[k]))
      && (forall i :: 0 <= i < |table| && IsQueued(table[i]) ==> table[i] in q)
  {
    var f := Filter(table, IsQueued);
    var q := SortBy(f, StepKey);
    forall k | 0 <= k < |q|
      ensures q[k] in table && IsQueued(q[k])
    {
      assert q[k] in multiset(q);
      var j :| 0 <= j < |f| && f[j] == q[k];
    }
    forall i | 0 <= i < |table| && IsQueued(table[i])
      ensures table[i] in q
    {
      assert table[i] in multiset(f);
    }
  }

  /** A task may run when it has no dependency, or its loaded dependency is Completed. */
  predicate Ready(t: Task, table: seq<Task>)
  {
    || !Present(t.dependencyId)
    || (var dep := FindTask(table, t.dependencyId.value);
        dep.Some? && dep.value.status == TaskStatus.Completed)
  }

  /** The position of the first ready candidate. */
  function FirstReady(queued: seq<Task>, table: seq<Task>): (r: Option<nat>)
    ensures r.Some? ==> r.value < |queued| && Ready(queued[r.value], table)
    ensures r.Some? ==> forall j :: 0 <= j < r.value ==> !Ready(queued[j], table)
    ensures r.None? ==> forall j :: 0 <= j < |queued| ==> !Ready(queued[j], table)
    decreases |queued|
  {
    if queued == [] then None
    else if Ready(queued[0], table) then Some(0)
    else match FirstReady(queued[1..], table)
      case None => None
      case Some(k) => Some(k + 1)
  }

  /** Any position that is ready with no ready candidate before it is the one `FirstReady` finds. */
  lemma FirstReadyIsUnique(queued: seq<Task>, table: seq<Task>, k: nat)
    requires k < |queued| && Ready(queued[k], table)
    requires forall j :: 0 <= j < k ==> !Ready(queued[j], table)
    ensures FirstReady(queued, table) == Some(k)
  {
  }

  /** The scan of the candidates, stopping at the first ready one. */
  method PickReady(queued: seq<Task>, table: seq<Task>) returns (pick: Option<nat>)
    ensures pick.Some? ==> pick.value < |queued| && Ready(queued[pick.value], table)
    ensures pick.Some? ==> forall j :: 0 <= j < pick.value ==> !Ready(queued[j], table)
    ensures pick.None? ==> forall j :: 0 <= j < |queued| ==> !Ready(queued[j], table)
  {
    pick := None;
    for i := 0 to |queued|
      invariant pick.None?
      invariant forall j :: 0 <= j < i ==> !Ready(queued[j], table)
    {
      var task := queued[i];
      if !Present(task.dependencyId) {
        pick := Some(i);
        break;
      } else {
        var dependency := FindTask(table, task.dependencyId.value);
        if dependency.Some? && dependency.value.status == TaskStatus.Completed {
          pick := Some(i);
          break;
        }
      }
    }
  }

  /** The first ready candidate has the least step number of all the ready candidates. */
  lemma FirstReadyHasLeastStep(queued: seq<Task>, table: seq<Task>, k: nat)
    requires SortedBy(queued, StepKey)
    requires k < |queued| && Ready(queued[k], table)
    requires forall j :: 0 <= j < k ==> !Ready(queued[j], table)
    ensures forall m :: 0 <= m < |queued| && Ready(queued[m], table) ==> queued[k].stepNumber <= queued[m].stepNumber
  {
    forall m | 0 <= m < |queued| && Ready(queued[m], table)
      ensures queued[k].stepNumber <= queued[m].stepNumber
    {
      if m != k {
        assert k < m;
        assert StepKey(queued[k]) <= StepKey(queued[m]);
      }
    }
  }

  /**
   * The task the iteration runs: some task is chosen exactly when a Queued
   * task is ready, and the one chosen is a ready Queued row with the least
   * step number among them.
   */
  function Selected(s: State): (r: Option<Task>)
    ensures r.Some? ==> r.value in s.tasks && r.value.status == TaskStatus.Queued && Ready(r.value, s.tasks)
    ensures r.Some? ==> IndexOf(s.tasks, r.value.taskId).Some?
    ensures r.None? <==>
      forall i :: 0 <= i < |s.tasks| && s.tasks[i].status == TaskStatus.Queued ==> !Ready(s.tasks[i], s.tasks)
    ensures r.Some? ==>
      forall i :: 0 <= i < |s.tasks| && s.tasks[i].status == TaskStatus.Queued && Ready(s.tasks[i], s.tasks)
        ==> r.value.stepNumber <= s.tasks[i].stepNumber
  {
    var queued := QueuedByStep(s.tasks);
    match FirstReady(queued, s.tasks)
    case None =>
      assert forall i :: 0 <= i < |s.tasks| && s.tasks[i].status == TaskStatus.Queued ==> !Ready(s.tasks[i], s.tasks) by {
        forall i | 0 <= i < |s.tasks| && s.tasks[i].status == TaskStatus.Queued
          ensures !Ready(s.tasks[i], s.tasks)
        {
          assert s.tasks[i] in queued;
          var m :| 0 <= m < |queued| && queued[m] == s.tasks[i];
        }
      }
      None
    case Some(k) =>
      assert queued[k] in s.tasks;
      FirstReadyHasLeastStep(queued, s.tasks, k);
      assert forall i :: 0 <= i < |s.tasks| && s.tasks[i].status == TaskStatus.Queued && Ready(s.tasks[i], s.tasks)
               ==> queued[k].stepNumber <= s.tasks[i].stepNumber by {
        forall i | 0 <= i < |s.tasks| && s.tasks[i].status == TaskStatus.Queued && Ready(s.tasks[i], s.tasks)
          ensures queued[k].stepNumber <= s.tasks[i].stepNumber
        {
          assert s.tasks[i] in queued;
          var m :| 0 <= m < |queued| && queued[m] == s.tasks[i];
        }
      }
      Some(queued[k])
  }

  /** The tables after one iteration; the runner's outcome is discarded. */
  function TickEffect(s: State, handler: Task -> HandlerOutcome, rid: ResultId): State
  {
    match Selected(s)
    case None => s
    case Some(t) => RunEffect(s, t.taskId, handler, rid).0
  }

  /** When no candidate is ready, the iteration changes nothing. */
  lemma IdleWhenNothingReady(s: State, handler: Task -> HandlerOutcome, rid: ResultId)
    requires forall i :: 0 <= i < |s.tasks| && s.tasks[i].status == TaskStatus.Queued ==> !Ready(s.tasks[i], s.tasks)
    ensures TickEffect(s, handler, rid) == s
  {
  }

  /**
   * At most one task changes per iteration, and only a Queued, ready task:
   * the one run, which is the first ready candidate by step number.
   */
  lemma TickRunsAtMostOne(s: State, handler: Task -> HandlerOutcome, rid: ResultId)
    requires ValidState(s)
    ensures |TickEffect(s, handler, rid).tasks| == |s.tasks|
    ensures forall i, j :: 0 <= i < j < |s.tasks| ==>
      TickEffect(s, handler, rid).tasks[i] == s.tasks[i] || TickEffect(s, handler, rid).tasks[j] == s.tasks[j]
    ensures forall i :: 0 <= i < |s.tasks| && TickEffect(s, handler, rid).tasks[i] != s.tasks[i] ==>
      s.tasks[i].status == TaskStatus.Queued && Ready(s.tasks[i], s.tasks)
  {
    if Selected(s).Some? {
      var t := Selected(s).value;
      var k := IndexOf(s.tasks, t.taskId).value;
      RunChangesOnlyItsTask(s, t.taskId, handler, rid);
      var m :| 0 <= m < |s.tasks| && s.tasks[m] == t;
      assert m == k;
    }
  }

  /**
   * A Queued task whose dependency exists but is not Completed (Queued,
   * InProgress or Failed) is skipped and left as it is.
   */
  lemma BlockedTaskIsSkipped(s: State, handler: Task -> HandlerOutcome, rid: ResultId, i: nat)
    requires ValidState(s)
    requires i < |s.tasks|
    requires Present(s.tasks[i].dependencyId)
    requires FindTask(s.tasks, s.tasks[i].dependencyId.value).Some?
    requires FindTask(s.tasks, s.tasks[i].dependencyId.value).value.status != TaskStatus.Completed
    ensures |TickEffect(s, handler, rid).tasks| == |s.tasks|
    ensures TickEffect(s, handler, rid).tasks[i] == s.tasks[i]
  {
    TickRunsAtMostOne(s, handler, rid);
  }

  /**
   * A Failed dependency blocks for good: after an iteration the dependency is
   * still Failed and the dependent is unchanged, so the same holds at the next one.
   */
  lemma FailedDependencyBlocksForever(s: State, handler: Task -> HandlerOutcome, rid: ResultId, i: nat, d: nat)
    requires ValidState(s)
    requires i < |s.tasks| && d < |s.tasks|
    requires Present(s.tasks[i].dependencyId) && s.tasks[i].dependencyId.value == s.tasks[d].taskId
    requires s.tasks[d].status == TaskStatus.Failed
    ensures var s' := TickEffect(s, handler, rid);
      && |s'.tasks| == |s.tasks|
      && s'.tasks[i] == s.tasks[i]
      && s'.tasks[d] == s.tasks[d]
  {
    TickRunsAtMostOne(s, handler, rid);
    var dep := FindTask(s.tasks, s.tasks[d].taskId);
    assert IndexOf(s.tasks, s.tasks[d].taskId) == Some(d);
    assert dep == Some(s.tasks[d]);
  }

  /** A task that depends on itself is never ready while it is Queued. */
  lemma SelfDependentNeverReady(table: seq<Task>, i: nat)
    requires forall a, b :: 0 <= a < b < |table| ==> table[a].taskId != table[b].taskId
    requires i < |table| && table[i].status == TaskStatus.Queued
    requires table[i].taskId != "" && table[i].dependencyId == Some(table[i].taskId)
    ensures !Ready(table[i], table)
  {
    assert IndexOf(table, table[i].taskId) == Some(i);
  }

  /** An iteration keeps the tables consistent when `rid` is unused. */
  lemma TickKeepsValid(s: State, handler: Task -> HandlerOutcome, rid: ResultId)
    requires ValidState(s)
    requires rid !in s.results
    ensures ValidState(TickEffect(s, handler, rid))
  {
    if Selected(s).Some? {
      var t := Selected(s).value;
      var k := IndexOf(s.tasks, t.taskId).value;
      var m :| 0 <= m < |s.tasks| && s.tasks[m] == t;
      assert m == k;
      RunKeepsValid(s, t.taskId, handler, rid);
    }
  }

  /** The body of the `taskWorker` loop, once. */
  method Tick(db: Store, handler: Task -> HandlerOutcome, rid: ResultId)
    modifies db
    ensures db.Snapshot() == TickEffect(old(db.Snapshot()), handler, rid)
  {
    var queuedTasks := QueuedByStep(db.tasks);
    var pick := PickReady(queuedTasks, db.tasks);
    if pick.Some? {
      FirstReadyIsUnique(queuedTasks, db.tasks, pick.value);
      // A rethrown error is caught and only logged; the loop goes on.
      var _ := Run(db, queuedTasks[pick.value].taskId, handler, rid);
    }
  }
}
