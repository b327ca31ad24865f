/**
 * Concrete runs of the model that mirror the unit tests of the two report
 * services: each one is proved from the contracts of the operations it calls.
 */
module Scenarios {
  import opened Outcome
  import opened StatusEnum
  import opened Entities
  import opened Lifecycle
  import opened StatusRollup
  import opened Listing
  import opened Service

  function EmptyReport(id: nat, st: Option<Status>): TaskReport {
    TaskReport(id, id, 0, None, None, "", st, [])
  }

  /**
   * A single SUCCESS step of 100 seconds, with no start or end time of its
   * own, rolls its report up to SUCCESS, ended now, 100 seconds long.
   */
  lemma SingleSuccessStep(now: int)
    ensures
      var step := StepReport(1, 1, "", 0, None, Some(100), Some(SUCCESS), "");
      var report := EmptyReport(1, None).(stepIds := [1]);
      Rollup(report, [step], now) ==
        Ok(report.(status := Some(SUCCESS), endDateTime := Some(now), executionTimeSeconds := Some(100)))
  {
    var step := StepReport(1, 1, "", 0, None, Some(100), Some(SUCCESS), "");
    RollupSuccessTime(EmptyReport(1, None).(stepIds := [1]), [step], now);
    assert SumTimes([step]) == SumTimes([]) + 100;
  }

  /** Three SUCCESS reports and two FAILURE reports: the by-status listing finds 3, 2 and 0. */
  lemma ByStatusCounts()
    ensures
      var all := [EmptyReport(1, Some(SUCCESS)), EmptyReport(2, Some(SUCCESS)), EmptyReport(3, Some(SUCCESS)),
                  EmptyReport(4, Some(FAILURE)), EmptyReport(5, Some(FAILURE))];
      && |ReportsWithStatus(all, Some(SUCCESS))| == 3
      && |ReportsWithStatus(all, Some(FAILURE))| == 2
      && |ReportsWithStatus(all, Some(RUNNING))| == 0
  {
    var s := [EmptyReport(1, Some(SUCCESS)), EmptyReport(2, Some(SUCCESS)), EmptyReport(3, Some(SUCCESS))];
    var f := [EmptyReport(4, Some(FAILURE)), EmptyReport(5, Some(FAILURE))];
    forall i | 0 <= i < |s| ensures HasStatus(Some(SUCCESS))(s[i]) {
      assert i == 0 || i == 1 || i == 2;
    }
    forall i | 0 <= i < |f| ensures HasStatus(Some(FAILURE))(f[i]) {
      assert i == 0 || i == 1;
    }
    FilterAll(s, HasStatus(Some(SUCCESS)));
    FilterAll(f, HasStatus(Some(FAILURE)));
    FilterAppend(s, f, HasStatus(Some(SUCCESS)));
    FilterAppend(s, f, HasStatus(Some(FAILURE)));
    FilterAppend(s, f, HasStatus(Some(RUNNING)));
  }

  /** A second report for one task is refused with AlreadySuchTask. */
  method CreateReportTwice(now: int) returns (first: Result<TaskReport>, second: Result<TaskReport>)
    ensures first.Ok? && second == Err(AlreadySuchTask)
  {
    var store := new Store();
    var task := store.CreateTask("t");
    var body := EmptyReport(0, None);
    first := store.CreateTaskExecutionReport(task.id, body, now);
    second := store.CreateTaskExecutionReport(task.id, body, now + 1);
  }

  /**
   * On a task without a report, deleting a step is refused with
   * NoSuchTaskReport while creating one dereferences the missing report.
   */
  method StepOnTaskWithoutReport(now: int) returns (deleted: Result<()>, created: Result<StepReport>)
    ensures deleted == Err(NoSuchTaskReport) && created == Err(NullPointer)
  {
    var store := new Store();
    var task := store.CreateTask("t");
    deleted := store.DeleteTaskStepExecutionReport(task.id, 1, 1, now);
    var body := StepReport(0, 0, "step", 0, None, None, Some(RUNNING), "");
    created := store.CreateTaskStepExecutionReport(task.id, 1, body, now);
  }

  /** A store holding one task whose report lists one RUNNING step. */
  method OneRunningStep(now: int) returns (store: Store, taskId: nat, reportId: nat, stepId: nat)
    ensures fresh(store) && store.Valid()
    ensures taskId in store.tasks && store.tasks[taskId].report == Some(reportId)
    ensures reportId in store.reports && store.reports[reportId].stepIds == [stepId]
    ensures stepId in store.steps && store.steps[stepId].status == Some(RUNNING)
  {
    store := new Store();
    var task := store.CreateTask("t");
    taskId := task.id;
    var created := store.CreateTaskExecutionReport(taskId, EmptyReport(0, None), now);
    reportId := created.value.id;
    var body := StepReport(0, 0, "step", 0, None, None, Some(RUNNING), "");
    var step := store.CreateTaskStepExecutionReport(taskId, reportId, body, now);
    stepId := step.value.id;
  }

  /** Deleting the only step of a report, as written: the step is gone and the call still throws. */
  method DeleteStepThrowsAfterRemoval(now: int) returns (r: Result<()>, stepGone: bool)
    ensures r == Err(NoSuchStepReport) && stepGone
  {
    var store, taskId, reportId, stepId := OneRunningStep(now);
    r := store.DeleteTaskStepExecutionReportAsWritten(taskId, reportId, stepId, now);
    stepGone := stepId !in store.steps;
  }

  /** Deleting the only step of a report, corrected: the call returns normally and the report has no status. */
  method DeleteStepReturnsAfterRemoval(now: int) returns (r: Result<()>, status: Option<Status>)
    ensures r == Ok(()) && status == None
  {
    var store, taskId, reportId, stepId := OneRunningStep(now);
    r := store.DeleteTaskStepExecutionReport(taskId, reportId, stepId, now);
    status := store.reports[reportId].status;
  }

  /** A RUNNING step makes its report RUNNING, without an execution time. */
  method RunningStepRollsUp(now: int) returns (report: Result<TaskReport>)
    ensures report.Ok? && report.value.status == Some(RUNNING) && report.value.executionTimeSeconds.None?
  {
    var store := new Store();
    var task := store.CreateTask("t");
    var created := store.CreateTaskExecutionReport(task.id, EmptyReport(0, None), now);
    var rid := created.value.id;
    var body := StepReport(0, 0, "step", 0, None, None, Some(RUNNING), "");
    var step := store.CreateTaskStepExecutionReport(task.id, rid, body, now);
    report := store.ResolveReport(task.id, rid, false);
  }
}
