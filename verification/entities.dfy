/**
 * The three persisted records. Links between them are identifiers rather than
 * object references: a task names its report, a report names its task and
 * lists the ids of its step reports, a step report names its report.
 * Times are whole seconds on an integer clock.
 */
module Entities {
  import opened Outcome
  import opened StatusEnum

  /** A task; `report` is the id of its task report, absent (null) when it has none. */
  datatype Task = Task(id: nat, title: string, report: Option<nat>)

  /**
   * A task execution report. `stepIds` is its set of step reports; the set's
   * iteration order is whatever order this sequence lists.
   */
  datatype TaskReport = TaskReport(
    id: nat,
    taskId: nat,
    startDateTime: int,
    endDateTime: Option<int>,
    executionTimeSeconds: Option<int>,
    errorMessage: string,
    status: Option<Status>,
    stepIds: seq<nat>)

  /** A task step execution report; `status` is null when the caller gave none. */
  datatype StepReport = StepReport(
    id: nat,
    reportId: nat,
    stepName: string,
    startDateTime: int,
    endDateTime: Option<int>,
    executionTimeSeconds: Option<int>,
    status: Option<Status>,
    errorMessage: string)

  /** No identifier occurs twice: a sequence standing for a set. */
  predicate NoDuplicates(ids: seq<nat>) {
    forall i, j :: 0 <= i < j < |ids| ==> ids[i] != ids[j]
  }
}
