# Task execution reports — a Dafny model of the service core

The system records how tasks run. A **task** owns at most one **task
execution report**. A report owns a set of **step execution reports**. This
project models the service layer that keeps those three levels consistent:

- **The status rollup.** `updateAttributes` calls `updateStatus` and then
  `updateTime`. They derive a report's status, end time and total execution
  time from its steps. The rule is: no steps gives null; any FAILURE gives
  FAILURE; otherwise any RUNNING gives RUNNING; otherwise SUCCESS, with the
  steps' times summed.
- **The step lifecycle rule** (`checkForSuccess`). A SUCCESS step gets an end
  time and the whole seconds elapsed since its start. Any other step has
  neither.
- **The hierarchy check** at the head of every report and step operation. It
  looks up the task, then the task's report, then the step among the report's
  children, and it stops with `NoSuchTask`, `NoSuchTaskReport` or
  `NoSuchStepReport` at the first level that fails.
- **Report and step create/read/update/delete**, and the listings by status,
  by execution time and by start time.
- **The `Status` enum** and its `contains` check.

Files, one module each:

- `outcome.dfy` (`Outcome`): `Option`, `Result` and the exceptions the core throws.
- `status.dfy` (`StatusEnum`): the enum, `name()`, `values()` and `contains`.
- `entities.dfy` (`Entities`): the three records.
- `lifecycle.dfy` (`Lifecycle`): `checkForSuccess`.
- `rollup.dfy` (`StatusRollup`): `updateStatus`, `updateTime`, `updateAttributes`.
- `listing.dfy` (`Listing`): the stream `filter` and `sorted` pipelines.
- `store.dfy` (`Service`): class `Store`. It holds the three repositories as
  maps from id to record, plus the next id each will generate. Its methods
  are the two service classes' operations.
- `scenarios.dfy` (`Scenarios`): concrete runs that mirror the unit tests.

How the model represents the source:

- **Links are ids.** A task's report link is an `Option<nat>`. A report's
  step set is a `seq<nat>` of step ids, kept free of duplicates. The store
  invariant `Store.Valid` says that:
  - every record sits under its own id, below the next id to be generated;
  - a task and its report name each other, so a task has at most one report;
  - a report lists each of its steps once;
  - every stored step is listed by the report it names;
  - every stored step's timing agrees with its status.
- **The clock** is an integer count of seconds, passed in as `now`.
  `ChronoUnit.SECONDS.between` becomes `end - start`.
- **Exceptions become `Err(..)` values.** A `NullPointerException` is
  `Err(NullPointer)`. Two kinds of place throw one:
  - The report service (lines 55, 67 and 81) and the step service (lines 40
    and 63) read `getTaskExecutionReport().getId()` without a null test. The
    step service's update and delete (lines 83 and 108) test first and throw
    `NoSuchTaskReport` instead. `Store.ResolveReport` models both through its
    `guarded` flag.
  - A step may be stored without a status, because the code never validates
    it. Such a step is neither FAILURE nor RUNNING, so the rollup says SUCCESS.
    `updateTime` then unboxes the step's null time and throws.
- **There is no transaction.** When a rollup throws, the step change it
  followed is already saved, and the report keeps its previous rollup fields.
  The contracts of the step methods say so.

In four places the code does something other than what the service's
interface suggests. The model follows the code:

- **Listing by status with a null argument.** One might expect this to yield
  nothing. The code's `==` selects the reports that have no status.
- **Creating a report.** One might expect a new report to start without a
  status. The code saves the request body as given, so its status, end time,
  time and error message are kept. The task link and start time are set, and
  the model gives the report a newly generated id (see "Left out" for a body
  that carries an id).
- **Deleting a report.** The entity declares `CascadeType.REMOVE`, so the
  report's steps go with it, and the task no longer has a report.
- **Deleting a step.** One might expect this to fail only when the step is
  not found. The code throws `NoSuchStepReport` after every call; see
  Findings below.

## Model

| member | source | states |
|---|---|---|
| `StatusEnum.Contains` | src/main/java/com/example/claytoncodingassessment/model/Status.java:9-18 | true exactly when the argument is the name of one of the constants |
| `StatusEnum.ContainsIn` | src/main/java/com/example/claytoncodingassessment/model/Status.java:11-15 | the early-return scan finds a match exactly when some remaining constant has that name |
| `StatusEnum.ExactlyThreeStatuses` | src/main/java/com/example/claytoncodingassessment/model/Status.java:3-6 | `values()` lists three constants, every constant, each once |
| `StatusEnum.NameInjective` | src/main/java/com/example/claytoncodingassessment/model/Status.java:3-6 | two constants have the same name only if they are the same constant |
| `StatusEnum.NameRoundTrip` | src/main/java/com/example/claytoncodingassessment/model/Status.java:11-13 | `contains(s.name())` holds and `valueOf(s.name())` gives `s` back, for every constant |
| `StatusEnum.ContainsIffValueOf` | src/main/java/com/example/claytoncodingassessment/model/Status.java:9-18 | `contains` accepts exactly the strings that name a constant |
| `StatusEnum.ContainsIsCaseSensitive` | src/main/java/com/example/claytoncodingassessment/model/Status.java:12 | the comparison is exact: "success", "running" and "failure" are rejected, while the upper-case names are accepted |
| `Lifecycle.CheckForSuccess` | src/main/java/com/example/claytoncodingassessment/service/serviceimpl/TaskStepExecutionReportServiceImpl.java:132-142 | the result's timing agrees with its status: a SUCCESS step ends now and its time is the seconds from start to end, and any other step has neither; no other field changes |
| `Lifecycle.ElapsedNonNegative` | src/main/java/com/example/claytoncodingassessment/service/serviceimpl/TaskStepExecutionReportServiceImpl.java:135-137 | the elapsed time is never negative unless the clock went back |
| `Lifecycle.CheckForSuccessReapplied` | src/main/java/com/example/claytoncodingassessment/service/serviceimpl/TaskStepExecutionReportServiceImpl.java:91-92 | re-applying the rule depends only on the latest clock reading, so applying it twice is applying it once |
| `Lifecycle.CheckForSuccessOnConsistent` | src/main/java/com/example/claytoncodingassessment/service/serviceimpl/TaskStepExecutionReportServiceImpl.java:132-142 | on a step whose timing already agrees with its status, a non-SUCCESS step, or a SUCCESS step that ended at `now`, is left unchanged |
| `StatusRollup.AnyWithStatus` | src/main/java/com/example/claytoncodingassessment/service/serviceimpl/TaskExecutionReportServiceImpl.java:99-108 | each early-return scan answers whether some step has that status |
| `StatusRollup.RollupStatus` | src/main/java/com/example/claytoncodingassessment/service/serviceimpl/TaskExecutionReportServiceImpl.java:94-110 | null exactly for no steps; FAILURE exactly when some step failed; RUNNING exactly when none failed and some runs; SUCCESS exactly when there are steps and none failed or runs |
| `StatusRollup.UpdateTime` | src/main/java/com/example/claytoncodingassessment/service/serviceimpl/TaskExecutionReportServiceImpl.java:112-124 | the accumulating loop computes the report that `ApplyTime` specifies, and throws on the first step without a time |
| `StatusRollup.Rollup` | src/main/java/com/example/claytoncodingassessment/service/serviceimpl/TaskExecutionReportServiceImpl.java:88-92 | `updateAttributes` without the save: it throws a null dereference exactly when the derived status is SUCCESS and some step has no time; otherwise the report keeps its id and steps and carries the derived status |
| `StatusRollup.RollupFields` | src/main/java/com/example/claytoncodingassessment/service/serviceimpl/TaskExecutionReportServiceImpl.java:88-92 | a rolled-up report carries the derived status and differs from the original only in status, end time and time |
| `StatusRollup.RollupSuccessTime` | src/main/java/com/example/claytoncodingassessment/service/serviceimpl/TaskExecutionReportServiceImpl.java:115-120 | when the derived status is SUCCESS and every step has a time, the report is SUCCESS, ends now, and its time is the sum of the step times |
| `StatusRollup.RollupNotSuccess` | src/main/java/com/example/claytoncodingassessment/service/serviceimpl/TaskExecutionReportServiceImpl.java:121-123 | when the derived status is not SUCCESS, the rollup succeeds, clears the time and leaves the end time as it was |
| `StatusRollup.RollupThrowsIff` | src/main/java/com/example/claytoncodingassessment/service/serviceimpl/TaskExecutionReportServiceImpl.java:115-119 | for steps with consistent timing, the rollup throws exactly when no step failed or runs and some step has no status |
| `StatusRollup.SumTimesPermutation` | src/main/java/com/example/claytoncodingassessment/service/serviceimpl/TaskExecutionReportServiceImpl.java:114-119 | the summed time is the same in whatever order the step set is iterated |
| `StatusRollup.RollupOrderIndependent` | src/main/java/com/example/claytoncodingassessment/service/serviceimpl/TaskExecutionReportServiceImpl.java:95-120 | the whole rollup is the same for every iteration order of the step set |
| `Listing.Filter` | src/main/java/com/example/claytoncodingassessment/service/serviceimpl/TaskExecutionReportServiceImpl.java:128-131 | the result is no longer than the input, and each element satisfies the predicate and comes from the input |
| `Listing.FilterMultiset` | src/main/java/com/example/claytoncodingassessment/service/serviceimpl/TaskExecutionReportServiceImpl.java:128-131 | filtering keeps each matching element exactly as often as it occurs and drops every other element |
| `Listing.FilterKeepsOrder` | src/main/java/com/example/claytoncodingassessment/service/serviceimpl/TaskExecutionReportServiceImpl.java:128-131 | filtering keeps the input order: a strictly increasing key stays strictly increasing |
| `Listing.FilterAppend` | src/main/java/com/example/claytoncodingassessment/service/serviceimpl/TaskExecutionReportServiceImpl.java:128-131 | filtering a concatenation is concatenating the filtered parts |
| `Listing.SortBy` | src/main/java/com/example/claytoncodingassessment/service/serviceimpl/TaskExecutionReportServiceImpl.java:139 | `sorted(Comparator.comparing(key))` returns a permutation of its input, ascending by key |
| `Listing.InsertStable` | src/main/java/com/example/claytoncodingassessment/service/serviceimpl/TaskExecutionReportServiceImpl.java:139 | inserting an element into a sorted sequence places it before every element of the sequence with the same key |
| `Listing.SortByStable` | src/main/java/com/example/claytoncodingassessment/service/serviceimpl/TaskExecutionReportServiceImpl.java:139 | the sort is stable, as `Stream.sorted` is on an ordered stream: for every key, the elements with that key come out in their input order |
| `Listing.ReportsWithStatusSpec` | src/main/java/com/example/claytoncodingassessment/service/serviceimpl/TaskExecutionReportServiceImpl.java:127-132 | the by-status filter keeps exactly the reports with that status, each as often as it is stored |
| `Listing.ReportsByExecutionTime` | src/main/java/com/example/claytoncodingassessment/service/serviceimpl/TaskExecutionReportServiceImpl.java:135-141 | every report with a time, as often as given, and no other report, ascending by time |
| `Listing.StepsByStartTime` | src/main/java/com/example/claytoncodingassessment/service/serviceimpl/TaskStepExecutionReportServiceImpl.java:149-152 | a permutation of the steps, ascending by start time |
| `Listing.StepsByExecutionTime` | src/main/java/com/example/claytoncodingassessment/service/serviceimpl/TaskStepExecutionReportServiceImpl.java:160-164 | the steps with a time, as often as given, and no other step, ascending by time |
| `Service.FindStep` | src/main/java/com/example/claytoncodingassessment/service/serviceimpl/TaskStepExecutionReportServiceImpl.java:66-72 | the for-each search returns a child with the requested id, and returns nothing exactly when no child has that id |
| `Service.RemoveFirst` | src/main/java/com/example/claytoncodingassessment/service/serviceimpl/TaskStepExecutionReportServiceImpl.java:117-124 | removal never adds an id |
| `Service.RemoveFirstSpec` | src/main/java/com/example/claytoncodingassessment/service/serviceimpl/TaskStepExecutionReportServiceImpl.java:117-124 | on a duplicate-free step set, removal leaves exactly the other steps, each once, and is one shorter when the step was there |
| `Service.RemoveChild` | src/main/java/com/example/claytoncodingassessment/service/serviceimpl/TaskStepExecutionReportServiceImpl.java:117-124 | the iterator loop, which stops at the first match, computes `RemoveFirst` |
| `Service.ReportsBelow` | src/main/java/com/example/claytoncodingassessment/service/serviceimpl/TaskExecutionReportServiceImpl.java:44-47 | `findAll` lists every stored report below the given id exactly once, by ascending id, and nothing else |
| `Service.ConsistentSaveReport` | src/main/java/com/example/claytoncodingassessment/service/serviceimpl/TaskExecutionReportServiceImpl.java:91 | saving a rolled-up report that keeps its id, task and steps preserves the store invariant |
| `Service.ConsistentAddStep` | src/main/java/com/example/claytoncodingassessment/service/serviceimpl/TaskStepExecutionReportServiceImpl.java:43-46 | saving a new step under the next id, with consistent timing and linked into its report, preserves the store invariant |
| `Service.ConsistentReplaceStep` | src/main/java/com/example/claytoncodingassessment/service/serviceimpl/TaskStepExecutionReportServiceImpl.java:89-93 | replacing a step by one with the same id and report and consistent timing preserves the store invariant |
| `Service.ConsistentRemoveStep` | src/main/java/com/example/claytoncodingassessment/service/serviceimpl/TaskStepExecutionReportServiceImpl.java:114-124 | deleting a step and unlinking it from its report preserves the store invariant |
| `Service.Store.OneReportPerTask` | src/main/java/com/example/claytoncodingassessment/service/serviceimpl/TaskExecutionReportServiceImpl.java:35-36 | in a consistent store, two reports of the same task are the same report |
| `Service.Store.CreateTask` | src/main/java/com/example/claytoncodingassessment/service/serviceimpl/TaskServiceImpl.java:19-21 | stores a new task without a report under a fresh id, keeping the store consistent; the next task id goes up by one and the other counters stay |
| `Service.Store.AllReports` | src/main/java/com/example/claytoncodingassessment/service/serviceimpl/TaskExecutionReportServiceImpl.java:44-47 | every stored report, each once, by ascending id |
| `Service.Store.ResolveReport` | src/main/java/com/example/claytoncodingassessment/service/serviceimpl/TaskExecutionReportServiceImpl.java:49-59 | `NoSuchTask` for a missing task; for a task without a report, a null dereference where unguarded and `NoSuchTaskReport` where guarded; `NoSuchTaskReport` for another report id; otherwise the stored report, which belongs to the task |
| `Service.Store.CreateTaskExecutionReport` | src/main/java/com/example/claytoncodingassessment/service/serviceimpl/TaskExecutionReportServiceImpl.java:31-42 | `NoSuchTask`, then `AlreadySuchTask`, each changing nothing; otherwise the body, assumed to carry no id, is stored under a newly generated id, with its task set, started now and with no steps, and the task is linked to it; only a stored report advances the next report id, and no other counter moves |
| `Service.Store.UpdateTaskExecutionReport` | src/main/java/com/example/claytoncodingassessment/service/serviceimpl/TaskExecutionReportServiceImpl.java:61-73 | a failed hierarchy check changes nothing; otherwise only the error message is taken from the patch; no id counter moves |
| `Service.Store.DeleteTaskExecutionReport` | src/main/java/com/example/claytoncodingassessment/service/serviceimpl/TaskExecutionReportServiceImpl.java:75-85 | a failed hierarchy check changes nothing; otherwise the report and its steps are deleted and the task no longer has a report; no id counter moves, so a deleted id is never issued again |
| `Service.Store.UpdateAttributes` | src/main/java/com/example/claytoncodingassessment/service/serviceimpl/TaskExecutionReportServiceImpl.java:88-92 | the report is replaced by its rollup over its stored steps, or left alone when the rollup throws; nothing else changes |
| `Service.Store.GetAllTaskExecutionReportsByStatus` | src/main/java/com/example/claytoncodingassessment/service/serviceimpl/TaskExecutionReportServiceImpl.java:126-132 | exactly the stored reports whose status equals the argument (null included), in store order |
| `Service.Store.GetAllTaskExecutionReportsOrderedByExeTime` | src/main/java/com/example/claytoncodingassessment/service/serviceimpl/TaskExecutionReportServiceImpl.java:134-141 | each stored report that has a time, once, ascending by time |
| `Service.Store.ChildrenListing` | src/main/java/com/example/claytoncodingassessment/service/serviceimpl/TaskStepExecutionReportServiceImpl.java:172 | a report's step set holds exactly the stored steps that name that report, each once |
| `Service.Store.CreateTaskStepExecutionReport` | src/main/java/com/example/claytoncodingassessment/service/serviceimpl/TaskStepExecutionReportServiceImpl.java:34-49 | a failed hierarchy check changes nothing. Otherwise the step body, assumed to carry no id, is stored under a newly generated id, with its report set, started now and with the lifecycle rule applied; it is linked to the report and the report is rolled up. A throwing rollup keeps the step and returns a null dereference. The next step id advances exactly when the check passed, and no other counter moves |
| `Service.Store.FindStepInReport` | src/main/java/com/example/claytoncodingassessment/service/serviceimpl/TaskStepExecutionReportServiceImpl.java:66-72 | the search over a report's steps finds a step exactly when the report lists it, and that step is the stored one |
| `Service.Store.GetTaskStepExecutionReport` | src/main/java/com/example/claytoncodingassessment/service/serviceimpl/TaskStepExecutionReportServiceImpl.java:56-73 | the unguarded hierarchy check, then `NoSuchStepReport` exactly when the report does not list the step; otherwise the stored step, which belongs to the report |
| `Service.Store.UpdateTaskStepExecutionReport` | src/main/java/com/example/claytoncodingassessment/service/serviceimpl/TaskStepExecutionReportServiceImpl.java:75-99 | the guarded hierarchy check, then `NoSuchStepReport`, each changing nothing. Otherwise the patch replaces the step but keeps its id, report and start time; the lifecycle rule is re-applied and the report is rolled up; no id counter moves |
| `Service.Store.GetAllTaskStepExecutionReportGivenTaskExecutionReport` | src/main/java/com/example/claytoncodingassessment/service/serviceimpl/TaskStepExecutionReportServiceImpl.java:167-173 | `NoSuchTaskReport` exactly for an unknown report; otherwise each stored step of the report, once, and no other step |
| `Service.Store.GetAllTaskStepExecutionReportsSortedByStartDateTime` | src/main/java/com/example/claytoncodingassessment/service/serviceimpl/TaskStepExecutionReportServiceImpl.java:144-153 | `NoSuchTaskReport` exactly for an unknown report; otherwise each stored step of the report, once, ascending by start time |
| `Service.Store.GetAllTaskStepExecutionReportsSortedByExeTime` | src/main/java/com/example/claytoncodingassessment/service/serviceimpl/TaskStepExecutionReportServiceImpl.java:155-165 | `NoSuchTaskReport` exactly for an unknown report; otherwise each stored step of the report that has a time, once, ascending by time |
| `Service.Store.UnlinkStep` | src/main/java/com/example/claytoncodingassessment/service/serviceimpl/TaskStepExecutionReportServiceImpl.java:114-124 | the step is deleted and dropped from its report's step set, while the report's other steps stay as they were; no id counter moves |
| `Service.Store.RemoveStep` | src/main/java/com/example/claytoncodingassessment/service/serviceimpl/TaskStepExecutionReportServiceImpl.java:113-125 | after unlinking, the report is rolled up over its remaining steps, or keeps its old rollup fields when the rollup throws; no id counter moves |
| `Service.Store.DeleteTaskStepExecutionReport` | src/main/java/com/example/claytoncodingassessment/service/serviceimpl/TaskStepExecutionReportServiceImpl.java:101-129 | corrected: the guarded hierarchy check, then `NoSuchStepReport` only for a step the report does not list, each changing nothing; otherwise the removal, which returns normally unless the rollup throws; no id counter moves |
| `Service.Store.DeleteTaskStepExecutionReportAsWritten` | src/main/java/com/example/claytoncodingassessment/service/serviceimpl/TaskStepExecutionReportServiceImpl.java:101-129 | as written: the same checks and removal, but every call ends in an error, and a successful removal still throws `NoSuchStepReport`; no id counter moves |
| `Scenarios.SingleSuccessStep` | src/test/java/com/example/claytoncodingassessment/service/serviceimpl/TaskExecutionReportServiceImplTest.java:145-160 | the test's one SUCCESS step of 100 seconds, without start or end time, makes its report SUCCESS, ended now and 100 seconds long |
| `Scenarios.ByStatusCounts` | src/test/java/com/example/claytoncodingassessment/service/serviceimpl/TaskExecutionReportServiceImplTest.java:165-199 | three SUCCESS and two FAILURE reports give counts 3, 2 and 0 |
| `Scenarios.CreateReportTwice` | src/main/java/com/example/claytoncodingassessment/service/serviceimpl/TaskExecutionReportServiceImpl.java:33-36 | a second report for the same task is refused with `AlreadySuchTask` |
| `Scenarios.StepOnTaskWithoutReport` | src/test/java/com/example/claytoncodingassessment/service/serviceimpl/TaskStepExecutionReportServiceImplTest.java:167-180 | on a task without a report, deleting a step gives `NoSuchTaskReport`, while creating one dereferences null |
| `Scenarios.OneRunningStep` | src/main/java/com/example/claytoncodingassessment/service/serviceimpl/TaskStepExecutionReportServiceImpl.java:35-48 | creating a task, its report and one RUNNING step leaves a consistent store in which the report lists exactly that step |
| `Scenarios.DeleteStepThrowsAfterRemoval` | src/main/java/com/example/claytoncodingassessment/service/serviceimpl/TaskStepExecutionReportServiceImpl.java:112-128 | as written, deleting the only step of a report removes it and still throws `NoSuchStepReport` |
| `Scenarios.DeleteStepReturnsAfterRemoval` | src/main/java/com/example/claytoncodingassessment/service/serviceimpl/TaskStepExecutionReportServiceImpl.java:111-125 | corrected, deleting the only step of a report returns normally, and the report, now without steps, has no status |
| `Scenarios.RunningStepRollsUp` | src/main/java/com/example/claytoncodingassessment/service/serviceimpl/TaskExecutionReportServiceImpl.java:104-108 | after a RUNNING step is created, the stored report is RUNNING and has no time |

## Left out

- **Controllers, HTTP mapping and Swagger.** These are transport. The
  controllers' own validation (such as the task title check) is not modelled.
- **`getAllTaskStepExecutionReports`, `findTaskReportById` and
  `findTaskById`.** These are plain repository reads. The model reads the maps
  directly.
- **JPA details.**
  - Lazy loading and persistence-context identity are not modelled. The
    report a service reads is taken to be the stored one, and a saved record
    replaces the stored one.
  - `findAll` is modelled as listing by ascending id. JPA promises no order.
- **64-bit overflow.** `Long` ids, times and the `exeTime` sum are unbounded
  integers here.
- **Sub-second time.** `LocalDateTime` values are whole seconds, so
  `SECONDS.between` is exact subtraction. The source truncates toward zero.
- **Set iteration order.** A report's `HashSet` of steps is a sequence in
  insertion order. `StatusRollup.RollupOrderIndependent` shows that the rollup
  does not depend on that order. The unsorted step listing and the search do
  follow it.
- **Possible `ConcurrentModificationException`.** After a removal, the delete
  loop goes on iterating the step set it came from, and that set may be the
  one the removal changed. The model ends that loop in the final throw.
- Service.Store.CreateTask: takes only the title, so the body is assumed to
  carry no id and no report. `save` given a body with an id
  (TaskServiceImpl.java:19-21) would overwrite the stored task instead.
- Service.Store.CreateTaskExecutionReport: assumes the request body carries
  no id, so the id is always generated. The code passes the body straight to
  `save` (TaskExecutionReportServiceImpl.java:38-40), and `save` given a body
  with an id would overwrite the stored record with that id instead.
- Service.Store.CreateTaskStepExecutionReport: assumes the same of the step
  body (TaskStepExecutionReportServiceImpl.java:43-46); a body with an id
  would overwrite the stored step with that id.
- Service.Store.GetAllTaskExecutionReportsByStatus: states membership and id
  order; it does not restate the multiplicity from `Listing.FilterMultiset`,
  because every stored report is distinct.

## Findings

| source | as written | input that shows it | evidently intended | confidence | as-written member | corrected member |
|---|---|---|---|---|---|---|
| src/main/java/com/example/claytoncodingassessment/service/serviceimpl/TaskStepExecutionReportServiceImpl.java:112-128 | after a matching step is removed and the report rolled up, the for-each loop neither returns nor breaks, so control reaches the final `throw new NoSuchStepReportException` | any delete of a step the report lists: task 1 with report 1 that lists step 1, then delete (1, 1, 1) | return normally after the removal, and throw `NoSuchStepReport` only when no child matches | high (not executed) | `Service.Store.DeleteTaskStepExecutionReportAsWritten`, with `Scenarios.DeleteStepThrowsAfterRemoval` | `Service.Store.DeleteTaskStepExecutionReport`, with `Scenarios.DeleteStepReturnsAfterRemoval` |
