/**
 * The report and step-report services over one in-memory store. The three
 * repositories are maps from generated id to record; a service call that
 * throws is an `Err` result.
 */
module Service {
  import opened Outcome
  import opened StatusEnum
  import opened Entities
  import opened Lifecycle
  import opened StatusRollup
  import opened Listing

  /** The ids in a child list, as a set. */
  function Elems(ids: seq<nat>): set<nat> {
    set i | i in ids
  }

  /** The step reports a child list names, in its order. */
  function ChildrenOf(stepMap: map<nat, StepReport>, ids: seq<nat>): (r: seq<StepReport>)
    requires forall i :: i in ids ==> i in stepMap
    ensures |r| == |ids|
    ensures forall k :: 0 <= k < |ids| ==> r[k] == stepMap[ids[k]]
  {
    if ids == [] then [] else [stepMap[ids[0]]] + ChildrenOf(stepMap, ids[1..])
  }

  /** The for-each search of a report's steps for the one with id `id`. */
  function FindStep(children: seq<StepReport>, id: nat): (r: Option<StepReport>)
    ensures r.Some? ==> r.value in children && r.value.id == id
    ensures r.None? <==> forall k :: 0 <= k < |children| ==> children[k].id != id
  {
    if children == [] then None
    else if children[0].id == id then Some(children[0])
    else FindStep(children[1..], id)
  }

  /** The child list after `iterator.remove()` of the first entry equal to `id`. */
  function RemoveFirst(ids: seq<nat>, id: nat): (r: seq<nat>)
    ensures forall x :: x in r ==> x in ids
  {
    if ids == [] then []
    else if ids[0] == id then ids[1..]
    else [ids[0]] + RemoveFirst(ids[1..], id)
  }

  /** Removing from a child list that names each step once leaves exactly the other steps, each once. */
  lemma {:induction false} RemoveFirstSpec(ids: seq<nat>, id: nat)
    requires NoDuplicates(ids)
    ensures NoDuplicates(RemoveFirst(ids, id))
    ensures forall x :: x in RemoveFirst(ids, id) <==> x in ids && x != id
    ensures |RemoveFirst(ids, id)| == if id in ids then |ids| - 1 else |ids|
  {
    if ids != [] && ids[0] != id {
      RemoveFirstSpec(ids[1..], id);
      var rest := RemoveFirst(ids[1..], id);
      assert RemoveFirst(ids, id) == [ids[0]] + rest;
      assert ids[0] !in ids[1..];
      assert id in ids <==> id in ids[1..];
    } else if ids != [] {
      assert ids[0] !in ids[1..];
    }
  }

  /** The entries before the first occurrence come first, then the entries after it. */
  lemma {:induction false} RemoveFirstAt(ids: seq<nat>, id: nat, k: nat)
    requires k <= |ids| && id !in ids[..k]
    ensures k < |ids| && ids[k] == id ==> RemoveFirst(ids, id) == ids[..k] + ids[k + 1..]
    ensures k == |ids| ==> RemoveFirst(ids, id) == ids
  {
    if ids != [] && k > 0 {
      assert ids[0] != id by { assert ids[0] == ids[..k][0]; }
      assert ids[1..][..k - 1] == ids[..k][1..];
      RemoveFirstAt(ids[1..], id, k - 1);
      if k < |ids| && ids[k] == id {
        assert ids[..k] == [ids[0]] + ids[1..][..k - 1];
        assert ids[k + 1..] == ids[1..][k..];
      }
    }
  }

  /** The iterator loop of deleteTaskStepExecutionReport: remove the first matching child and stop. */
  method RemoveChild(ids: seq<nat>, id: nat) returns (rest: seq<nat>)
    ensures rest == RemoveFirst(ids, id)
  {
    var i := 0;
    rest := ids;
    while i < |ids|
      invariant 0 <= i <= |ids|
      invariant id !in ids[..i]
      invariant rest == ids
    {
      if ids[i] == id {
        rest := ids[..i] + ids[i + 1..];
        RemoveFirstAt(ids, id, i);
        return;
      }
      assert ids[..i + 1] == ids[..i] + [ids[i]];
      i := i + 1;
    }
    RemoveFirstAt(ids, id, i);
  }

  /** Deleting a step the list does not name leaves the listed steps as they were. */
  lemma {:induction false} ChildrenWithout(stepMap: map<nat, StepReport>, ids: seq<nat>, sid: nat)
    requires forall i :: i in ids ==> i in stepMap
    requires sid !in ids
    ensures ChildrenOf(stepMap - {sid}, ids) == ChildrenOf(stepMap, ids)
  {
  }

  /** Saving a new step and appending its id appends it to the listed steps. */
  lemma {:induction false} ChildrenWithAdded(stepMap: map<nat, StepReport>, ids: seq<nat>, step: StepReport)
    requires forall i :: i in ids ==> i in stepMap
    requires step.id !in ids
    ensures ChildrenOf(stepMap[step.id := step], ids + [step.id]) == ChildrenOf(stepMap, ids) + [step]
  {
  }

  /** Deleting a step and dropping it from a child list leaves the other listed steps as they were. */
  lemma {:induction false} ChildrenAfterRemoval(stepMap: map<nat, StepReport>, ids: seq<nat>, sid: nat)
    requires NoDuplicates(ids) && forall i :: i in ids ==> i in stepMap
    ensures sid !in RemoveFirst(ids, sid)
    ensures ChildrenOf(stepMap - {sid}, RemoveFirst(ids, sid)) == ChildrenOf(stepMap, RemoveFirst(ids, sid))
  {
    RemoveFirstSpec(ids, sid);
    ChildrenWithout(stepMap, RemoveFirst(ids, sid), sid);
  }

  /** Saving twice under one key keeps only the second value. */
  lemma OverwriteTwice<K, V>(m: map<K, V>, k: K, first: V, second: V)
    ensures m[k := first][k := second] == m[k := second]
  {
  }

  /** findAll on the report repository: the stored reports with an id below `n`, by ascending id. */
  function ReportsBelow(rs: map<nat, TaskReport>, n: nat): (r: seq<TaskReport>)
    requires forall k :: k in rs ==> rs[k].id == k
    ensures forall i :: 0 <= i < |r| ==> r[i].id < n && r[i].id in rs && rs[r[i].id] == r[i]
    ensures forall i, j :: 0 <= i < j < |r| ==> r[i].id < r[j].id
    ensures forall k :: k in rs && k < n ==> rs[k] in r
  {
    if n == 0 then []
    else
      var prefix := ReportsBelow(rs, n - 1);
      if n - 1 in rs then prefix + [rs[n - 1]] else prefix
  }

  function ReportKey(r: TaskReport): int { r.id }

  /** Every task sits under its own id, and a task with a report is the task that report names. */
  ghost predicate TasksLinked(ts: map<nat, Task>, rs: map<nat, TaskReport>, nt: nat) {
    forall t :: t in ts ==>
      && ts[t].id == t && t < nt
      && (ts[t].report.Some? ==> ts[t].report.value in rs && rs[ts[t].report.value].taskId == t)
  }

  /**
   * Every report sits under its own id, its task names it back (so a task has
   * at most one report), and it lists each of its steps once.
   */
  ghost predicate ReportsLinked(ts: map<nat, Task>, rs: map<nat, TaskReport>, ss: map<nat, StepReport>, nr: nat) {
    forall r :: r in rs ==>
      && rs[r].id == r && r < nr
      && rs[r].taskId in ts && ts[rs[r].taskId].report == Some(r)
      && NoDuplicates(rs[r].stepIds)
      && (forall c :: c in rs[r].stepIds ==> c in ss && ss[c].reportId == r)
  }

  /** Every step sits under its own id, is listed by the report it names, and has consistent timing. */
  ghost predicate StepsLinked(rs: map<nat, TaskReport>, ss: map<nat, StepReport>, ns: nat) {
    forall s :: s in ss ==>
      && ss[s].id == s && s < ns
      && ss[s].reportId in rs && s in rs[ss[s].reportId].stepIds
      && TimingConsistent(ss[s])
  }

  /** The three repositories are consistent with each other and with the id generators. */
  ghost predicate Consistent(ts: map<nat, Task>, rs: map<nat, TaskReport>, ss: map<nat, StepReport>,
                             nt: nat, nr: nat, ns: nat) {
    TasksLinked(ts, rs, nt) && ReportsLinked(ts, rs, ss, nr) && StepsLinked(rs, ss, ns)
  }

  /** Saving a report with the same id, task and step list keeps the store consistent. */
  lemma {:induction false} ConsistentSaveReport(ts: map<nat, Task>, rs: map<nat, TaskReport>, ss: map<nat, StepReport>,
                             nt: nat, nr: nat, ns: nat, report: TaskReport)
    requires Consistent(ts, rs, ss, nt, nr, ns)
    requires report.id in rs
    requires report.taskId == rs[report.id].taskId && report.stepIds == rs[report.id].stepIds
    ensures Consistent(ts, rs[report.id := report], ss, nt, nr, ns)
  {
  }

  /** Saving a new step and appending it to its report's step list keeps the store consistent. */
  lemma {:induction false} ConsistentAddStep(ts: map<nat, Task>, rs: map<nat, TaskReport>, ss: map<nat, StepReport>,
                          nt: nat, nr: nat, ns: nat, step: StepReport)
    requires Consistent(ts, rs, ss, nt, nr, ns)
    requires step.id == ns && step.reportId in rs && TimingConsistent(step)
    ensures ns !in ss
    ensures Consistent(ts, rs[step.reportId := rs[step.reportId].(stepIds := rs[step.reportId].stepIds + [ns])],
                       ss[ns := step], nt, nr, ns + 1)
  {
    var rid := step.reportId;
    var rs' := rs[rid := rs[rid].(stepIds := rs[rid].stepIds + [ns])];
    var ss' := ss[ns := step];
    assert ns !in rs[rid].stepIds;
    assert ReportsLinked(ts, rs', ss', nr) by {
      forall r | r in rs' ensures NoDuplicates(rs'[r].stepIds) && (forall c :: c in rs'[r].stepIds ==> c in ss' && ss'[c].reportId == r) {
        if r == rid {
          forall c | c in rs'[r].stepIds ensures c in ss' && ss'[c].reportId == r {
            if c != ns {
              assert c in rs[rid].stepIds;
            }
          }
        }
      }
    }
    assert StepsLinked(rs', ss', ns + 1) by {
      forall x | x in ss' ensures ss'[x].reportId in rs' && x in rs'[ss'[x].reportId].stepIds {
        if x != ns {
          assert x in rs[ss[x].reportId].stepIds;
        }
      }
    }
  }

  /** Replacing a step by one with the same id and report and consistent timing keeps the store consistent. */
  lemma {:induction false} ConsistentReplaceStep(ts: map<nat, Task>, rs: map<nat, TaskReport>, ss: map<nat, StepReport>,
                              nt: nat, nr: nat, ns: nat, step: StepReport)
    requires Consistent(ts, rs, ss, nt, nr, ns)
    requires step.id in ss && step.reportId == ss[step.id].reportId && TimingConsistent(step)
    ensures Consistent(ts, rs, ss[step.id := step], nt, nr, ns)
  {
  }

  /** Deleting a step and dropping it from its report's step list keeps the store consistent. */
  lemma {:induction false} ConsistentRemoveStep(ts: map<nat, Task>, rs: map<nat, TaskReport>, ss: map<nat, StepReport>,
                             nt: nat, nr: nat, ns: nat, rid: nat, sid: nat, rest: seq<nat>)
    requires Consistent(ts, rs, ss, nt, nr, ns)
    requires rid in rs && sid in rs[rid].stepIds && rest == RemoveFirst(rs[rid].stepIds, sid)
    ensures Consistent(ts, rs[rid := rs[rid].(stepIds := rest)], ss - {sid}, nt, nr, ns)
    ensures NoDuplicates(rs[rid].stepIds) && forall c :: c in rs[rid].stepIds ==> c in ss
  {
    RemoveFirstSpec(rs[rid].stepIds, sid);
    var rs' := rs[rid := rs[rid].(stepIds := rest)];
    var ss' := ss - {sid};
    assert ReportsLinked(ts, rs', ss', nr) by {
      forall r | r in rs' ensures (forall c :: c in rs'[r].stepIds ==> c in ss' && ss'[c].reportId == r) {
        forall c | c in rs'[r].stepIds ensures c in ss' && ss'[c].reportId == r {
          if r == rid {
            assert c in rs[rid].stepIds && c != sid;
          } else {
            assert c in rs[r].stepIds;
            assert c != sid;
          }
        }
      }
    }
    assert StepsLinked(rs', ss', ns) by {
      forall x | x in ss' ensures x in rs'[ss'[x].reportId].stepIds {
        assert x in rs[ss[x].reportId].stepIds;
      }
    }
  }

  class Store {
    /** The task repository. */
    var tasks: map<nat, Task>
    /** The task report repository. */
    var reports: map<nat, TaskReport>
    /** The step report repository. */
    var steps: map<nat, StepReport>
    /** The next identifiers the repositories will generate. */
    var nextTaskId: nat
    var nextReportId: nat
    var nextStepId: nat

    /**
     * The store is consistent: every record sits under its own id, below the
     * next generated id; a task and its report name each other (so a task has
     * at most one report); a report lists each of its steps once and every
     * stored step is listed by the report it names; and every step's timing
     * fields agree with its status.
     */
    ghost predicate Valid()
      reads this
    {
      Consistent(tasks, reports, steps, nextTaskId, nextReportId, nextStepId)
    }

    constructor ()
      ensures Valid()
      ensures tasks == map[] && reports == map[] && steps == map[]
    {
      tasks, reports, steps := map[], map[], map[];
      nextTaskId, nextReportId, nextStepId := 1, 1, 1;
    }

    /** A task and a report never share a report or a task: the link is one-to-one. */
    lemma OneReportPerTask(r1: nat, r2: nat)
      requires Valid() && r1 in reports && r2 in reports
      ensures reports[r1].taskId == reports[r2].taskId ==> r1 == r2
    {
    }

    /** findAll on the report repository: every stored report once, by ascending id. */
    function AllReports(): (r: seq<TaskReport>)
      reads this
      requires Valid()
      ensures forall x :: x in r <==> x in reports.Values
      ensures forall i, j :: 0 <= i < j < |r| ==> r[i].id < r[j].id
    {
      assert forall k :: k in reports ==> reports[k].id == k && k < nextReportId by {
        assert ReportsLinked(tasks, reports, steps, nextReportId);
      }
      ReportsBelow(reports, nextReportId)
    }

    /**
     * getAllTaskExecutionReportsByStatus: the stored reports whose status is
     * `st`, in store order. A null argument selects the reports without a status.
     */
    function GetAllTaskExecutionReportsByStatus(st: Option<Status>): (r: seq<TaskReport>)
      reads this
      requires Valid()
      ensures forall x :: x in r <==> x in reports.Values && x.status == st
      ensures forall i, j :: 0 <= i < j < |r| ==> r[i].id < r[j].id
    {
      var all := AllReports();
      ReportsWithStatusSpec(all, st);
      FilterKeepsOrder(all, HasStatus(st), ReportKey);
      ReportsWithStatus(all, st)
    }

    /**
     * getAllTaskExecutionReportsOrderedByExeTime: each stored report that has
     * an execution time, once, ascending by that time.
     */
    function GetAllTaskExecutionReportsOrderedByExeTime(): (r: seq<TaskReport>)
      reads this
      requires Valid()
      ensures forall i :: 0 <= i < |r| ==> r[i].executionTimeSeconds.Some?
      ensures forall i, j :: 0 <= i < j < |r| ==> r[i].executionTimeSeconds.value <= r[j].executionTimeSeconds.value
      ensures forall x :: multiset(r)[x] == if x in reports.Values && x.executionTimeSeconds.Some? then 1 else 0
    {
      var all := AllReports();
      MultiplicityOfDistinct(all);
      ReportsByExecutionTime(all)
    }

    /** A stored report's child list names exactly the stored steps that point back to it, each once. */
    lemma ChildrenListing(reportId: nat)
      requires Valid() && reportId in reports
      ensures forall x ::
                multiset(ChildrenOf(steps, reports[reportId].stepIds))[x] ==
                (if x in steps.Values && x.reportId == reportId then 1 else 0)
    {
      var ids := reports[reportId].stepIds;
      assert NoDuplicates(ids) && forall c :: c in ids ==> c in steps && steps[c].reportId == reportId by {
        assert ReportsLinked(tasks, reports, steps, nextReportId);
      }
      var children := ChildrenOf(steps, ids);
      forall i, j | 0 <= i < j < |children| ensures children[i] != children[j] {
        assert steps[ids[i]].id == ids[i] && steps[ids[j]].id == ids[j] by {
          assert StepsLinked(reports, steps, nextStepId);
        }
      }
      MultiplicityOfDistinct(children);
      forall x ensures x in children <==> x in steps.Values && x.reportId == reportId {
        if x in steps.Values && x.reportId == reportId {
          var s :| s in steps && steps[s] == x;
          assert s in ids by {
            assert StepsLinked(reports, steps, nextStepId);
          }
          var k :| 0 <= k < |ids| && ids[k] == s;
          assert children[k] == x;
        }
      }
    }

    /** createTask: stores a new task without a report. */
    method CreateTask(title: string) returns (task: Task)
      requires Valid()
      modifies this
      ensures Valid()
      ensures nextTaskId == old(nextTaskId) + 1 && nextReportId == old(nextReportId) && nextStepId == old(nextStepId)
      ensures task == Task(old(nextTaskId), title, None) && task.id !in old(tasks)
      ensures tasks == old(tasks)[task.id := task] && reports == old(reports) && steps == old(steps)
    {
      task := Task(nextTaskId, title, None);
      tasks := tasks[task.id := task];
      nextTaskId := nextTaskId + 1;
    }

    /**
     * The hierarchy check at the head of the report and step operations:
     * the task must exist, then its report must carry `reportId`. Where the
     * code does not test the task's report for null first (`guarded` false),
     * a task without a report throws a NullPointerException.
     */
    function ResolveReport(taskId: nat, reportId: nat, guarded: bool): (r: Result<TaskReport>)
      reads this
      requires Valid()
      ensures taskId !in tasks ==> r == Err(NoSuchTask)
      ensures taskId in tasks && tasks[taskId].report.None? ==>
        r == Err(if guarded then NoSuchTaskReport else NullPointer)
      ensures taskId in tasks && tasks[taskId].report.Some? && tasks[taskId].report.value != reportId ==>
        r == Err(NoSuchTaskReport)
      ensures r.Ok? <==> taskId in tasks && tasks[taskId].report == Some(reportId)
      ensures r.Ok? ==> reportId in reports && r.value == reports[reportId] && r.value.taskId == taskId
    {
      if taskId !in tasks then Err(NoSuchTask)
      else if tasks[taskId].report.None? then Err(if guarded then NoSuchTaskReport else NullPointer)
      else if tasks[taskId].report.value != reportId then Err(NoSuchTaskReport)
      else Ok(reports[reportId])
    }

    /** createTaskExecutionReport: attach the body as the task's one report, started now. */
    method CreateTaskExecutionReport(taskId: nat, body: TaskReport, now: int) returns (r: Result<TaskReport>)
      requires Valid()
      modifies this
      ensures Valid()
      ensures nextTaskId == old(nextTaskId) && nextStepId == old(nextStepId)
      ensures nextReportId == old(nextReportId) + if r.Ok? then 1 else 0
      ensures taskId !in old(tasks) ==> r == Err(NoSuchTask) && unchanged(this)
      ensures taskId in old(tasks) && old(tasks[taskId].report).Some? ==> r == Err(AlreadySuchTask) && unchanged(this)
      ensures r.Ok? <==> taskId in old(tasks) && old(tasks[taskId].report).None?
      ensures r.Ok? ==>
        && r.value == body.(id := old(nextReportId), taskId := taskId, startDateTime := now, stepIds := [])
        && r.value.id !in old(reports)
        && reports == old(reports)[r.value.id := r.value]
        && tasks == old(tasks)[taskId := old(tasks[taskId]).(report := Some(r.value.id))]
        && steps == old(steps)
    {
      if taskId !in tasks {
        return Err(NoSuchTask);
      }
      if tasks[taskId].report.Some? {
        return Err(AlreadySuchTask);
      }
      var report := body.(id := nextReportId, taskId := taskId, startDateTime := now, stepIds := []);
      reports := reports[report.id := report];
      tasks := tasks[taskId := tasks[taskId].(report := Some(report.id))];
      nextReportId := nextReportId + 1;
      r := Ok(report);
    }

    /** updateTaskExecutionReport: only the error message is taken from the patch. */
    method UpdateTaskExecutionReport(taskId: nat, reportId: nat, patch: TaskReport) returns (r: Result<TaskReport>)
      requires Valid()
      modifies this
      ensures Valid()
      ensures nextTaskId == old(nextTaskId) && nextReportId == old(nextReportId) && nextStepId == old(nextStepId)
      ensures old(ResolveReport(taskId, reportId, false)).Err? ==>
        r == old(ResolveReport(taskId, reportId, false)) && unchanged(this)
      ensures old(ResolveReport(taskId, reportId, false)).Ok? ==>
        && r == Ok(old(reports[reportId]).(errorMessage := patch.errorMessage))
        && reports == old(reports)[reportId := r.value]
        && tasks == old(tasks) && steps == old(steps)
    {
      var resolved := ResolveReport(taskId, reportId, false);
      if resolved.Err? {
        return resolved;
      }
      var report := resolved.value.(errorMessage := patch.errorMessage);
      reports := reports[reportId := report];
      r := Ok(report);
    }

    /** deleteTaskExecutionReport: removes the report, its steps (cascade) and the task's link to it. */
    method DeleteTaskExecutionReport(taskId: nat, reportId: nat) returns (r: Result<()>)
      requires Valid()
      modifies this
      ensures Valid()
      ensures nextTaskId == old(nextTaskId) && nextReportId == old(nextReportId) && nextStepId == old(nextStepId)
      ensures old(ResolveReport(taskId, reportId, false)).Err? ==>
        r == Err(old(ResolveReport(taskId, reportId, false)).error) && unchanged(this)
      ensures old(ResolveReport(taskId, reportId, false)).Ok? ==>
        && r == Ok(())
        && reports == old(reports) - {reportId}
        && steps == old(steps) - Elems(old(reports[reportId].stepIds))
        && tasks == old(tasks)[taskId := old(tasks[taskId]).(report := None)]
    {
      var resolved := ResolveReport(taskId, reportId, false);
      if resolved.Err? {
        return Err(resolved.error);
      }
      steps := steps - Elems(resolved.value.stepIds);
      reports := reports - {reportId};
      tasks := tasks[taskId := tasks[taskId].(report := None)];
      r := Ok(());
    }

    /**
     * updateAttributes: roll the report's status and time up from its steps
     * and save it. When updateTime throws, nothing is saved and `ok` is false.
     */
    method UpdateAttributes(reportId: nat, now: int) returns (ok: bool)
      requires Valid() && reportId in reports
      modifies this
      ensures Valid()
      ensures tasks == old(tasks) && steps == old(steps)
      ensures nextTaskId == old(nextTaskId) && nextReportId == old(nextReportId) && nextStepId == old(nextStepId)
      ensures var rolled := Rollup(old(reports[reportId]), ChildrenOf(steps, old(reports[reportId].stepIds)), now);
        && ok == rolled.Ok?
        && reports == if ok then old(reports)[reportId := rolled.value] else old(reports)
    {
      var report := reports[reportId];
      var children := ChildrenOf(steps, report.stepIds);
      var withStatus := report.(status := RollupStatus(children));
      var timed := UpdateTime(withStatus, children, now);
      ok := timed.Ok?;
      if ok {
        RollupFields(report, children, now);
        ConsistentSaveReport(tasks, reports, steps, nextTaskId, nextReportId, nextStepId, timed.value);
        reports := reports[reportId := timed.value];
      }
    }

    /**
     * createTaskStepExecutionReport: the body becomes a new step of the
     * report, started now, with its timing set by its status; then the
     * report is rolled up. When the rollup throws, the step stays saved.
     */
    method CreateTaskStepExecutionReport(taskId: nat, reportId: nat, body: StepReport, now: int)
      returns (r: Result<StepReport>)
      requires Valid()
      modifies this
      ensures Valid()
      ensures nextTaskId == old(nextTaskId) && nextReportId == old(nextReportId)
      ensures nextStepId == old(nextStepId) + if old(ResolveReport(taskId, reportId, false)).Ok? then 1 else 0
      ensures old(ResolveReport(taskId, reportId, false)).Err? ==>
        r == Err(old(ResolveReport(taskId, reportId, false)).error) && unchanged(this)
      ensures old(ResolveReport(taskId, reportId, false)).Ok? ==>
        var step := CheckForSuccess(body.(id := old(nextStepId), reportId := reportId, startDateTime := now), now);
        var linked := old(reports[reportId]).(stepIds := old(reports[reportId].stepIds) + [step.id]);
        var rolled := Rollup(linked, old(ChildrenOf(steps, reports[reportId].stepIds)) + [step], now);
        && step.id !in old(steps)
        && steps == old(steps)[step.id := step]
        && tasks == old(tasks)
        && reports == old(reports)[reportId := if rolled.Ok? then rolled.value else linked]
        && r == if rolled.Ok? then Ok(step) else Err(NullPointer)
    {
      var resolved := ResolveReport(taskId, reportId, false);
      if resolved.Err? {
        return Err(resolved.error);
      }
      var children := ChildrenOf(steps, resolved.value.stepIds);
      var step := CheckForSuccess(body.(id := nextStepId, reportId := reportId, startDateTime := now), now);
      ConsistentAddStep(tasks, reports, steps, nextTaskId, nextReportId, nextStepId, step);
      var linked := resolved.value.(stepIds := resolved.value.stepIds + [step.id]);
      ChildrenWithAdded(steps, resolved.value.stepIds, step);
      steps := steps[step.id := step];
      reports := reports[reportId := linked];
      nextStepId := nextStepId + 1;
      var ok := UpdateAttributes(reportId, now);
      r := if ok then Ok(step) else Err(NullPointer);
    }

    /** The search of a resolved report's steps finds exactly the steps it lists. */
    lemma FindStepInReport(reportId: nat, stepId: nat)
      requires Valid() && reportId in reports
      ensures var found := FindStep(ChildrenOf(steps, reports[reportId].stepIds), stepId);
        && (found.Some? <==> stepId in reports[reportId].stepIds)
        && (found.Some? ==> found.value == steps[stepId] && found.value.reportId == reportId)
    {
      var ids := reports[reportId].stepIds;
      var children := ChildrenOf(steps, ids);
      var found := FindStep(children, stepId);
      if found.Some? {
        var k :| 0 <= k < |children| && children[k] == found.value;
        assert children[k] == steps[ids[k]];
      }
    }

    /**
     * getTaskStepExecutionReport: the hierarchy check down to the step. The
     * task's report is dereferenced without a null test.
     */
    function GetTaskStepExecutionReport(taskId: nat, reportId: nat, stepId: nat): (r: Result<StepReport>)
      reads this
      requires Valid()
      ensures ResolveReport(taskId, reportId, false).Err? ==> r == Err(ResolveReport(taskId, reportId, false).error)
      ensures ResolveReport(taskId, reportId, false).Ok? ==>
        (r == Err(NoSuchStepReport) <==> stepId !in reports[reportId].stepIds)
      ensures r.Ok? ==> stepId in reports[reportId].stepIds && r.value == steps[stepId] && r.value.reportId == reportId
    {
      match ResolveReport(taskId, reportId, false)
      case Err(e) => Err(e)
      case Ok(report) =>
        FindStepInReport(reportId, stepId);
        match FindStep(ChildrenOf(steps, report.stepIds), stepId)
        case None => Err(NoSuchStepReport)
        case Some(step) => Ok(step)
    }

    /**
     * updateTaskStepExecutionReport: the patch replaces the step but keeps its
     * id, report and start time; its timing is set again from its status and
     * the report is rolled up. A task without a report is refused here.
     */
    method UpdateTaskStepExecutionReport(taskId: nat, reportId: nat, stepId: nat, patch: StepReport, now: int)
      returns (r: Result<StepReport>)
      requires Valid()
      modifies this
      ensures Valid()
      ensures nextTaskId == old(nextTaskId) && nextReportId == old(nextReportId) && nextStepId == old(nextStepId)
      ensures old(ResolveReport(taskId, reportId, true)).Err? ==>
        r == Err(old(ResolveReport(taskId, reportId, true)).error) && unchanged(this)
      ensures old(ResolveReport(taskId, reportId, true)).Ok? && stepId !in old(reports[reportId].stepIds) ==>
        r == Err(NoSuchStepReport) && unchanged(this)
      ensures old(ResolveReport(taskId, reportId, true)).Ok? && stepId in old(reports[reportId].stepIds) ==>
        var step := CheckForSuccess(
          patch.(id := stepId, reportId := reportId, startDateTime := old(steps[stepId].startDateTime)), now);
        var rolled := Rollup(old(reports[reportId]), ChildrenOf(old(steps)[stepId := step], old(reports[reportId].stepIds)), now);
        && steps == old(steps)[stepId := step]
        && tasks == old(tasks)
        && reports == old(reports)[reportId := if rolled.Ok? then rolled.value else old(reports[reportId])]
        && r == if rolled.Ok? then Ok(step) else Err(NullPointer)
    {
      var resolved := ResolveReport(taskId, reportId, true);
      if resolved.Err? {
        return Err(resolved.error);
      }
      FindStepInReport(reportId, stepId);
      var found := FindStep(ChildrenOf(steps, resolved.value.stepIds), stepId);
      if found.None? {
        return Err(NoSuchStepReport);
      }
      var step := CheckForSuccess(
        patch.(id := stepId, reportId := reportId, startDateTime := found.value.startDateTime), now);
      ConsistentReplaceStep(tasks, reports, steps, nextTaskId, nextReportId, nextStepId, step);
      steps := steps[stepId := step];
      var ok := UpdateAttributes(reportId, now);
      r := if ok then Ok(step) else Err(NullPointer);
    }

    /**
     * getAllTaskStepExecutionReportGivenTaskExecutionReport: a copy of the
     * report's child set, which holds each stored step of the report once.
     */
    function GetAllTaskStepExecutionReportGivenTaskExecutionReport(reportId: nat): (r: Result<seq<StepReport>>)
      reads this
      requires Valid()
      ensures r.Err? <==> reportId !in reports
      ensures r.Err? ==> r.error == NoSuchTaskReport
      ensures r.Ok? ==> forall x :: multiset(r.value)[x] == if x in steps.Values && x.reportId == reportId then 1 else 0
    {
      if reportId !in reports then Err(NoSuchTaskReport)
      else
        ChildrenListing(reportId);
        Ok(ChildrenOf(steps, reports[reportId].stepIds))
    }

    /** getAllTaskStepExecutionReportsSortedByStartDateTime: the report's steps, ascending by start time. */
    function GetAllTaskStepExecutionReportsSortedByStartDateTime(reportId: nat): (r: Result<seq<StepReport>>)
      reads this
      requires Valid()
      ensures r.Err? <==> reportId !in reports
      ensures r.Err? ==> r.error == NoSuchTaskReport
      ensures r.Ok? ==> forall i, j :: 0 <= i < j < |r.value| ==> r.value[i].startDateTime <= r.value[j].startDateTime
      ensures r.Ok? ==> forall x :: multiset(r.value)[x] == if x in steps.Values && x.reportId == reportId then 1 else 0
    {
      if reportId !in reports then Err(NoSuchTaskReport)
      else
        ChildrenListing(reportId);
        Ok(StepsByStartTime(ChildrenOf(steps, reports[reportId].stepIds)))
    }

    /**
     * getAllTaskStepExecutionReportsSortedByExeTime: the report's steps that
     * have an execution time, ascending by that time.
     */
    function GetAllTaskStepExecutionReportsSortedByExeTime(reportId: nat): (r: Result<seq<StepReport>>)
      reads this
      requires Valid()
      ensures r.Err? <==> reportId !in reports
      ensures r.Err? ==> r.error == NoSuchTaskReport
      ensures r.Ok? ==> forall i :: 0 <= i < |r.value| ==> r.value[i].executionTimeSeconds.Some?
      ensures r.Ok? ==> forall i, j :: 0 <= i < j < |r.value| ==>
        r.value[i].executionTimeSeconds.value <= r.value[j].executionTimeSeconds.value
      ensures r.Ok? ==> forall x ::
                          multiset(r.value)[x] ==
                          (if x in steps.Values && x.reportId == reportId && x.executionTimeSeconds.Some? then 1 else 0)
    {
      if reportId !in reports then Err(NoSuchTaskReport)
      else
        ChildrenListing(reportId);
        Ok(StepsByExecutionTime(ChildrenOf(steps, reports[reportId].stepIds)))
    }

    /**
     * The store side of the removal inside deleteTaskStepExecutionReport:
     * delete the step and take it out of its report's step set (the
     * iterator loop). The report's other steps are left as they were.
     */
    method UnlinkStep(reportId: nat, stepId: nat)
      requires Valid() && reportId in reports && stepId in reports[reportId].stepIds
      modifies this
      ensures Valid()
      ensures nextTaskId == old(nextTaskId) && nextReportId == old(nextReportId) && nextStepId == old(nextStepId)
      ensures tasks == old(tasks) && steps == old(steps) - {stepId}
      ensures reports == old(reports)[reportId := old(reports[reportId]).(stepIds := RemoveFirst(old(reports[reportId].stepIds), stepId))]
      ensures ChildrenOf(steps, reports[reportId].stepIds) == ChildrenOf(old(steps), reports[reportId].stepIds)
    {
      var rest := RemoveChild(reports[reportId].stepIds, stepId);
      ConsistentRemoveStep(tasks, reports, steps, nextTaskId, nextReportId, nextStepId, reportId, stepId, rest);
      ChildrenAfterRemoval(steps, reports[reportId].stepIds, stepId);
      steps, reports := steps - {stepId}, reports[reportId := reports[reportId].(stepIds := rest)];
    }

    /** The removal inside deleteTaskStepExecutionReport: unlink the step, then roll the report up. */
    method RemoveStep(reportId: nat, stepId: nat, now: int) returns (ok: bool)
      requires Valid() && reportId in reports && stepId in reports[reportId].stepIds
      modifies this
      ensures Valid()
      ensures nextTaskId == old(nextTaskId) && nextReportId == old(nextReportId) && nextStepId == old(nextStepId)
      ensures tasks == old(tasks) && steps == old(steps) - {stepId}
      ensures
        var unlinked := old(reports[reportId]).(stepIds := RemoveFirst(old(reports[reportId].stepIds), stepId));
        var rolled := Rollup(unlinked, ChildrenOf(old(steps), unlinked.stepIds), now);
        && ok == rolled.Ok?
        && reports == old(reports)[reportId := if ok then rolled.value else unlinked]
    {
      UnlinkStep(reportId, stepId);
      ghost var unlinked := reports[reportId];
      ghost var rolled := Rollup(unlinked, ChildrenOf(steps, unlinked.stepIds), now);
      ok := UpdateAttributes(reportId, now);
      if ok {
        OverwriteTwice(old(reports), reportId, unlinked, rolled.value);
      }
    }

    /**
     * deleteTaskStepExecutionReport: the hierarchy check down to the step
     * (a task without a report is refused), then the removal. It returns
     * normally after a removal; see `DeleteTaskStepExecutionReportAsWritten`.
     */
    method DeleteTaskStepExecutionReport(taskId: nat, reportId: nat, stepId: nat, now: int)
      returns (r: Result<()>)
      requires Valid()
      modifies this
      ensures Valid()
      ensures nextTaskId == old(nextTaskId) && nextReportId == old(nextReportId) && nextStepId == old(nextStepId)
      ensures old(ResolveReport(taskId, reportId, true)).Err? ==>
        r == Err(old(ResolveReport(taskId, reportId, true)).error) && unchanged(this)
      ensures old(ResolveReport(taskId, reportId, true)).Ok? && stepId !in old(reports[reportId].stepIds) ==>
        r == Err(NoSuchStepReport) && unchanged(this)
      ensures old(ResolveReport(taskId, reportId, true)).Ok? && stepId in old(reports[reportId].stepIds) ==>
        var unlinked := old(reports[reportId]).(stepIds := RemoveFirst(old(reports[reportId].stepIds), stepId));
        var rolled := Rollup(unlinked, ChildrenOf(old(steps), unlinked.stepIds), now);
        && steps == old(steps) - {stepId}
        && tasks == old(tasks)
        && reports == old(reports)[reportId := if rolled.Ok? then rolled.value else unlinked]
        && r == if rolled.Ok? then Ok(()) else Err(NullPointer)
    {
      var resolved := ResolveReport(taskId, reportId, true);
      if resolved.Err? {
        return Err(resolved.error);
      }
      FindStepInReport(reportId, stepId);
      var found := FindStep(ChildrenOf(steps, resolved.value.stepIds), stepId);
      if found.None? {
        return Err(NoSuchStepReport);
      }
      var ok := RemoveStep(reportId, stepId, now);
      r := if ok then Ok(()) else Err(NullPointer);
    }

    /**
     * deleteTaskStepExecutionReport as the code reads: after a removal the
     * for-each loop runs on and falls through to the final throw, so a call
     * that removed the step still throws NoSuchStepReport.
     */
    method DeleteTaskStepExecutionReportAsWritten(taskId: nat, reportId: nat, stepId: nat, now: int)
      returns (r: Result<()>)
      requires Valid()
      modifies this
      ensures Valid()
      ensures nextTaskId == old(nextTaskId) && nextReportId == old(nextReportId) && nextStepId == old(nextStepId)
      ensures r.Err?
      ensures old(ResolveReport(taskId, reportId, true)).Err? ==>
        r == Err(old(ResolveReport(taskId, reportId, true)).error) && unchanged(this)
      ensures old(ResolveReport(taskId, reportId, true)).Ok? && stepId !in old(reports[reportId].stepIds) ==>
        r == Err(NoSuchStepReport) && unchanged(this)
      ensures old(ResolveReport(taskId, reportId, true)).Ok? && stepId in old(reports[reportId].stepIds) ==>
        var unlinked := old(reports[reportId]).(stepIds := RemoveFirst(old(reports[reportId].stepIds), stepId));
        var rolled := Rollup(unlinked, ChildrenOf(old(steps), unlinked.stepIds), now);
        && steps == old(steps) - {stepId}
        && tasks == old(tasks)
        && reports == old(reports)[reportId := if rolled.Ok? then rolled.value else unlinked]
        && r == if rolled.Ok? then Err(NoSuchStepReport) else Err(NullPointer)
    {
      var resolved := ResolveReport(taskId, reportId, true);
      if resolved.Err? {
        return Err(resolved.error);
      }
      FindStepInReport(reportId, stepId);
      var found := FindStep(ChildrenOf(steps, resolved.value.stepIds), stepId);
      if found.None? {
        return Err(NoSuchStepReport);
      }
      var ok := RemoveStep(reportId, stepId, now);
      r := if ok then Err(NoSuchStepReport) else Err(NullPointer);
    }
  }
}
