/**
 * The status rollup of a task report from its step reports
 * (`updateAttributes`, `updateStatus`, `updateTime`).
 */
module StatusRollup {
  import opened Outcome
  import opened StatusEnum
  import opened Entities
  import opened Lifecycle

  /** The linear scan of `updateStatus`: does some step have status `st`? */
  function AnyWithStatus(steps: seq<StepReport>, st: Status): (found: bool)
    ensures found <==> exists i :: 0 <= i < |steps| && steps[i].status == Some(st)
  {
    if steps == [] then false
    else if steps[0].status == Some(st) then true
    else AnyWithStatus(steps[1..], st)
  }

  /** updateStatus: null for no steps, else FAILURE, then RUNNING, then SUCCESS by priority. */
  function RollupStatus(steps: seq<StepReport>): (r: Option<Status>)
    ensures r.None? <==> |steps| == 0
    ensures r == Some(FAILURE) <==> exists i :: 0 <= i < |steps| && steps[i].status == Some(FAILURE)
    ensures r == Some(RUNNING) <==>
      && (forall i :: 0 <= i < |steps| ==> steps[i].status != Some(FAILURE))
      && (exists i :: 0 <= i < |steps| && steps[i].status == Some(RUNNING))
    ensures r == Some(SUCCESS) <==>
      && |steps| > 0
      && (forall i :: 0 <= i < |steps| ==> steps[i].status != Some(FAILURE) && steps[i].status != Some(RUNNING))
  {
    if |steps| == 0 then None
    else if AnyWithStatus(steps, FAILURE) then Some(FAILURE)
    else if AnyWithStatus(steps, RUNNING) then Some(RUNNING)
    else Some(SUCCESS)
  }

  /** The time of one step, with a null time read as 0 (used only where no time is null). */
  function TimeOrZero(s: StepReport): int {
    s.executionTimeSeconds.GetOr(0)
  }

  /** The sum `exeTime += t.getExecutionTimeSeconds()` over the steps, in order. */
  function SumTimes(steps: seq<StepReport>): int {
    if steps == [] then 0 else SumTimes(steps[..|steps| - 1]) + TimeOrZero(steps[|steps| - 1])
  }

  /** Every step carries an execution time. */
  predicate AllTimed(steps: seq<StepReport>) {
    forall i :: 0 <= i < |steps| ==> steps[i].executionTimeSeconds.Some?
  }

  /**
   * updateTime on a report whose status is already set: a SUCCESS report gets
   * end time `now` and the summed step times (unboxing a null step time throws);
   * any other report loses its time and keeps its end time.
   */
  function ApplyTime(report: TaskReport, steps: seq<StepReport>, now: int): Result<TaskReport> {
    if report.status == Some(SUCCESS) then
      if AllTimed(steps) then
        Ok(report.(endDateTime := Some(now), executionTimeSeconds := Some(SumTimes(steps))))
      else
        Err(NullPointer)
    else
      Ok(report.(executionTimeSeconds := None))
  }

  /** updateAttributes without the save: status from updateStatus, then updateTime. */
  function Rollup(report: TaskReport, steps: seq<StepReport>, now: int): (r: Result<TaskReport>)
    ensures r.Err? <==> RollupStatus(steps) == Some(SUCCESS) && !AllTimed(steps)
    ensures r.Err? ==> r.error == NullPointer
    ensures r.Ok? ==> r.value.status == RollupStatus(steps) && r.value.id == report.id && r.value.stepIds == report.stepIds
  {
    ApplyTime(report.(status := RollupStatus(steps)), steps, now)
  }

  /**
   * updateTime: sets the end time and accumulates the step times in a loop
   * when the report's status is SUCCESS, and clears the time otherwise.
   */
  method UpdateTime(report: TaskReport, steps: seq<StepReport>, now: int) returns (r: Result<TaskReport>)
    ensures r == ApplyTime(report, steps, now)
  {
    if report.status != Some(SUCCESS) {
      return Ok(report.(executionTimeSeconds := None));
    }
    var exeTime := 0;
    var i := 0;
    while i < |steps|
      invariant 0 <= i <= |steps|
      invariant AllTimed(steps[..i])
      invariant exeTime == SumTimes(steps[..i])
    {
      var t := steps[i].executionTimeSeconds;
      if t.None? {
        return Err(NullPointer);
      }
      assert steps[..i + 1][..i] == steps[..i];
      exeTime := exeTime + t.value;
      i := i + 1;
    }
    assert steps[..i] == steps;
    r := Ok(report.(endDateTime := Some(now), executionTimeSeconds := Some(exeTime)));
  }

  /** What the rollup sets, and that it touches nothing else. */
  lemma {:induction false} RollupFields(report: TaskReport, steps: seq<StepReport>, now: int)
    ensures var r := Rollup(report, steps, now);
      r.Ok? ==>
        && r.value.status == RollupStatus(steps)
        && r.value.(status := report.status, endDateTime := report.endDateTime,
                    executionTimeSeconds := report.executionTimeSeconds) == report
  {
  }

  /**
   * Rolled up to SUCCESS with every step timed, the report's time is the sum
   * of its steps' times and its end time is now.
   */
  lemma {:induction false} RollupSuccessTime(report: TaskReport, steps: seq<StepReport>, now: int)
    requires RollupStatus(steps) == Some(SUCCESS) && AllTimed(steps)
    ensures Rollup(report, steps, now) ==
      Ok(report.(status := Some(SUCCESS), endDateTime := Some(now), executionTimeSeconds := Some(SumTimes(steps))))
  {
  }

  /** Not rolled up to SUCCESS, the report's time is cleared and its end time is left as it was. */
  lemma {:induction false} RollupNotSuccess(report: TaskReport, steps: seq<StepReport>, now: int)
    requires RollupStatus(steps) != Some(SUCCESS)
    ensures Rollup(report, steps, now).Ok?
    ensures Rollup(report, steps, now).value.executionTimeSeconds.None?
    ensures Rollup(report, steps, now).value.endDateTime == report.endDateTime
  {
  }

  /**
   * With consistent step timing, the rollup throws exactly when no step failed
   * or runs and some step has no status: that step counts as neither, and its
   * null time is then unboxed.
   */
  lemma {:induction false} RollupThrowsIff(report: TaskReport, steps: seq<StepReport>, now: int)
    requires forall i :: 0 <= i < |steps| ==> TimingConsistent(steps[i])
    ensures Rollup(report, steps, now).Err? <==>
      && RollupStatus(steps) == Some(SUCCESS)
      && exists i :: 0 <= i < |steps| && steps[i].status.None?
  {
    assert Rollup(report, steps, now).Err? <==> RollupStatus(steps) == Some(SUCCESS) && !AllTimed(steps);
    if RollupStatus(steps) == Some(SUCCESS) && !AllTimed(steps) {
      var i :| 0 <= i < |steps| && steps[i].executionTimeSeconds.None?;
      assert TimingConsistent(steps[i]);
      assert steps[i].status != Some(FAILURE) && steps[i].status != Some(RUNNING);
      assert steps[i].status != Some(SUCCESS);
    }
    if RollupStatus(steps) == Some(SUCCESS) && exists i :: 0 <= i < |steps| && steps[i].status.None? {
      var i :| 0 <= i < |steps| && steps[i].status.None?;
      assert TimingConsistent(steps[i]);
      assert !AllTimed(steps);
    }
    if RollupStatus(steps) == Some(SUCCESS) && forall i :: 0 <= i < |steps| ==> steps[i].status.Some? {
      forall i | 0 <= i < |steps| ensures steps[i].executionTimeSeconds.Some? {
        assert TimingConsistent(steps[i]);
        assert steps[i].status != Some(FAILURE) && steps[i].status != Some(RUNNING);
        var v := steps[i].status.value;
        assert v.SUCCESS? || v.RUNNING? || v.FAILURE?;
        assert steps[i].status == Some(v);
      }
    }
  }

  /** The sum over a concatenation is the sum of the sums. */
  lemma {:induction false} SumTimesAppend(a: seq<StepReport>, b: seq<StepReport>)
    ensures SumTimes(a + b) == SumTimes(a) + SumTimes(b)
  {
    if b == [] {
      assert a + b == a;
    } else {
      var b' := b[..|b| - 1];
      assert (a + b)[..|a + b| - 1] == a + b';
      assert (a + b)[|a + b| - 1] == b[|b| - 1];
      SumTimesAppend(a, b');
    }
  }

  /** Taking one step out of the sequence takes its time out of the sum. */
  lemma {:induction false} SumTimesRemove(s: seq<StepReport>, k: nat)
    requires k < |s|
    ensures SumTimes(s) == SumTimes(s[..k] + s[k + 1..]) + TimeOrZero(s[k])
  {
    var pre, post := s[..k], s[k + 1..];
    assert s == pre + ([s[k]] + post);
    SumTimesAppend(pre, [s[k]] + post);
    SumTimesAppend([s[k]], post);
    SumTimesAppend(pre, post);
    SumTimesSingle(s[k]);
  }

  lemma {:induction false} SumTimesSingle(x: StepReport)
    ensures SumTimes([x]) == TimeOrZero(x)
  {
    assert [x][..0] == [];
  }

  /** The summed time does not depend on the order in which the step set is iterated. */
  lemma {:induction false} SumTimesPermutation(a: seq<StepReport>, b: seq<StepReport>)
    requires multiset(a) == multiset(b)
    ensures SumTimes(a) == SumTimes(b)
  {
    if a != [] {
      var n := |a| - 1;
      var x := a[n];
      assert x in multiset(b);
      var k :| 0 <= k < |b| && b[k] == x;
      var b' := b[..k] + b[k + 1..];
      MultisetWithout(b, k);
      assert a == a[..n] + [x];
      assert multiset(a[..n]) == multiset(b');
      SumTimesPermutation(a[..n], b');
      SumTimesRemove(b, k);
      assert SumTimes(a) == SumTimes(a[..n]) + TimeOrZero(x);
    }
  }

  /** Taking the element at `k` out of a sequence takes one copy of it out of its multiset. */
  lemma {:induction false} MultisetWithout(s: seq<StepReport>, k: nat)
    requires k < |s|
    ensures multiset(s[..k] + s[k + 1..]) == multiset(s) - multiset{s[k]}
  {
    assert s == s[..k] + [s[k]] + s[k + 1..];
  }

  /**
   * The step reports are a set: whatever order it is iterated in, the rollup
   * gives the same report.
   */
  lemma {:induction false} RollupOrderIndependent(report: TaskReport, a: seq<StepReport>, b: seq<StepReport>, now: int)
    requires multiset(a) == multiset(b)
    ensures Rollup(report, a, now) == Rollup(report, b, now)
  {
    forall x ensures x in a <==> x in b {
      assert x in a <==> x in multiset(a);
      assert x in b <==> x in multiset(b);
    }
    assert |a| == |multiset(a)| == |b|;
    assert RollupStatus(a) == RollupStatus(b) by {
      forall st: Status
        ensures (exists i :: 0 <= i < |a| && a[i].status == Some(st)) <==>
                (exists j :: 0 <= j < |b| && b[j].status == Some(st))
      {
        if i :| 0 <= i < |a| && a[i].status == Some(st) {
          assert a[i] in b;
        }
        if j :| 0 <= j < |b| && b[j].status == Some(st) {
          assert b[j] in a;
        }
      }
    }
    assert AllTimed(a) <==> AllTimed(b) by {
      if !AllTimed(a) {
        var i :| 0 <= i < |a| && a[i].executionTimeSeconds.None?;
        assert a[i] in b;
      }
      if !AllTimed(b) {
        var j :| 0 <= j < |b| && b[j].executionTimeSeconds.None?;
        assert b[j] in a;
      }
    }
    SumTimesPermutation(a, b);
  }
}
