/** The step lifecycle rule applied on every step create and update (`checkForSuccess`). */
module Lifecycle {
  import opened Outcome
  import opened StatusEnum
  import opened Entities

  /** ChronoUnit.SECONDS.between(start, end) on a clock counted in whole seconds. */
  function SecondsBetween(start: int, end: int): int {
    end - start
  }

  /**
   * The timing fields agree with the status: a SUCCESS step has an end time
   * and the elapsed seconds from its start to that end; any other step
   * (including one with no status) has neither.
   */
  predicate TimingConsistent(s: StepReport) {
    if s.status == Some(SUCCESS) then
      s.endDateTime.Some? && s.executionTimeSeconds == Some(SecondsBetween(s.startDateTime, s.endDateTime.value))
    else
      s.endDateTime.None? && s.executionTimeSeconds.None?
  }

  /** checkForSuccess(step) at clock reading `now`. */
  function CheckForSuccess(s: StepReport, now: int): (r: StepReport)
    ensures TimingConsistent(r)
    ensures r.status == Some(SUCCESS) ==> r.endDateTime == Some(now)
    ensures r.(endDateTime := s.endDateTime, executionTimeSeconds := s.executionTimeSeconds) == s
  {
    if s.status == Some(SUCCESS) then
      s.(endDateTime := Some(now), executionTimeSeconds := Some(SecondsBetween(s.startDateTime, now)))
    else
      s.(endDateTime := None, executionTimeSeconds := None)
  }

  /** A step that finished successfully never reports a negative duration unless the clock went back. */
  lemma ElapsedNonNegative(s: StepReport, now: int)
    requires s.status == Some(SUCCESS) && s.startDateTime <= now
    ensures CheckForSuccess(s, now).executionTimeSeconds.value >= 0
  {
  }

  /**
   * Re-applying the rule recomputes from the original start time: the result
   * depends only on the latest clock reading, so applying it twice at the same
   * reading is the same as applying it once.
   */
  lemma CheckForSuccessReapplied(s: StepReport, t1: int, t2: int)
    ensures CheckForSuccess(CheckForSuccess(s, t1), t2) == CheckForSuccess(s, t2)
  {
  }

  /**
   * On a step whose timing fields are already consistent, the rule leaves a
   * non-SUCCESS step, and a SUCCESS step that ended at `now`, unchanged.
   */
  lemma CheckForSuccessOnConsistent(s: StepReport, now: int)
    requires TimingConsistent(s)
    ensures s.status != Some(SUCCESS) ==> CheckForSuccess(s, now) == s
    ensures s.status == Some(SUCCESS) && s.endDateTime == Some(now) ==> CheckForSuccess(s, now) == s
  {
  }
}
