/** The TaskPerformance aggregate: one completed task, scored once and frozen. */
module Performance {
  import opened Base

  datatype TaskPerformance = TaskPerformance(
    eventId: string,
    taskId: string,
    associateId: string,
    taskType: string,
    actualSeconds: int,
    standardSeconds: int,
    efficiencyPct: Option<real>,
    completedAt: Instant)

  datatype Error = EmptyEventId | EmptyTaskId

  /** A score exists exactly for a duration and a standard, and is their ratio in percent. */
  predicate IsScore(pct: Option<real>, actualSeconds: int, standardSeconds: int) {
    && (pct.Some? <==> actualSeconds > 0 && standardSeconds > 0)
    && (pct.Some? ==> pct.value * actualSeconds as real == 100.0 * standardSeconds as real)
  }

  /** Never divides by zero: unmeasurable or unstandardised work has no score. */
  function ComputeEfficiencyPct(actualSeconds: int, standardSeconds: int): (pct: Option<real>)
    ensures pct.Some? <==> actualSeconds > 0 && standardSeconds > 0
    ensures pct.Some? ==> pct.value > 0.0 && pct.value * actualSeconds as real == 100.0 * standardSeconds as real
  {
    if actualSeconds <= 0 || standardSeconds <= 0 then None
    else Some(100.0 * standardSeconds as real / actualSeconds as real)
  }

  function New(eventId: string, taskId: string, associateId: string, taskType: string,
               actualSeconds: int, standardSeconds: int, completedAt: Instant)
    : (r: Result<TaskPerformance, Error>)
    ensures r == Err(EmptyEventId) <==> eventId == ""
    ensures r == Err(EmptyTaskId) <==> eventId != "" && taskId == ""
    ensures r.Ok? ==>
              && r.value.eventId == eventId && r.value.taskId == taskId && r.value.associateId == associateId
              && r.value.taskType == taskType && r.value.completedAt == completedAt
              && r.value.actualSeconds == actualSeconds && r.value.standardSeconds == standardSeconds
  {
    if eventId == "" then Err(EmptyEventId)
    else if taskId == "" then Err(EmptyTaskId)
    else Ok(TaskPerformance(eventId, taskId, associateId, taskType, actualSeconds, standardSeconds,
                            ComputeEfficiencyPct(actualSeconds, standardSeconds), completedAt))
  }

  /** The instant the task was claimed, as the idle-gap rule derives it. */
  function ClaimedAt(p: TaskPerformance): Instant {
    p.completedAt - p.actualSeconds * SECOND
  }
}
