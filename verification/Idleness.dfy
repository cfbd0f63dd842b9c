/** Idle gaps and utilization: the wait between one completion and the next claim. */
module Idleness {
  import opened Base

  datatype IdlePeriod = IdlePeriod(
    associateId: string,
    taskType: string,
    startedAt: Instant,
    endedAt: Instant,
    seconds: int,
    capped: bool)

  datatype Error = EmptyAssociateId | NegativeGap

  /** A gap must be strictly positive; its whole seconds are clipped at a positive cap. */
  function New(associateId: string, taskType: string, startedAt: Instant, endedAt: Instant, capSeconds: int)
    : (r: Result<IdlePeriod, Error>)
    ensures r.Ok? <==> associateId != "" && startedAt < endedAt
    ensures r == Err(EmptyAssociateId) <==> associateId == ""
    ensures r.Ok? ==>
              && r.value.associateId == associateId && r.value.taskType == taskType
              && r.value.startedAt == startedAt && r.value.endedAt == endedAt
              && (r.value.capped ==> r.value.seconds == capSeconds)
              && 0 <= r.value.seconds
              && r.value.seconds * SECOND <= endedAt - startedAt
              && (capSeconds > 0 ==> r.value.seconds <= capSeconds)
              && (!r.value.capped ==> endedAt - startedAt < (r.value.seconds + 1) * SECOND)
              && (r.value.capped <==> capSeconds > 0 && (capSeconds + 1) * SECOND <= endedAt - startedAt)
  {
    if associateId == "" then Err(EmptyAssociateId)
    else if endedAt <= startedAt then Err(NegativeGap)
    else
      var rawSeconds := WholeSeconds(endedAt - startedAt);
      if capSeconds > 0 && rawSeconds > capSeconds
      then Ok(IdlePeriod(associateId, taskType, startedAt, endedAt, capSeconds, true))
      else Ok(IdlePeriod(associateId, taskType, startedAt, endedAt, rawSeconds, false))
  }

  /** The share of task time in the whole, undefined without any. */
  function UtilizationPct(taskSeconds: int, idleSeconds: int): (pct: Option<real>)
    ensures pct.Some? <==> taskSeconds + idleSeconds > 0
    ensures pct.Some? ==> pct.value * (taskSeconds + idleSeconds) as real == 100.0 * taskSeconds as real
    ensures pct.Some? && taskSeconds >= 0 && idleSeconds >= 0 ==> 0.0 <= pct.value <= 100.0
  {
    var total := taskSeconds + idleSeconds;
    if total <= 0 then None else Some(100.0 * taskSeconds as real / total as real)
  }
}
