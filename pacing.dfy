/**
 * The termination and pacing rule of the probe loop. It is asked before
 * every probe, with the number of probes already completed, and decides
 * whether the loop stops and, if it goes on, whether it first sleeps.
 */
module Pacing {
  import opened Wrappers

  /** What one evaluation of the rule decides: stop, and the pause taken before the next probe. */
  datatype Decision = Decision(stop: bool, pause: Option<int>)

  /**
   * The rule for `counter` completed probes, the limit `max` and the sleep
   * `interval`: a limit of 0 means no limit; any other limit stops once
   * `counter >= max`. Unless it stops, every call but the first one
   * (counter 0) sleeps for `interval`.
   */
  function ShouldStop(counter: int, max: int, interval: int): (d: Decision)
    ensures max == 0 ==> !d.stop
    ensures max != 0 ==> (d.stop <==> counter >= max)
    ensures d.pause.Some? <==> counter != 0 && !d.stop
    ensures d.pause.Some? ==> d.pause.value == interval
  {
    var shouldSleep := counter != 0;
    if max == 0 then
      Decision(false, if shouldSleep then Some(interval) else None)
    else if counter >= max then
      Decision(true, None)
    else
      Decision(false, if shouldSleep then Some(interval) else None)
  }

  /**
   * How many probes the limit `max` admits: none for a limit of 0 (no
   * bound), zero probes for a negative limit, `max` probes otherwise.
   */
  function Budget(max: int): (b: Option<nat>)
    ensures b.None? <==> max == 0
    ensures b.Some? ==> b.value == if max < 0 then 0 else max
  {
    if max == 0 then None else if max < 0 then Some(0) else Some(max)
  }

  /** The rule stops after exactly the probes the budget admits, and never when there is no budget. */
  lemma StopsWhenBudgetSpent(counter: nat, max: int, interval: int)
    ensures ShouldStop(counter, max, interval).stop <==> Budget(max).Some? && counter >= Budget(max).value
  {
  }

  /** Once the rule has said stop, it says stop for every larger counter. */
  lemma StopIsFinal(counter: int, later: int, max: int, interval: int)
    requires counter <= later
    requires ShouldStop(counter, max, interval).stop
    ensures ShouldStop(later, max, interval).stop
    ensures ShouldStop(later, max, interval).pause.None?
  {
  }
}
