/**
  What the backend remembers about each collector it has heard from
  (`ClientMetadata`): when its last measurement arrived, and how long it may
  stay silent. Instants and durations are integer nanoseconds; the current
  time, which the source reads from the clock, is a parameter.
*/
module Clients {
  import opened Wrappers
  import opened Failures
  import Chrono
  import Durations

  /** `DEFAULT_INTERVAL` and `DEFAULT_TIMEOUT`: thirty seconds each. */
  const DEFAULT_INTERVAL: int := 30 * Chrono.NANOS_PER_SEC
  const DEFAULT_TIMEOUT: int := 30 * Chrono.NANOS_PER_SEC

  /**
    A client last heard from at `lastRecv` is overdue at `when` when more
    than one interval plus the grace period has passed since (strictly more).
  */
  predicate TimedOut(lastRecv: int, interval: int, timeout: int, when: int) {
    when - lastRecv > interval + timeout
  }

  class ClientMetadata {
    var lastRecv: int
    var interval: int
    var timeout: int

    /** `ClientMetadata::new`: heard from now, with the default durations. */
    constructor(now: int)
      ensures lastRecv == now
      ensures interval == DEFAULT_INTERVAL && timeout == DEFAULT_TIMEOUT
    {
      lastRecv := now;
      interval := DEFAULT_INTERVAL;
      timeout := DEFAULT_TIMEOUT;
    }

    /** `update_last_recv`: only the time of the last message moves. */
    method UpdateLastRecv(now: int)
      modifies this
      ensures lastRecv == now
      ensures interval == old(interval) && timeout == old(timeout)
      ensures !TimedOut(lastRecv, interval, timeout, now) <==> interval + timeout >= 0
    {
      lastRecv := now;
    }

    /**
      `has_timed_out_since`: `when` defaults to the current time. Adding the
      two durations panics when the sum leaves chrono's range.
    */
    method HasTimedOutSince(when: Option<int>, now: int) returns (r: Result<bool, Failure>)
      ensures Durations.InRange(interval + timeout) ==>
                r == Ok(TimedOut(lastRecv, interval, timeout, if when.Some? then when.value else now))
      ensures !Durations.InRange(interval + timeout) ==> r.Err? && r.error.Panic?
    {
      var total := interval + timeout;
      if !Durations.InRange(total) {
        return Err(Panic("`TimeDelta + TimeDelta` overflowed"));
      }
      var t := if when.Some? then when.value else now;
      return Ok(t - lastRecv > total);
    }

    /** `has_timed_out`: overdue at the current time. */
    method HasTimedOut(now: int) returns (r: Result<bool, Failure>)
      ensures Durations.InRange(interval + timeout) ==> r == Ok(TimedOut(lastRecv, interval, timeout, now))
      ensures !Durations.InRange(interval + timeout) ==> r.Err? && r.error.Panic?
    {
      r := HasTimedOutSince(Some(now), now);
    }
  }

  /** Exactly one interval plus the grace period after the last message is not yet overdue. */
  lemma BoundaryNotTimedOut(lastRecv: int, interval: int, timeout: int)
    ensures !TimedOut(lastRecv, interval, timeout, lastRecv + interval + timeout)
    ensures TimedOut(lastRecv, interval, timeout, lastRecv + interval + timeout + 1)
  {
  }

  /** Without a new message, an overdue client stays overdue. */
  lemma TimedOutMonotone(lastRecv: int, interval: int, timeout: int, when: int, later: int)
    requires TimedOut(lastRecv, interval, timeout, when)
    requires when <= later
    ensures TimedOut(lastRecv, interval, timeout, later)
  {
  }

  /** A message refreshes the client: it is overdue again only after a full allowance. */
  lemma FreshClientNotTimedOut(now: int, when: int)
    requires now <= when <= now + DEFAULT_INTERVAL + DEFAULT_TIMEOUT
    ensures !TimedOut(now, DEFAULT_INTERVAL, DEFAULT_TIMEOUT, when)
  {
  }

  /**
    With the defaults, a client last seen 65 seconds ago is overdue; one
    seen 20 or 40 seconds ago is not.
  */
  lemma DefaultExamples(now: int)
    ensures TimedOut(now - 65 * Chrono.NANOS_PER_SEC, DEFAULT_INTERVAL, DEFAULT_TIMEOUT, now)
    ensures !TimedOut(now - 20 * Chrono.NANOS_PER_SEC, DEFAULT_INTERVAL, DEFAULT_TIMEOUT, now)
    ensures !TimedOut(now - 40 * Chrono.NANOS_PER_SEC, DEFAULT_INTERVAL, DEFAULT_TIMEOUT, now)
  {
  }

  /** The check as the source's tests make it, through the methods. */
  method DefaultClientExample(now: int) returns (r: Result<bool, Failure>)
    ensures r == Ok(false)
  {
    var client := new ClientMetadata(now - 40 * Chrono.NANOS_PER_SEC);
    r := client.HasTimedOut(now);
  }
}
