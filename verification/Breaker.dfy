/** The passive circuit breaker of a backend, with every call taken as one atomic step.
    Times are nanoseconds, as `UnixNano` gives them. */
module Breaker {
  datatype State = Closed | Open | HalfOpen

  /** The part of a `Backend` that the breaker reads and writes.  `checked` says that a health
      check path is configured, which switches the passive breaker off. */
  datatype Circuit = Circuit(checked: bool, state: State, healthy: bool, retryAfter: int, failures: int)

  /** Calls that reach a circuit: a selector asks for it, a proxied request ends, a health check ends. */
  datatype Event =
    | Ask(at: int)
    | Finish(at: int, ok: bool)
    | Check(at: int, ok: bool)

  const COOL_DOWN: int := 30_000_000_000
  const TRIP_AT: int := 5

  const FRESH: Circuit := Circuit(false, Closed, true, 0, 0)

  /** Whether `Available` answers yes. */
  predicate Answer(c: Circuit, now: int) {
    if c.checked then c.healthy
    else match c.state
      case Closed => c.healthy
      case Open => c.retryAfter <= now
      case HalfOpen => false
  }

  /** The circuit that `Available` leaves behind: an open circuit that is due turns half-open. */
  function Asked(c: Circuit, now: int): Circuit {
    if !c.checked && c.state == Open && c.retryAfter <= now
    then c.(state := HalfOpen, healthy := true)
    else c
  }

  /** `openCircuit`. */
  function Tripped(c: Circuit, now: int): Circuit {
    c.(state := Open, healthy := false, retryAfter := now + COOL_DOWN, failures := 0)
  }

  /** The response hook on a response that no modifier rejects and whose status is below 500. */
  function Succeeded(c: Circuit): Circuit {
    if !c.checked && c.state == HalfOpen
    then c.(state := Closed, healthy := true, retryAfter := 0, failures := 0)
    else c.(failures := 0)
  }

  /** The error hook. */
  function Failed(c: Circuit, now: int): Circuit {
    if c.checked then c
    else match c.state
      case HalfOpen => Tripped(c, now)
      case Closed =>
        if c.failures + 1 >= TRIP_AT then Tripped(c, now) else c.(failures := c.failures + 1)
      case Open => c
  }

  /** `setHealth`. */
  function HealthSet(c: Circuit, ok: bool): Circuit {
    if ok then c.(state := Closed, healthy := true, retryAfter := 0, failures := 0)
    else c.(state := Open, healthy := false)
  }

  function Step(c: Circuit, e: Event): Circuit {
    match e
    case Ask(at) => Asked(c, at)
    case Finish(at, ok) => if ok then Succeeded(c) else Failed(c, at)
    case Check(_, ok) => HealthSet(c, ok)
  }

  /** How a proxied request ended, before the hooks look at it. */
  datatype Outcome =
    | TransportError
    | Response(status: int, modifiersOk: bool)

  predicate Healthful(o: Outcome) {
    o.Response? && o.modifiersOk && o.status < 500
  }

  /** `Backend`, with its atomics as fields. */
  class Backend {
    const checked: bool
    var breakerState: State
    var healthy: bool
    var retryAfter: int
    var failureCount: int
    var activeConnections: int

    function View(): (c: Circuit)
      reads this
    {
      Circuit(checked, breakerState, healthy, retryAfter, failureCount)
    }

    /** A backend with a health check starts unhealthy, as the route builder leaves it. */
    constructor (healthChecked: bool)
      ensures View() == FRESH.(checked := healthChecked, healthy := !healthChecked)
      ensures activeConnections == 0
    {
      checked := healthChecked;
      breakerState := Closed;
      healthy := !healthChecked;
      retryAfter, failureCount, activeConnections := 0, 0, 0;
    }

    method Available(now: int) returns (ok: bool)
      modifies this`breakerState, this`healthy
      ensures View() == Step(old(View()), Ask(now))
      ensures ok == Answer(old(View()), now)
      // With a health check, or closed: whether healthy.  Open: from the deadline on.  Half-open: no.
      ensures checked || old(breakerState) == Closed ==> ok == old(healthy) && View() == old(View())
      ensures !checked && old(breakerState) == Open ==> ok == (old(retryAfter) <= now)
      ensures !checked && old(breakerState) == Open && ok ==>
                breakerState == HalfOpen && healthy && retryAfter == old(retryAfter) && failureCount == old(failureCount)
      ensures !checked && old(breakerState) == HalfOpen ==> !ok
      ensures !ok ==> View() == old(View())
    {
      if checked {
        return healthy;
      }
      match breakerState {
        case Closed =>
          return healthy;
        case Open =>
          if now < retryAfter {
            return false;
          }
          breakerState := HalfOpen;
          healthy := true;
          return true;
        case HalfOpen =>
      }
      return false;
    }

    method OpenCircuit(now: int)
      modifies this`breakerState, this`healthy, this`retryAfter, this`failureCount
      ensures View() == Tripped(old(View()), now)
      ensures breakerState == Open && !healthy && failureCount == 0 && retryAfter == now + 30_000_000_000
    {
      healthy := false;
      failureCount := 0;
      retryAfter := now + COOL_DOWN;
      breakerState := Open;
    }

    /** The `ModifyResponse` hook, then the `ErrorHandler` hook when the first one fails.  A response that its
        modifiers let pass, with a status below 500, is a success: it resets the counter, and closes a
        half-open circuit.  Anything else is a failure: it changes nothing if there is a health check or the
        circuit is open, opens a half-open circuit, and otherwise counts one, the fifth of which opens. */
    method Complete(o: Outcome, now: int)
      modifies this`breakerState, this`healthy, this`retryAfter, this`failureCount
      ensures View() == Step(old(View()), Finish(now, Healthful(o)))
      ensures o.Response? && o.modifiersOk && o.status < 500 ==>
                if !checked && old(breakerState) == HalfOpen then View() == FRESH
                else View() == old(View()).(failures := 0)
      ensures o.TransportError? || !o.modifiersOk || o.status >= 500 ==>
                if checked || old(breakerState) == Open then View() == old(View())
                else if old(breakerState) == HalfOpen || old(failureCount) + 1 >= 5 then
                  View() == Circuit(false, Open, false, now + 30_000_000_000, 0)
                else View() == old(View()).(failures := old(failureCount) + 1)
    {
      if o.Response? && o.modifiersOk && o.status < 500 {
        failureCount := 0;
        if !checked && breakerState == HalfOpen {
          breakerState := Closed;
          healthy := true;
          retryAfter := 0;
        }
        return;
      }
      if !checked {
        match breakerState {
          case HalfOpen =>
            OpenCircuit(now);
          case Closed =>
            failureCount := failureCount + 1;
            if failureCount >= TRIP_AT {
              OpenCircuit(now);
            }
          case Open =>
        }
      }
    }

    method SetHealth(ok: bool, now: int)
      modifies this`breakerState, this`healthy, this`retryAfter, this`failureCount
      ensures View() == Step(old(View()), Check(now, ok))
      ensures healthy == ok && breakerState == (if ok then Closed else Open)
      ensures retryAfter == (if ok then 0 else old(retryAfter)) && failureCount == (if ok then 0 else old(failureCount))
    {
      healthy := ok;
      if ok {
        failureCount := 0;
        retryAfter := 0;
        breakerState := Closed;
      } else {
        breakerState := Open;
      }
    }
  }
}
