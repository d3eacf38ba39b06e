/** One key's circuit breaker: CLOSED / OPEN / HALF_OPEN with capped exponential backoff. */
module KeyBreaker {

  const BASE_TIMEOUT: real := 90.0
  const FAILURE_THRESHOLD: nat := 3
  const COOLDOWN_CAP: real := 3600.0

  datatype State = Closed | Open | HalfOpen

  function Pow2(n: nat): (r: nat)
    ensures r >= 1
  {
    if n == 0 then 1 else 2 * Pow2(n - 1)
  }

  lemma {:induction false} Pow2Monotone(m: nat, n: nat)
    requires m <= n
    ensures Pow2(m) <= Pow2(n)
  {
    if m == n {
    } else {
      Pow2Monotone(m, n - 1);
    }
  }

  function Min(a: real, b: real): real { if a <= b then a else b }

  function Max(a: real, b: real): real { if a <= b then b else a }

  /** base * 2^trips, without the one-hour cap. */
  function Backoff(base: real, trips: nat): real { base * Pow2(trips) as real }

  lemma BackoffMonotone(base: real, m: nat, n: nat)
    requires base >= 0.0 && m <= n
    ensures Backoff(base, m) <= Backoff(base, n)
  {
    Pow2Monotone(m, n);
    assert base * (Pow2(n) - Pow2(m)) as real >= 0.0;
  }

  /** The value of a breaker: what its fields hold. */
  datatype Breaker = Breaker(
    failureCount: nat, trippedCount: nat, state: State,
    lastFailureTime: real, lastTouched: real, threshold: nat, baseTimeout: real)
  {
    function Cooldown(): real {
      Min(Backoff(baseTimeout, trippedCount), COOLDOWN_CAP)
    }

    function ReadyAt(now: real): real {
      if state != Open then now else lastFailureTime + Cooldown()
    }

    predicate Blocks(now: real) {
      state == Open && now < ReadyAt(now)
    }

    function Succeeded(now: real): Breaker {
      this.(failureCount := 0, trippedCount := 0, state := Closed, lastTouched := now)
    }

    function Failed(now: real): Breaker {
      var b := this.(failureCount := failureCount + 1, lastFailureTime := now, lastTouched := now);
      if state == HalfOpen then b.(state := Open, trippedCount := trippedCount + 1)
      else if state == Closed && failureCount + 1 >= threshold then b.(state := Open)
      else b
    }

    /** A caller asks to use the key: an expired OPEN breaker becomes HALF_OPEN. */
    function Checked(now: real): Breaker {
      if state == Open && !Blocks(now) then this.(state := HalfOpen) else this
    }
  }

  function Fresh(now: real): Breaker {
    Breaker(0, 0, Closed, 0.0, now, FAILURE_THRESHOLD, BASE_TIMEOUT)
  }

  class KeyCircuitBreaker {
    var failureCount: nat
    var trippedCount: nat
    var state: State
    var lastFailureTime: real
    var lastTouched: real
    const failureThreshold: nat
    const baseTimeout: real

    constructor (failureThreshold: nat, baseTimeout: real, now: real)
      ensures View() == Breaker(0, 0, Closed, 0.0, now, failureThreshold, baseTimeout)
    {
      this.failureCount, this.trippedCount, this.state := 0, 0, Closed;
      this.lastFailureTime, this.lastTouched := 0.0, now;
      this.failureThreshold, this.baseTimeout := failureThreshold, baseTimeout;
    }

    function View(): Breaker
      reads this
    {
      Breaker(failureCount, trippedCount, state, lastFailureTime, lastTouched,
              failureThreshold, baseTimeout)
    }

    predicate IsReady()
      reads this
    {
      state == Closed || state == HalfOpen
    }

    method RecordSuccess(now: real)
      modifies this
      ensures View() == old(View()).Succeeded(now)
    {
      failureCount := 0;
      trippedCount := 0;
      state := Closed;
      lastTouched := now;
    }

    method RecordFailure(now: real)
      modifies this
      ensures View() == old(View()).Failed(now)
    {
      failureCount := failureCount + 1;
      lastFailureTime := now;
      lastTouched := now;
      if state == HalfOpen {
        state := Open;
        trippedCount := trippedCount + 1;
      } else if state == Closed && failureCount >= failureThreshold {
        state := Open;
      }
    }

    method TryHalfOpen(now: real) returns (ok: bool)
      modifies this
      ensures ok == (old(View()).state == Open && !old(View()).Blocks(now))
      ensures View() == old(View()).Checked(now)
    {
      if state != Open {
        return false;
      }
      if now >= View().ReadyAt(now) {
        state := HalfOpen;
        return true;
      }
      return false;
    }
  }

  // ----- one breaker over a whole history -----

  datatype KeyEvent = Worked(at: real) | Broke(at: real) | Asked(at: real)

  function Replay(b: Breaker, events: seq<KeyEvent>): Breaker {
    if events == [] then b
    else
      var before := Replay(b, events[..|events| - 1]);
      match events[|events| - 1]
      case Worked(now) => before.Succeeded(now)
      case Broke(now) => before.Failed(now)
      case Asked(now) => before.Checked(now)
  }

  /** Failures after the last success. */
  function FailuresInARow(events: seq<KeyEvent>): nat {
    if events == [] then 0
    else
      match events[|events| - 1]
      case Worked(_) => 0
      case Broke(_) => FailuresInARow(events[..|events| - 1]) + 1
      case Asked(_) => FailuresInARow(events[..|events| - 1])
  }

  /** Checks, since the last success, that found an expired OPEN breaker and let one probe through. */
  function Probes(b: Breaker, events: seq<KeyEvent>): nat {
    if events == [] then 0
    else
      var before := events[..|events| - 1];
      match events[|events| - 1]
      case Worked(_) => 0
      case Broke(_) => Probes(b, before)
      case Asked(now) =>
        Probes(b, before) + (if Replay(b, before).state == Open && !Replay(b, before).Blocks(now) then 1 else 0)
  }

  /** The counters of a breaker that started fresh are determined by what happened since the last
      success: it is CLOSED iff fewer than three failures came, and its backoff exponent counts the
      probes that have failed (every probe, except one still running). */
  lemma {:induction false} CountersTellHistory(start: real, events: seq<KeyEvent>)
    ensures var b := Replay(Fresh(start), events);
            && b.failureCount == FailuresInARow(events)
            && (b.state == Closed <==> FailuresInARow(events) < FAILURE_THRESHOLD)
            && b.trippedCount == Probes(Fresh(start), events) - (if b.state == HalfOpen then 1 else 0)
            && b.threshold == FAILURE_THRESHOLD && b.baseTimeout == BASE_TIMEOUT
  {
    if events == [] {
    } else {
      CountersTellHistory(start, events[..|events| - 1]);
    }
  }
}
