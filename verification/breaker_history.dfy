/** What a check answers and what a failure reports, told from the events alone. */
module BreakerHistory {
  import opened KeyBreaker
  import opened BreakerRegistry

  /** The event at i put the key into the map, and it has stayed there until before the j-th event. */
  ghost predicate Lives(states: seq<Registry>, events: seq<Event>, key: Key, i: nat, j: nat) {
    && i < j <= |events| && |states| == |events| + 1
    && key !in states[i]
    && forall n :: i < n <= j ==> key in states[n]
  }

  predicate Fails(e: Event, key: Key) { e.Failure? && e.key == key }

  predicate Passes(e: Event, key: Key) { e.Check? && e.key == key && e.allowed }

  // ----- what the events from i to j say about the key -----

  /** Failures reported, the first one at i; a restore stands for three. */
  function Failures(events: seq<Event>, key: Key, i: nat, j: nat): nat
    requires i < j <= |events|
  {
    if j == i + 1 then (if events[i].Restore? then 3 else 1)
    else Failures(events, key, i, j - 1) + (if Fails(events[j - 1], key) then 1 else 0)
  }

  /** A check has been passed after three failures, and no failure was reported since. */
  predicate Probing(events: seq<Event>, key: Key, i: nat, j: nat)
    requires i < j <= |events|
  {
    && j > i + 1 && !Fails(events[j - 1], key)
    && ((Passes(events[j - 1], key) && Failures(events, key, i, j - 1) >= 3) || Probing(events, key, i, j - 1))
  }

  lemma {:induction false} ProbingHasFailed(events: seq<Event>, key: Key, i: nat, j: nat)
    requires i < j <= |events|
    ensures Probing(events, key, i, j) ==> Failures(events, key, i, j) >= 3
  {
    if j == i + 1 {
    } else {
      ProbingHasFailed(events, key, i, j - 1);
    }
  }

  /** Probes that failed; a restore brings its own count. */
  function FailedProbes(events: seq<Event>, key: Key, i: nat, j: nat): nat
    requires i < j <= |events|
  {
    if j == i + 1 then (if events[i].Restore? then events[i].trips else 0)
    else FailedProbes(events, key, i, j - 1)
         + (if Fails(events[j - 1], key) && Probing(events, key, i, j - 1) then 1 else 0)
  }

  /** When the last failure was reported; a restore dates it back. */
  function LastFailure(events: seq<Event>, key: Key, i: nat, j: nat): real
    requires i < j <= |events|
  {
    if j == i + 1 then
      if events[i].Restore? then
        var back := events[i].at - (90.0 * Pow2(events[i].trips) as real - events[i].remaining);
        if back < 0.0 then 0.0 else back
      else events[i].at
    else if Fails(events[j - 1], key) then events[j - 1].at
    else LastFailure(events, key, i, j - 1)
  }

  /** 90 seconds, doubled for every failed probe, at most an hour. */
  function Pause(probes: nat): real {
    if 90.0 * Pow2(probes) as real <= 3600.0 then 90.0 * Pow2(probes) as real else 3600.0
  }

  lemma PauseDoubles(probes: nat)
    ensures Pause(0) == 90.0
    ensures Pause(probes + 1) == if Pause(probes) <= 1800.0 then 2.0 * Pause(probes) else 3600.0
  {
    assert Pow2(0) == 1 && Pow2(probes + 1) == 2 * Pow2(probes);
  }

  // ----- the breaker is what the events say -----

  ghost predicate IsTold(b: Breaker, events: seq<Event>, key: Key, i: nat, j: nat)
    requires i < j <= |events|
  {
    && b.failureCount == Failures(events, key, i, j) && b.trippedCount == FailedProbes(events, key, i, j)
    && b.lastFailureTime == LastFailure(events, key, i, j)
    && b.threshold == 3 && b.baseTimeout == 90.0
    && b.state == (if Failures(events, key, i, j) < 3 then Closed
                   else if Probing(events, key, i, j) then HalfOpen else Open)
    && (Failures(events, key, i, j) < 3 ==> b.lastTouched == LastFailure(events, key, i, j))
  }

  lemma {:induction false} FirstTold(r: Registry, events: seq<Event>, key: Key, i: nat, r': Registry)
    requires i < |events| && Step(r, events[i], r') && key !in r && key in r'
    ensures IsTold(r'[key], events, key, i, i + 1)
  {
  }

  lemma {:induction false} NextTold(r: Registry, events: seq<Event>, key: Key, i: nat, j: nat, r': Registry)
    requires i < j < |events| && Step(r, events[j], r') && key in r && key in r'
    requires IsTold(r[key], events, key, i, j)
    ensures IsTold(r'[key], events, key, i, j + 1)
  {
    ProbingHasFailed(events, key, i, j);
  }

  lemma {:induction false} AlwaysTold(states: seq<Registry>, events: seq<Event>, key: Key, i: nat, j: nat)
    requires Run(states, events) && Lives(states, events, key, i, j)
    ensures IsTold(states[j][key], events, key, i, j)
  {
    if j == i + 1 {
      FirstTold(states[i], events, key, i, states[i + 1]);
    } else {
      AlwaysTold(states, events, key, i, j - 1);
      NextTold(states[j - 1], events, key, i, j - 1, states[j]);
    }
  }

  /** A key in the map has come in at some event. */
  lemma {:induction false} CameIn(states: seq<Registry>, events: seq<Event>, key: Key, j: nat) returns (i: nat)
    requires |states| == |events| + 1 && states[0] == map[] && j <= |events| && key in states[j]
    ensures Lives(states, events, key, i, j)
  {
    if key !in states[j - 1] {
      i := j - 1;
    } else {
      i := CameIn(states, events, key, j - 1);
    }
  }

  // ----- what the callers are told -----

  /** Over every run: a check is refused iff three failures (or a restore) have been reported since
      the key came in, no probe is running, and the last failure lies less than the pause back. An
      unknown key, one with fewer failures and one being probed always pass. */
  lemma {:induction false} CheckAnswers(states: seq<Registry>, events: seq<Event>, j: nat)
    requires Run(states, events) && states[0] == map[] && j < |events| && events[j].Check?
    ensures events[j].key !in states[j] ==> events[j].allowed
    ensures forall i :: Lives(states, events, events[j].key, i, j) ==>
              (!events[j].allowed <==>
               && Failures(events, events[j].key, i, j) >= 3 && !Probing(events, events[j].key, i, j)
               && events[j].at - LastFailure(events, events[j].key, i, j)
                  < Pause(FailedProbes(events, events[j].key, i, j)))
  {
    assert Step(states[j], events[j], states[j + 1]);
    forall i | Lives(states, events, events[j].key, i, j)
      ensures !events[j].allowed <==>
              && Failures(events, events[j].key, i, j) >= 3 && !Probing(events, events[j].key, i, j)
              && events[j].at - LastFailure(events, events[j].key, i, j)
                 < Pause(FailedProbes(events, events[j].key, i, j))
    {
      AlwaysTold(states, events, events[j].key, i, j);
    }
  }

  /** The same in terms of the breaker: only an OPEN one refuses, and only for its pause. */
  lemma {:induction false} OnlyOpenRefuses(states: seq<Registry>, events: seq<Event>, j: nat)
    requires Run(states, events) && states[0] == map[] && j < |events| && events[j].Check?
    ensures !events[j].allowed <==>
            && events[j].key in states[j]
            && var b := states[j][events[j].key];
               b.state == Open && events[j].at - b.lastFailureTime < Pause(b.trippedCount)
  {
    assert Step(states[j], events[j], states[j + 1]);
    if events[j].key in states[j] {
      var i := CameIn(states, events, events[j].key, j);
      AlwaysTold(states, events, events[j].key, i, j);
    }
  }

  /** A refusal needs three failures since the key came in, or a restore. */
  lemma {:induction false} RefusalNeedsFailures(states: seq<Registry>, events: seq<Event>, j: nat)
    requires Run(states, events) && states[0] == map[] && j < |events| && events[j].Check? && !events[j].allowed
    ensures exists i: nat :: Lives(states, events, events[j].key, i, j)
                        && (events[i].Restore? || Failures(events, events[j].key, i, j) >= 3)
  {
    CheckAnswers(states, events, j);
    var i := CameIn(states, events, events[j].key, j);
  }

  /** A failure reports the whole seconds of the pause that is due. */
  lemma {:induction false} CooldownReported(states: seq<Registry>, events: seq<Event>, i: nat, j: nat)
    requires Run(states, events) && j < |events| && events[j].Failure?
    requires Lives(states, events, events[j].key, i, j + 1)
    ensures events[j].cooldown == Pause(FailedProbes(events, events[j].key, i, j + 1)).Floor
  {
    assert Step(states[j], events[j], states[j + 1]);
    AlwaysTold(states, events, events[j].key, i, j + 1);
  }

  /** A key leaves the map by a success, by being trimmed, when the map is cleared, or by a cleanup
      more than an hour after its last failure, half an hour if it has had three. Nothing else. */
  lemma {:induction false} WhenForgotten(states: seq<Registry>, events: seq<Event>, key: Key, i: nat, j: nat)
    requires Run(states, events) && j < |events| && Lives(states, events, key, i, j)
    ensures key !in states[j + 1] <==>
            || (events[j].Success? && events[j].key == key)
            || (events[j].Failure? && events[j].key !in states[j] && key in events[j].victims)
            || events[j].Clear?
            || (events[j].Cleanup? &&
                events[j].at - LastFailure(events, key, i, j)
                > (if Failures(events, key, i, j) < 3 then 3600.0 else 1800.0))
  {
    assert Step(states[j], events[j], states[j + 1]);
    AlwaysTold(states, events, key, i, j);
  }

  /** And it comes in only by its first failure or by a restore with time left. */
  lemma {:induction false} HowItComesIn(states: seq<Registry>, events: seq<Event>, key: Key, i: nat)
    requires Run(states, events) && i < |events| && key !in states[i]
    ensures key in states[i + 1] <==>
            || Fails(events[i], key)
            || (events[i].Restore? && events[i].key == key && events[i].remaining > 0.0)
  {
    assert Step(states[i], events[i], states[i + 1]);
  }
}
