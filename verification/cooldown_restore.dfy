/** Cooldowns after a restart: what a restored breaker holds back, and for how long. */
module CooldownRestore {
  import opened KeyBreaker
  import opened BreakerRegistry

  lemma BackoffValues()
    ensures Backoff(BASE_TIMEOUT, 0) == 90.0 && Backoff(BASE_TIMEOUT, 4) == 1440.0
    ensures Backoff(BASE_TIMEOUT, 5) == 2880.0 && Backoff(BASE_TIMEOUT, 6) == 5760.0
    ensures Backoff(BASE_TIMEOUT, 10) == 92160.0
  {
    assert Pow2(3) == 8;
    assert Pow2(4) == 16;
    assert Pow2(5) == 32;
    assert Pow2(6) == 64;
    assert Pow2(8) == 256;
    assert Pow2(10) == 1024;
  }

  /** Which trip counts the search picks for which remaining times. */
  lemma LeastTripsRange(trips: nat, remaining: real)
    requires LeastTrips(trips, remaining)
    ensures remaining <= 1440.0 <==> trips <= 4
    ensures remaining <= 2880.0 <==> trips <= 5
    ensures 2880.0 < remaining <= 3600.0 ==> trips == 6
    ensures trips <= 4 ==> Backoff(BASE_TIMEOUT, trips) <= 1440.0
    ensures trips >= 6 ==> 5760.0 <= Backoff(BASE_TIMEOUT, trips)
    ensures trips < 10 ==> remaining <= Backoff(BASE_TIMEOUT, trips)
  {
    BackoffValues();
    BackoffAround(trips, 4);
    BackoffAround(trips, 5);
    assert trips > 4 ==> Backoff(BASE_TIMEOUT, 4) < remaining;
    assert trips > 5 ==> Backoff(BASE_TIMEOUT, 5) < remaining;
    assert trips > 6 ==> Backoff(BASE_TIMEOUT, 6) < remaining;
  }

  lemma BackoffAround(trips: nat, k: nat)
    ensures trips <= k ==> Backoff(BASE_TIMEOUT, trips) <= Backoff(BASE_TIMEOUT, k)
    ensures trips > k ==> Backoff(BASE_TIMEOUT, k + 1) <= Backoff(BASE_TIMEOUT, trips)
  {
    if trips <= k {
      BackoffMonotone(BASE_TIMEOUT, trips, k);
    } else {
      BackoffMonotone(BASE_TIMEOUT, k + 1, trips);
    }
  }

  /** When a restored key is ready again. Up to 2880 s the restored deadline is exact; above it the
      search uses the uncapped backoff but the deadline uses the capped one, so it comes early. */
  lemma RestoredReadyAt(now: real, touched: real, remaining: real, trips: nat)
    requires LeastTrips(trips, remaining) && remaining > 0.0
    ensures var ready := RestoredBreaker(now, touched, remaining, trips).ReadyAt(now);
            var full := Backoff(BASE_TIMEOUT, trips);
            && (remaining <= 2880.0 && now >= full - remaining ==> ready == now + remaining)
            && (2880.0 < remaining <= 3600.0 && now >= 5760.0 - remaining ==> ready == now + remaining - 2160.0)
  {
    BackoffValues();
    LeastTripsRange(trips, remaining);
  }

  /** From when on a restored key can be let through: its deadline has passed, or, if cleanups run,
      one of them may have forgotten the breaker. */
  function ReleasedFrom(now: real, remaining: real, trips: nat, cleanups: bool): real {
    Max(0.0, now - (Backoff(BASE_TIMEOUT, trips) - remaining)) + Horizon(cleanups, trips)
  }

  /** That moment is not before the cooldown ends in exactly these cases. */
  lemma ReleasedInTime(now: real, remaining: real, trips: nat, cleanups: bool)
    requires now >= 0.0 && remaining > 0.0 && LeastTrips(trips, remaining)
    ensures ReleasedFrom(now, remaining, trips, cleanups) >= now + remaining <==> Honoured(now, remaining, cleanups)
    ensures Honoured(now, remaining, cleanups) ==> remaining <= Backoff(BASE_TIMEOUT, trips)
  {
    BackoffValues();
    LeastTripsRange(trips, remaining);
  }

  /** What a caller can check before the restore. */
  predicate Honoured(now: real, remaining: real, cleanups: bool) {
    || remaining <= (if cleanups then 1440.0 else 2880.0)
    || now + remaining <= (if cleanups then OPEN_TIMEOUT else COOLDOWN_CAP)
  }

  // ----- over whole runs -----

  /** The run begins by restoring the key, and up to its last event, a check of the key before the
      cooldown ends, the key has no success, is not trimmed away and the map is not cleared. */
  ghost predicate ChecksEarly(
    states: seq<Registry>, events: seq<Event>, key: Key, now: real, touched: real, remaining: real, trips: nat,
    cleanups: bool)
  {
    && Run(states, events) && |events| > 1
    && key !in states[0] && events[0] == Restore(key, now, touched, remaining, trips)
    && (forall n :: 1 <= n < |events| ==> Leaves(events[n], key) && (events[n].Cleanup? ==> cleanups))
    && var last := events[|events| - 1];
       last.Check? && last.key == key && last.at < now + remaining
  }

  /** No such check is let through, in any run. */
  ghost predicate HeldBack(
    key: Key, now: real, touched: real, remaining: real, trips: nat, cleanups: bool)
  {
    forall states: seq<Registry>, events: seq<Event> ::
      ChecksEarly(states, events, key, now, touched, remaining, trips, cleanups) ==> !events[|events| - 1].allowed
  }

  /** Exactly when a restored key is held back for all of the cooldown that was left: with cleanups
      running, iff at most 1440 s were left or the clock will not have passed 1800 s by then; without
      any, iff at most 2880 s were left or the clock will not have passed 3600 s. */
  lemma RestoreHonoursCooldown(
    key: Key, now: real, touched: real, remaining: real, trips: nat, cleanups: bool)
    requires now >= 0.0 && remaining > 0.0 && LeastTrips(trips, remaining)
    ensures HeldBack(key, now, touched, remaining, trips, cleanups) <==> Honoured(now, remaining, cleanups)
  {
    if Honoured(now, remaining, cleanups) {
      forall states: seq<Registry>, events: seq<Event>
        | ChecksEarly(states, events, key, now, touched, remaining, trips, cleanups)
        ensures !events[|events| - 1].allowed
      {
        RestoredRefuses(states, events, key, now, touched, remaining, trips, cleanups);
      }
    } else {
      var states, events := EarlyRelease(key, now, touched, remaining, trips, cleanups);
    }
  }

  lemma RestoredRefuses(
    states: seq<Registry>, events: seq<Event>, key: Key, now: real, touched: real, remaining: real, trips: nat,
    cleanups: bool)
    requires now >= 0.0 && remaining > 0.0 && LeastTrips(trips, remaining) && Honoured(now, remaining, cleanups)
    requires ChecksEarly(states, events, key, now, touched, remaining, trips, cleanups)
    ensures !events[|events| - 1].allowed
  {
    var j := |events| - 1;
    var t := Max(0.0, now - (Backoff(BASE_TIMEOUT, trips) - remaining));
    ReleasedInTime(now, remaining, trips, cleanups);
    assert t <= now;
    assert Step(states[0], events[0], states[1]);
    assert Tripped(states[1], key, t, trips);
    assert CleanedBetween(events, 1, j) ==> cleanups;
    assert Horizon(cleanups, trips) <= Horizon(CleanedBetween(events, 1, j), trips);
    TrippedRefuses(states, events, 1, j, key, t, trips);
  }

  /** Otherwise there is a run of three events at most that lets the key through too soon. */
  lemma EarlyRelease(
    key: Key, now: real, touched: real, remaining: real, trips: nat, cleanups: bool)
    returns (states: seq<Registry>, events: seq<Event>)
    requires now >= 0.0 && remaining > 0.0 && LeastTrips(trips, remaining) && !Honoured(now, remaining, cleanups)
    ensures ChecksEarly(states, events, key, now, touched, remaining, trips, cleanups)
    ensures events[|events| - 1].allowed
  {
    ReleasedInTime(now, remaining, trips, cleanups);
    var b := RestoredBreaker(now, touched, remaining, trips);
    var r: Registry := map[key := b];
    var middle := (ReleasedFrom(now, remaining, trips, cleanups) + now + remaining) / 2.0;
    var at := Max(now, middle);
    if cleanups {
      states := [map[], r, map[], map[]];
      events := [Restore(key, now, touched, remaining, trips), Cleanup(at), Check(key, at, true)];
    } else {
      states := [map[], r, Checked(r, key, at)];
      events := [Restore(key, now, touched, remaining, trips), Check(key, at, true)];
    }
  }

  /** 2500 s left at clock 10000: the deadline is right, but the cleanup at 11430 forgets the breaker
      and the next check passes 1069 s too soon. */
  lemma CleanupReleasesEarly(key: Key, touched: real) returns (states: seq<Registry>, events: seq<Event>)
    ensures RestoredBreaker(10000.0, touched, 2500.0, 5).ReadyAt(10000.0) == 12500.0
    ensures ChecksEarly(states, events, key, 10000.0, touched, 2500.0, 5, true)
    ensures events == [Restore(key, 10000.0, touched, 2500.0, 5), Cleanup(11430.0), Check(key, 11431.0, true)]
  {
    BackoffValues();
    BackoffAround(4, 4);
    forall t: nat | t < 5 ensures Backoff(BASE_TIMEOUT, t) < 2500.0 {
      BackoffMonotone(BASE_TIMEOUT, t, 4);
    }
    states := [map[], map[key := RestoredBreaker(10000.0, touched, 2500.0, 5)], map[], map[]];
    events := [Restore(key, 10000.0, touched, 2500.0, 5), Cleanup(11430.0), Check(key, 11431.0, true)];
  }

  /** A key that re-tripped six times has an hour to wait; ten minutes into it a restart makes it
      ready 36 minutes too soon, with no cleanup at all. */
  lemma RestoreReleasesEarly(key: Key, touched: real) returns (states: seq<Registry>, events: seq<Event>)
    ensures RestoredBreaker(10000.0, touched, 3000.0, 6).ReadyAt(10000.0) == 10000.0 + 3000.0 - 2160.0
    ensures ChecksEarly(states, events, key, 10000.0, touched, 3000.0, 6, false)
    ensures events == [Restore(key, 10000.0, touched, 3000.0, 6), Check(key, 10840.0, true)]
  {
    BackoffValues();
    forall t: nat | t < 6 ensures Backoff(BASE_TIMEOUT, t) < 3000.0 {
      BackoffMonotone(BASE_TIMEOUT, t, 5);
    }
    var r: Registry := map[key := RestoredBreaker(10000.0, touched, 3000.0, 6)];
    states := [map[], r, Checked(r, key, 10840.0)];
    events := [Restore(key, 10000.0, touched, 3000.0, 6), Check(key, 10840.0, true)];
  }
}
