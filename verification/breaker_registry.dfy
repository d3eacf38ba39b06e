/** The global map of key circuit breakers: checks, successes, failures, trimming, periodic cleanup
    and restoring cooldowns after a restart. */
module BreakerRegistry {
  import opened FiniteSets
  import opened KeyBreaker
  import opened Sorting

  const MAX_SIZE: nat := 1000
  const STALE_THRESHOLD: real := 3600.0
  const OPEN_TIMEOUT: real := 1800.0
  const MAX_RESTORED_TRIPS: nat := 10

  /** Provider name and key slot (or the key itself). */
  type Key = (string, string)

  /** The contents of the map: the value of every breaker. */
  type Registry = map<Key, Breaker>

  // ----- what one operation does -----

  predicate Admits(r: Registry, key: Key, now: real) {
    key in r ==> !r[key].Blocks(now)
  }

  function Checked(r: Registry, key: Key, now: real): Registry {
    if key in r then r[key := r[key].Checked(now)] else r
  }

  /** CLOSED before non-CLOSED, and within each group the larger `_last_touched` first. */
  predicate TrimBefore(a: Breaker, b: Breaker) {
    var aOpen, bOpen := a.state != Closed, b.state != Closed;
    if aOpen == bOpen then a.lastTouched >= b.lastTouched else !aOpen
  }

  function Excess(r: Registry): nat {
    if |r| > MAX_SIZE then |r| - MAX_SIZE else 0
  }

  /** Deleting `victims` is a possible trim: as many as exceed the limit, none of which the sort
      places strictly after a survivor. Only ties leave a choice. */
  ghost predicate MayTrim(r: Registry, victims: set<Key>) {
    && victims <= r.Keys
    && |victims| == Excess(r)
    && forall v, k :: v in victims && k in r && k !in victims ==> TrimBefore(r[v], r[k])
  }

  function Failed(r: Registry, key: Key, now: real, victims: set<Key>): Registry {
    if key in r then r[key := r[key].Failed(now)]
    else (r - victims)[key := Fresh(now).Failed(now)]
  }

  predicate Stale(b: Breaker, now: real, staleThreshold: real, openTimeout: real) {
    if b.state == Closed then now - b.lastTouched > staleThreshold
    else now - b.lastFailureTime > openTimeout
  }

  function Cleaned(r: Registry, now: real, staleThreshold: real, openTimeout: real): Registry {
    map k | k in r && !Stale(r[k], now, staleThreshold, openTimeout) :: r[k]
  }

  /** The smallest trip count (at most ten) whose uncapped backoff covers the remaining time. */
  ghost predicate LeastTrips(trips: nat, remaining: real) {
    && trips <= MAX_RESTORED_TRIPS
    && (forall t: nat :: t < trips ==> Backoff(BASE_TIMEOUT, t) < remaining)
    && (trips < MAX_RESTORED_TRIPS ==> remaining <= Backoff(BASE_TIMEOUT, trips))
  }

  /** `now` is read before the lock is taken, `touched` when the breaker is made. */
  function RestoredBreaker(now: real, touched: real, remaining: real, trips: nat): Breaker {
    Breaker(FAILURE_THRESHOLD, trips, Open,
            Max(0.0, now - (Backoff(BASE_TIMEOUT, trips) - remaining)), touched,
            FAILURE_THRESHOLD, BASE_TIMEOUT)
  }

  /** Only an OPEN breaker refuses, and only until its backoff or an hour has passed since its last
      failure; checks change nothing but an OPEN breaker that has waited long enough. */
  lemma CheckMeans(r: Registry, key: Key, now: real)
    ensures !Admits(r, key, now) <==>
            && key in r
            && var b := r[key];
               && b.state == Open && now < b.lastFailureTime + 3600.0
               && now < b.lastFailureTime + b.baseTimeout * Pow2(b.trippedCount) as real
    ensures Checked(r, key, now) ==
            if key in r && r[key].state == Open && Admits(r, key, now) then r[key := r[key].(state := HalfOpen)] else r
  {
    assert key in r ==> r == r[key := r[key]];
  }

  // ----- runs -----

  datatype Event =
    | Check(key: Key, at: real, allowed: bool)
    | Success(key: Key, at: real)
    | Failure(key: Key, at: real, victims: set<Key>, cooldown: int)
    | Cleanup(at: real)
    | Clear(at: real)  // a self-repair action empties the map
    | Restore(key: Key, at: real, touched: real, remaining: real, trips: nat)

  ghost predicate FailureStep(
    r: Registry, key: Key, at: real, victims: set<Key>, cooldown: int, r': Registry)
  {
    && (if key in r then victims == {} else MayTrim(r, victims))
    && r' == Failed(r, key, at, victims)
    && cooldown == r'[key].Cooldown().Floor
  }

  ghost predicate Step(r: Registry, e: Event, r': Registry) {
    match e
    case Check(key, at, allowed) => allowed == Admits(r, key, at) && r' == Checked(r, key, at)
    case Success(key, at) => r' == r - {key}
    case Failure(key, at, victims, cooldown) => FailureStep(r, key, at, victims, cooldown, r')
    case Cleanup(at) => r' == Cleaned(r, at, STALE_THRESHOLD, OPEN_TIMEOUT)
    case Clear(_) => r' == map[]
    case Restore(key, at, touched, remaining, trips) =>
      if key in r || remaining <= 0.0 then r' == r
      else LeastTrips(trips, remaining) && r' == r[key := RestoredBreaker(at, touched, remaining, trips)]
  }

  /** The event reads the clock while it holds the lock; cleanup and restore read it earlier. */
  predicate Timely(e: Event) { e.Check? || e.Success? || e.Failure? }

  /** A run over any number of keys, with a clock that does not go back. A cleanup or restore may
      come with a time that is out of date, but never with one from the future. */
  ghost predicate Run(states: seq<Registry>, events: seq<Event>) {
    && |states| == |events| + 1
    && (forall i {:trigger events[i]} :: 0 <= i < |events| ==> Step(states[i], events[i], states[i + 1]))
    && (forall i, j :: 0 <= i < j < |events| && Timely(events[j]) ==> events[i].at <= events[j].at)
  }

  lemma RunNext(states: seq<Registry>, events: seq<Event>, e: Event, r: Registry)
    requires Run(states, events) && Step(states[|events|], e, r)
    requires Timely(e) ==> forall i :: 0 <= i < |events| ==> events[i].at <= e.at
    ensures Run(states + [r], events + [e])
  {
  }

  /** Every breaker was made with the default threshold and base timeout. */
  ghost predicate Defaults(r: Registry) {
    forall k :: k in r ==> r[k].threshold == FAILURE_THRESHOLD && r[k].baseTimeout == BASE_TIMEOUT
  }

  lemma {:induction false} DefaultsKept(states: seq<Registry>, events: seq<Event>, i: nat)
    requires Run(states, events) && Defaults(states[0]) && i < |states|
    ensures Defaults(states[i])
  {
    if i == 0 {
    } else {
      DefaultsKept(states, events, i - 1);
      assert Step(states[i - 1], events[i - 1], states[i]);
    }
  }

  // ----- a tripped key stays blocked -----

  /** The event at index n leaves the breaker of this key, tripped at time t with k re-trips, in
      the map and unreset. */
  predicate Leaves(e: Event, key: Key) {
    && !(e.Success? && e.key == key)
    && !(e.Failure? && key in e.victims)
    && !e.Clear?
  }

  ghost predicate Tripped(r: Registry, key: Key, t: real, k: nat) {
    && key in r && r[key].state == Open
    && r[key].lastFailureTime >= t && r[key].trippedCount >= k && r[key].baseTimeout == BASE_TIMEOUT
  }

  lemma TrippedKept(r: Registry, e: Event, r': Registry, key: Key, t: real, k: nat)
    requires Step(r, e, r') && Tripped(r, key, t, k) && Leaves(e, key)
    requires Timely(e) ==> t <= e.at
    requires e.at < t + Min(Backoff(BASE_TIMEOUT, k), COOLDOWN_CAP)
    requires e.Cleanup? ==> e.at <= t + OPEN_TIMEOUT
    ensures Tripped(r', key, t, k)
    ensures e.Check? && e.key == key ==> !e.allowed
  {
    BackoffMonotone(BASE_TIMEOUT, k, r[key].trippedCount);
  }

  /** How long the trip holds: cleanup forgets a breaker 30 minutes after its last failure. */
  function Horizon(cleaned: bool, k: nat): real {
    Min(Backoff(BASE_TIMEOUT, k), if cleaned then OPEN_TIMEOUT else COOLDOWN_CAP)
  }

  predicate CleanedBetween(events: seq<Event>, i: nat, j: nat)
    requires i <= j <= |events|
  {
    exists n :: i <= n < j && events[n].Cleanup?
  }

  lemma CleanedNext(events: seq<Event>, i: nat, j: nat)
    requires i < j <= |events|
    ensures CleanedBetween(events, i, j) <==> CleanedBetween(events, i, j - 1) || events[j - 1].Cleanup?
  {
    if CleanedBetween(events, i, j - 1) {
      var n :| i <= n < j - 1 && events[n].Cleanup?;
    }
  }

  lemma {:induction false} TrippedUntil(
    states: seq<Registry>, events: seq<Event>, i: nat, j: nat, key: Key, t: real, k: nat, now: real)
    requires Run(states, events) && i <= j <= |events|
    requires Tripped(states[i], key, t, k)
    requires forall n :: i <= n < j ==>
      Leaves(events[n], key) && events[n].at <= now && (Timely(events[n]) ==> t <= events[n].at)
    requires now < t + Horizon(CleanedBetween(events, i, j), k)
    ensures Tripped(states[j], key, t, k)
  {
    if i == j {
    } else {
      CleanedNext(events, i, j);
      TrippedUntil(states, events, i, j - 1, key, t, k, now);
      TrippedKept(states[j - 1], events[j - 1], states[j], key, t, k);
    }
  }

  /** A check that comes before the horizon is refused. */
  lemma {:induction false} TrippedRefuses(
    states: seq<Registry>, events: seq<Event>, i: nat, j: nat, key: Key, t: real, k: nat)
    requires Run(states, events) && i <= j < |events|
    requires Tripped(states[i], key, t, k)
    requires forall n :: i <= n < j ==> Leaves(events[n], key)
    requires forall n :: i <= n <= j && Timely(events[n]) ==> t <= events[n].at
    requires events[j].Check? && events[j].key == key
    requires events[j].at < t + Horizon(CleanedBetween(events, i, j), k)
    ensures !events[j].allowed
  {
    TrippedUntil(states, events, i, j, key, t, k, events[j].at);
    TrippedKept(states[j], events[j], states[j + 1], key, t, k);
  }

  /** Safety over whole runs: once a failure at time t leaves a key OPEN with k re-trips, no check
      lets the key through before t + min(90 * 2^k, one hour), or before
      t + min(90 * 2^k, 30 minutes) if a cleanup ran in between, unless the key had a success or
      was trimmed away, or the map was cleared. */
  lemma {:induction false} Blackout(states: seq<Registry>, events: seq<Event>, i: nat, j: nat)
    requires Run(states, events) && Defaults(states[0]) && i < j < |events|
    requires events[i].Failure? && states[i + 1][events[i].key].state == Open
    requires events[j].Check? && events[j].key == events[i].key
    requires forall n :: i < n < j ==> Leaves(events[n], events[i].key)
    ensures var b := states[i + 1][events[i].key];
            events[j].at < events[i].at + Horizon(CleanedBetween(events, i + 1, j), b.trippedCount)
            ==> !events[j].allowed
  {
    var key, t := events[i].key, events[i].at;
    var k := states[i + 1][key].trippedCount;
    if events[j].at < t + Horizon(CleanedBetween(events, i + 1, j), k) {
      assert Step(states[i], events[i], states[i + 1]);
      DefaultsKept(states, events, i + 1);
      TrippedRefuses(states, events, i + 1, j, key, t, k);
    }
  }

  /** The bound is exact: if until then nothing but refused checks touched the key and no cleanup
      ran, the next check is let through iff the capped backoff has passed. */
  lemma {:induction false} BlackoutIsTight(states: seq<Registry>, events: seq<Event>, i: nat, j: nat)
    requires Run(states, events) && Defaults(states[0]) && i < j < |events|
    requires events[i].Failure? && states[i + 1][events[i].key].state == Open
    requires events[j].Check? && events[j].key == events[i].key
    requires forall n :: i < n < j ==>
      && Leaves(events[n], events[i].key) && !events[n].Cleanup?
      && !(events[n].Failure? && events[n].key == events[i].key)
      && !(events[n].Check? && events[n].key == events[i].key && events[n].allowed)
    ensures var b := states[i + 1][events[i].key];
            events[j].allowed <==>
            events[j].at >= events[i].at + Min(Backoff(BASE_TIMEOUT, b.trippedCount), COOLDOWN_CAP)
  {
    var key := events[i].key;
    assert Step(states[i], events[i], states[i + 1]);
    DefaultsKept(states, events, i + 1);
    KeyUntouched(states, events, i + 1, j, key);
    assert Step(states[j], events[j], states[j + 1]);
    assert events[i].at == states[j][key].lastFailureTime;
  }

  lemma {:induction false} KeyUntouched(states: seq<Registry>, events: seq<Event>, i: nat, j: nat, key: Key)
    requires Run(states, events) && i <= j < |states| && key in states[i]
    requires states[i][key].state == Open
    requires forall n :: i <= n < j ==>
      && Leaves(events[n], key) && !events[n].Cleanup?
      && !(events[n].Failure? && events[n].key == key)
      && !(events[n].Check? && events[n].key == key && events[n].allowed)
    ensures key in states[j] && states[j][key] == states[i][key]
  {
    if i == j {
    } else {
      KeyUntouched(states, events, i, j - 1, key);
      UntouchedStep(states[j - 1], events[j - 1], states[j], key);
    }
  }

  lemma UntouchedStep(r: Registry, e: Event, r': Registry, key: Key)
    requires Step(r, e, r') && key in r && r[key].state == Open && Leaves(e, key) && !e.Cleanup?
    requires !(e.Failure? && e.key == key) && !(e.Check? && e.key == key && e.allowed)
    ensures key in r' && r'[key] == r[key]
  {
  }

  // ----- trimming -----

  /** A breaker that is not CLOSED is trimmed only together with every CLOSED one. */
  lemma TrimSparesOpen(r: Registry, victims: set<Key>, v: Key, k: Key)
    requires MayTrim(r, victims)
    requires v in victims && r[v].state != Closed
    requires k in r && r[k].state == Closed
    ensures k in victims
  {
  }

  /** Among CLOSED breakers trimming deletes the most recently touched, not the oldest. */
  lemma TrimDropsNewest(r: Registry, victims: set<Key>, v: Key, k: Key)
    requires MayTrim(r, victims)
    requires v in victims && k in r && k !in victims
    requires r[v].state == Closed && r[k].state == Closed
    ensures r[v].lastTouched >= r[k].lastTouched
  {
    assert TrimBefore(r[v], r[k]);
  }

  /** And so it does among the others, when it comes to them. */
  lemma TrimDropsNewestOpen(r: Registry, victims: set<Key>, v: Key, k: Key)
    requires MayTrim(r, victims)
    requires v in victims && k in r && k !in victims && r[v].state != Closed
    ensures r[k].state != Closed && r[v].lastTouched >= r[k].lastTouched
  {
    assert TrimBefore(r[v], r[k]);
  }

  lemma {:induction false} SizeAfterTrim(r: Registry, victims: set<Key>)
    requires MayTrim(r, victims)
    ensures |r - victims| == |r| - Excess(r) <= MAX_SIZE
  {
    assert (r - victims).Keys == r.Keys - victims;
    assert |r.Keys - victims| == |r.Keys| - |victims|;
  }

  /** Trimming runs before the insertion, so the map holds one entry more than the limit right
      after a new key failed, whatever its size was before. */
  lemma {:induction false} SizeAfterNewFailure(r: Registry, e: Event, r': Registry)
    requires e.Failure? && e.key !in r && Step(r, e, r')
    ensures |r'| == (if |r| <= MAX_SIZE then |r| else MAX_SIZE) + 1
  {
    SizeAfterTrim(r, e.victims);
    assert r'.Keys == (r - e.victims).Keys + {e.key};
  }

  predicate Inserts(r: Registry, e: Event) { e.Restore? && e.key !in r && e.remaining > 0.0 }

  /** How many of the first i events restored a key. */
  ghost function RestoresUpTo(states: seq<Registry>, events: seq<Event>, i: nat): nat
    requires i <= |events| && i < |states|
  {
    if i == 0 then 0
    else
      RestoresUpTo(states, events, i - 1) + (if Inserts(states[i - 1], events[i - 1]) then 1 else 0)
  }

  /** The map exceeds the limit by at most one, plus one for each restored key: restoring inserts
      without trimming. */
  lemma {:induction false} SizeBounded(states: seq<Registry>, events: seq<Event>, i: nat)
    requires Run(states, events) && |states[0]| <= MAX_SIZE + 1 && i < |states|
    ensures |states[i]| <= MAX_SIZE + 1 + RestoresUpTo(states, events, i)
  {
    if i == 0 {
    } else {
      SizeBounded(states, events, i - 1);
      SizeStep(states[i - 1], events[i - 1], states[i]);
    }
  }

  lemma SizeStep(r: Registry, e: Event, r': Registry)
    requires Step(r, e, r')
    ensures |r'| <= if Inserts(r, e) then |r| + 1
                    else if |r| <= MAX_SIZE then MAX_SIZE + 1
                    else |r|
  {
    if e.Failure? && e.key !in r {
      SizeAfterNewFailure(r, e, r');
    } else if Inserts(r, e) {
      assert r'.Keys == r.Keys + {e.key};
    } else {
      assert r'.Keys <= r.Keys;
      SubsetSize(r'.Keys, r.Keys);
    }
  }

  /** As long as at most MAX_SIZE + 1 different keys are involved, nothing is ever trimmed. */
  lemma {:induction false} FewKeysAreNeverTrimmed(
    states: seq<Registry>, events: seq<Event>, keys: set<Key>, i: nat)
    requires Run(states, events) && i < |events|
    requires states[0].Keys <= keys && |keys| <= MAX_SIZE + 1
    requires forall e :: e in events && (e.Failure? || e.Restore?) ==> e.key in keys
    ensures states[i].Keys <= keys
    ensures events[i].Failure? ==> events[i].victims == {}
  {
    if i == 0 {
    } else {
      FewKeysAreNeverTrimmed(states, events, keys, i - 1);
      assert events[i - 1] in events;
      KeysStay(states[i - 1], events[i - 1], states[i], keys);
    }
    assert events[i] in events;
    NothingToTrim(states[i], events[i], states[i + 1], keys);
  }

  lemma KeysStay(r: Registry, e: Event, r': Registry, keys: set<Key>)
    requires Step(r, e, r') && r.Keys <= keys && (e.Failure? || e.Restore? ==> e.key in keys)
    ensures r'.Keys <= keys
  {
  }

  lemma NothingToTrim(r: Registry, e: Event, r': Registry, keys: set<Key>)
    requires Step(r, e, r') && r.Keys <= keys && |keys| <= MAX_SIZE + 1 && (e.Failure? ==> e.key in keys)
    ensures e.Failure? ==> e.victims == {}
  {
    if e.Failure? && e.key !in r {
      SubsetSize(r.Keys, keys - {e.key});
    }
  }

  // ----- deleting on success cannot be observed -----

  /** The same registry with nothing ever deleted: success resets the breaker and keeps it. */
  function KeepAll(r: Registry, e: Event): Registry {
    match e
    case Check(key, at, _) => Checked(r, key, at)
    case Success(key, at) => if key in r then r[key := r[key].Succeeded(at)] else r
    case Failure(key, at, _, _) => Failed(r, key, at, {})
    case Cleanup(_) => r
    case Clear(_) => r
    case Restore(key, at, touched, remaining, trips) =>
      if key in r || remaining <= 0.0 then r else r[key := RestoredBreaker(at, touched, remaining, trips)]
  }

  function KeepAllState(events: seq<Event>): Registry {
    if events == [] then map[] else KeepAll(KeepAllState(events[..|events| - 1]), events[|events| - 1])
  }

  ghost predicate Bisimilar(sparse: Registry, full: Registry) {
    && sparse.Keys <= full.Keys
    && (forall k :: k in sparse ==> sparse[k] == full[k])
    && (forall k :: k in full && k !in sparse ==>
          full[k].state == Closed && full[k].failureCount == 0 && full[k].trippedCount == 0)
    && Defaults(full)
  }

  /** A restore asks whether the key is in the map, so it can tell a dropped key from a kept one. */
  predicate RestoresDropped(r: Registry, e: Event, full: Registry) {
    e.Restore? && e.remaining > 0.0 && e.key !in r && e.key in full
  }

  /** Trimming and cleanup find nothing to remove, and no key is restored that was dropped. */
  ghost predicate RemovesNothing(r: Registry, e: Event, r': Registry, full: Registry) {
    && !RestoresDropped(r, e, full)
    && (e.Failure? ==> e.victims == {})
    && (e.Cleanup? || e.Clear? ==> r' == r)
  }

  lemma BisimilarStep(sparse: Registry, e: Event, sparse': Registry, full: Registry)
    requires Bisimilar(sparse, full) && Step(sparse, e, sparse') && RemovesNothing(sparse, e, sparse', full)
    ensures Bisimilar(sparse', KeepAll(full, e))
    ensures e.Check? ==> e.allowed == Admits(full, e.key, e.at)
    ensures e.Failure? ==> e.cooldown == KeepAll(full, e)[e.key].Cooldown().Floor
  {
    if e.Failure? {
      FailureBisimilar(sparse, e, sparse', full);
    }
  }

  lemma FailureBisimilar(sparse: Registry, e: Event, sparse': Registry, full: Registry)
    requires Bisimilar(sparse, full) && Step(sparse, e, sparse') && e.Failure? && e.victims == {}
    ensures Bisimilar(sparse', KeepAll(full, e))
    ensures sparse'[e.key] == KeepAll(full, e)[e.key] && e.cooldown == sparse'[e.key].Cooldown().Floor
  {
    assert sparse - {} == sparse && full - {} == full;
  }

  /** Restoring a dropped key is exactly what breaks the correspondence. */
  lemma {:induction false} RestoreKeepsBisimilar(sparse: Registry, e: Event, sparse': Registry, full: Registry)
    requires Bisimilar(sparse, full) && Step(sparse, e, sparse') && e.Restore?
    ensures Bisimilar(sparse', KeepAll(full, e)) <==> !RestoresDropped(sparse, e, full)
  {
    if RestoresDropped(sparse, e, full) {
      assert sparse'[e.key].state == Open && KeepAll(full, e)[e.key].state == Closed;
    }
  }

  /** And a caller can tell: if the shortest backoff was restored, a check made at once is refused by
      the one map and passed by the other; otherwise a failure reported at any time has another
      cooldown in the one than in the other. */
  lemma {:induction false} RestoreTellsApart(sparse: Registry, e: Event, sparse': Registry, full: Registry, now: real)
    requires Bisimilar(sparse, full) && Step(sparse, e, sparse') && RestoresDropped(sparse, e, full)
    ensures var full' := KeepAll(full, e);
            if e.trips == 0 then !Admits(sparse', e.key, e.at) && Admits(full', e.key, e.at)
            else sparse'[e.key].Failed(now).Cooldown().Floor > full'[e.key].Failed(now).Cooldown().Floor
  {
    assert Pow2(0) == 1 && Pow2(1) == 2;
    if e.trips > 0 {
      BackoffMonotone(BASE_TIMEOUT, 1, e.trips);
    }
  }

  ghost predicate NothingRemoved(states: seq<Registry>, events: seq<Event>)
    requires |states| == |events| + 1
  {
    forall n {:trigger events[n]} :: 0 <= n < |events| ==>
      RemovesNothing(states[n], events[n], states[n + 1], KeepAllState(events[..n]))
  }

  lemma KeepAllNext(events: seq<Event>, i: nat)
    requires i < |events|
    ensures KeepAllState(events[..i + 1]) == KeepAll(KeepAllState(events[..i]), events[i])
  {
    assert events[..i + 1][..i] == events[..i];
  }

  /** Along such a run the two maps correspond all the time. */
  lemma {:induction false} AlwaysBisimilar(states: seq<Registry>, events: seq<Event>, i: nat)
    requires Run(states, events) && states[0] == map[] && i <= |events| && NothingRemoved(states, events)
    ensures Bisimilar(states[i], KeepAllState(events[..i]))
  {
    if i == 0 {
    } else {
      AlwaysBisimilar(states, events, i - 1);
      BisimilarStep(states[i - 1], events[i - 1], states[i], KeepAllState(events[..i - 1]));
      KeepAllNext(events, i - 1);
    }
  }

  /** The map that drops a breaker on success cannot be told apart from one that keeps them all:
      every check and every reported cooldown agree, along every such run. */
  lemma {:induction false} DroppingIsUnobservable(states: seq<Registry>, events: seq<Event>, i: nat)
    requires Run(states, events) && states[0] == map[] && i < |events| && NothingRemoved(states, events)
    ensures events[i].Check? ==>
              events[i].allowed == Admits(KeepAllState(events[..i]), events[i].key, events[i].at)
    ensures events[i].Failure? ==>
              events[i].key in KeepAllState(events[..i + 1]) &&
              events[i].cooldown == KeepAllState(events[..i + 1])[events[i].key].Cooldown().Floor
  {
    AlwaysBisimilar(states, events, i);
    BisimilarStep(states[i], events[i], states[i + 1], KeepAllState(events[..i]));
    KeepAllNext(events, i);
  }

  // ----- the map itself -----

  /** The entries of a registry, each once, in some order. */
  ghost predicate Lists(r: Registry, items: seq<(Key, Breaker)>) {
    && |items| == |r|
    && (forall i, j :: 0 <= i < j < |items| ==> items[i].0 != items[j].0)
    && (forall i :: 0 <= i < |items| ==> items[i].0 in r && r[items[i].0] == items[i].1)
    && (forall k :: k in r ==> exists i :: 0 <= i < |items| && items[i].0 == k)
  }

  /** The entries are of the registry, and no key is listed twice. */
  ghost predicate ListsApart(r: Registry, items: seq<(Key, Breaker)>) {
    && (forall i, j :: 0 <= i < j < |items| ==> items[i].0 != items[j].0)
    && forall x :: x in items ==> x.0 in r && r[x.0] == x.1
  }

  /** As many entries as there are keys: none is left out. */
  lemma AllListed(r: Registry, items: seq<(Key, Breaker)>)
    requires ListsApart(r, items) && |items| == |r.Keys|
    ensures Lists(r, items)
  {
    var keys := seq(|items|, i requires 0 <= i < |items| => items[i].0);
    var listed := set k | k in keys;
    DistinctSize(keys);
    assert forall i :: 0 <= i < |items| ==> items[i] in items;
    assert listed <= r.Keys;
    SameSize(listed, r.Keys);
    forall k | k in r ensures exists i :: 0 <= i < |items| && items[i].0 == k {
      assert k in listed;
      var i :| 0 <= i < |keys| && keys[i] == k;
    }
  }

  lemma ReorderedLists(r: Registry, items: seq<(Key, Breaker)>, ordered: seq<(Key, Breaker)>)
    requires Lists(r, items) && multiset(items) == multiset(ordered) && |items| == |ordered|
    ensures Lists(r, ordered)
  {
    PermutationKeepsDistinct(items, ordered);
    forall i | 0 <= i < |ordered| ensures ordered[i].0 in r && r[ordered[i].0] == ordered[i].1 {
      assert ordered[i] in multiset(ordered);
      assert ordered[i] in items;
    }
    forall k | k in r ensures exists i :: 0 <= i < |ordered| && ordered[i].0 == k {
      var i :| 0 <= i < |items| && items[i].0 == k;
      assert items[i] in multiset(items);
      assert items[i] in ordered;
    }
  }

  predicate EntryBefore(a: (Key, Breaker), b: (Key, Breaker)) {
    TrimBefore(a.1, b.1)
  }

  /** Deleting the first entries of the sorted list is a trim. */
  lemma FirstAreVictims(r: Registry, ordered: seq<(Key, Breaker)>, keys: seq<Key>)
    requires Lists(r, ordered) && SortedBy(EntryBefore, ordered)
    requires |keys| == Excess(r) <= |ordered|
    requires forall n :: 0 <= n < |keys| ==> keys[n] == ordered[n].0
    ensures MayTrim(r, set k | k in keys)
  {
    DistinctSize(keys);
    forall v, k | v in keys && k in r && k !in keys ensures TrimBefore(r[v], r[k]) {
      var i :| 0 <= i < |keys| && keys[i] == v;
      var j :| 0 <= j < |ordered| && ordered[j].0 == k;
      assert j >= |keys|;
      assert EntryBefore(ordered[i], ordered[j]);
    }
  }

  lemma SortedLists(r: Registry, items: seq<(Key, Breaker)>)
    requires Lists(r, items)
    ensures Lists(r, Sort(EntryBefore, items)) && SortedBy(EntryBefore, Sort(EntryBefore, items))
  {
    SortIsSortedPermutation(EntryBefore, items);
    ReorderedLists(r, items, Sort(EntryBefore, items));
  }

  lemma {:induction false} DistinctSize(keys: seq<Key>)
    requires Distinct(keys)
    ensures |set k | k in keys| == |keys|
  {
    if keys == [] {
    } else {
      var n := |keys| - 1;
      DistinctSize(keys[..n]);
      assert (set k | k in keys) == (set k | k in keys[..n]) + {keys[n]};
    }
  }

  lemma CleanupRemoves(r: Registry, keys: seq<Key>, now: real, staleThreshold: real, openTimeout: real)
    requires Distinct(keys)
    requires forall k :: k in keys <==> k in r && Stale(r[k], now, staleThreshold, openTimeout)
    ensures r - (set k | k in keys) == Cleaned(r, now, staleThreshold, openTimeout)
    ensures |Cleaned(r, now, staleThreshold, openTimeout)| == |r| - |keys|
  {
    DistinctSize(keys);
    var gone := set k | k in keys;
    assert (r - gone).Keys == r.Keys - gone;
    assert |r.Keys - gone| == |r.Keys| - |gone|;
  }

  lemma NewFailureStep(
    r: Registry, key: Key, now: real, victims: set<Key>, inserted: Registry, r': Registry)
    requires key !in r && MayTrim(r, victims)
    requires inserted == (r - victims)[key := Fresh(now)]
    requires r' == inserted[key := inserted[key].Failed(now)]
    ensures FailureStep(r, key, now, victims, r'[key].Cooldown().Floor, r')
  {
  }

  method TripsCovering(remaining: real) returns (trips: nat)
    ensures LeastTrips(trips, remaining)
  {
    trips := 0;
    while Backoff(BASE_TIMEOUT, trips) < remaining && trips < MAX_RESTORED_TRIPS
      invariant trips <= MAX_RESTORED_TRIPS
      invariant forall t: nat :: t < trips ==> Backoff(BASE_TIMEOUT, t) < remaining
      decreases MAX_RESTORED_TRIPS - trips
    {
      trips := trips + 1;
    }
  }

  method NewRestored(now: real, touched: real, remaining: real) returns (cb: KeyCircuitBreaker, trips: nat)
    ensures fresh(cb) && LeastTrips(trips, remaining) && cb.View() == RestoredBreaker(now, touched, remaining, trips)
  {
    cb := new KeyCircuitBreaker(FAILURE_THRESHOLD, BASE_TIMEOUT, touched);
    trips := TripsCovering(remaining);
    cb.state := Open;
    cb.failureCount := cb.failureThreshold;
    cb.trippedCount := trips;
    cb.lastFailureTime := Max(0.0, now - (Backoff(BASE_TIMEOUT, trips) - remaining));
  }

  class Breakers {
    var breakers: map<Key, KeyCircuitBreaker>
    var locksReady: bool  // false until the locks are created at startup
    ghost var contents: Registry  // the values of the breakers

    /** Different keys have different breaker objects. */
    static ghost predicate Injective(m: map<Key, KeyCircuitBreaker>) {
      forall j, k {:trigger m[j], m[k]} :: j in m && k in m && m[j] == m[k] ==> j == k
    }

    ghost predicate Valid()
      reads this, breakers.Values
    {
      && Injective(breakers)
      && breakers.Keys == contents.Keys
      && forall k :: k in breakers ==> breakers[k].View() == contents[k]
    }

    constructor ()
      ensures Valid() && contents == map[] && !locksReady && breakers == map[]
    {
      breakers, contents, locksReady := map[], map[], false;
    }

    method InitLocks()
      requires Valid()
      modifies this`locksReady
      ensures Valid() && locksReady
    {
      locksReady := true;
    }

    method CheckKey(key: Key, now: real) returns (allowed: bool)
      requires Valid()
      modifies this`contents, breakers.Values
      ensures Valid() && breakers == old(breakers)
      ensures !locksReady ==> allowed && contents == old(contents)
      ensures locksReady ==> allowed == Admits(old(contents), key, now) && contents == Checked(old(contents), key, now)
    {
      if !locksReady || key !in breakers {
        return true;
      }
      var cb := breakers[key];
      if cb.IsReady() {
        allowed := true;
      } else {
        allowed := cb.TryHalfOpen(now);
      }
      contents := contents[key := cb.View()];
    }

    method RecordKeySuccess(key: Key, now: real)
      requires Valid()
      modifies this`breakers, this`contents, breakers.Values
      ensures Valid() && breakers.Values <= old(breakers.Values)
      ensures contents == if locksReady then old(contents) - {key} else old(contents)
    {
      if locksReady && key in breakers {
        var cb := breakers[key];
        cb.RecordSuccess(now);
        contents := contents[key := cb.View()];
        if cb.state == Closed {
          breakers, contents := breakers - {key}, contents - {key};
        }
      }
    }

    /** The entries of the map in some order. */
    method Items() returns (items: seq<(Key, Breaker)>)
      requires Valid()
      ensures Lists(contents, items)
    {
      items := [];
      var rest := breakers.Keys;
      while rest != {}
        invariant rest <= contents.Keys && |items| + |rest| == |contents.Keys|
        invariant ListsApart(contents, items) && forall x :: x in items ==> x.0 !in rest
        decreases rest
      {
        var k :| k in rest;
        items := items + [(k, breakers[k].View())];
        rest := rest - {k};
      }
      AllListed(contents, items);
    }

    method DeleteKeys(keys: seq<Key>)
      requires Valid()
      modifies this`breakers, this`contents
      ensures Valid() && breakers.Values <= old(breakers.Values)
      ensures contents == old(contents) - (set k | k in keys)
    {
      for n := 0 to |keys|
        invariant Valid() && breakers.Values <= old(breakers.Values)
        invariant contents == old(contents) - (set k | k in keys[..n])
      {
        DeleteKey(keys[n]);
      }
      assert keys[..|keys|] == keys;
    }

    method DeleteKey(key: Key)
      requires Valid()
      modifies this`breakers, this`contents
      ensures Valid() && breakers.Values <= old(breakers.Values)
      ensures contents == old(contents) - {key}
    {
      breakers, contents := breakers - {key}, contents - {key};
    }

    method TrimIfNeeded() returns (ghost victims: set<Key>)
      requires Valid()
      modifies this`breakers, this`contents
      ensures Valid() && breakers.Values <= old(breakers.Values)
      ensures MayTrim(old(contents), victims) && contents == old(contents) - victims
    {
      victims := {};
      assert |breakers.Keys| == |contents.Keys|;
      if |breakers| <= MAX_SIZE {
        return;
      }
      var excess := |breakers| - MAX_SIZE;
      var items := Items();
      var ordered := Sort(EntryBefore, items);
      SortedLists(contents, items);
      var keys := seq(excess, n requires 0 <= n < |ordered| => ordered[n].0);
      FirstAreVictims(contents, ordered, keys);
      victims := set k | k in keys;
      DeleteKeys(keys);
    }

    method AddBreaker(key: Key, cb: KeyCircuitBreaker)
      requires Valid() && key !in breakers && cb !in breakers.Values
      modifies this`breakers, this`contents
      ensures Valid() && breakers == old(breakers)[key := cb]
      ensures contents == old(contents)[key := cb.View()]
    {
      breakers, contents := breakers[key := cb], contents[key := cb.View()];
    }

    method RecordKeyFailure(key: Key, now: real) returns (cooldown: int, ghost victims: set<Key>)
      requires Valid()
      modifies this`breakers, this`contents, breakers.Values
      ensures Valid() && fresh(breakers.Values - old(breakers.Values))
      ensures !locksReady ==> contents == old(contents) && cooldown == 90
      ensures locksReady ==> FailureStep(old(contents), key, now, victims, cooldown, contents)
    {
      if !locksReady {
        return BASE_TIMEOUT.Floor, {};
      }
      if key in breakers {
        cooldown := FailExisting(key, now);
        return cooldown, {};
      }
      victims := InsertNew(key, now);
      ghost var inserted := contents;
      cooldown := FailExisting(key, now);
      NewFailureStep(old(contents), key, now, victims, inserted, contents);
    }

    method InsertNew(key: Key, now: real) returns (ghost victims: set<Key>)
      requires Valid() && key !in breakers
      modifies this`breakers, this`contents
      ensures Valid() && key in breakers && fresh(breakers[key])
      ensures fresh(breakers.Values - old(breakers.Values))
      ensures MayTrim(old(contents), victims)
      ensures contents == (old(contents) - victims)[key := Fresh(now)]
    {
      victims := TrimIfNeeded();
      var cb := new KeyCircuitBreaker(FAILURE_THRESHOLD, BASE_TIMEOUT, now);
      AddBreaker(key, cb);
    }

    method FailExisting(key: Key, now: real) returns (cooldown: int)
      requires Valid() && key in breakers
      modifies this`contents, breakers[key]
      ensures Valid() && breakers == old(breakers) && contents == old(contents)[key := old(contents)[key].Failed(now)]
      ensures cooldown == contents[key].Cooldown().Floor
    {
      var cb := breakers[key];
      cb.RecordFailure(now);
      contents := contents[key := cb.View()];
      cooldown := cb.View().Cooldown().Floor;
    }

    method StaleKeys(now: real, staleThreshold: real, openTimeout: real) returns (keys: seq<Key>)
      requires Valid()
      ensures Distinct(keys)
      ensures forall k :: k in keys <==> k in contents && Stale(contents[k], now, staleThreshold, openTimeout)
    {
      var items := Items();
      keys := [];
      for n := 0 to |items|
        invariant forall k :: k in keys <==>
          (exists i :: 0 <= i < n && items[i].0 == k && Stale(items[i].1, now, staleThreshold, openTimeout))
        invariant Distinct(keys)
      {
        if Stale(items[n].1, now, staleThreshold, openTimeout) {
          assert items[n].0 !in keys;
          keys := keys + [items[n].0];
        }
      }
    }

    method Cleanup(now: real, staleThreshold: real, openTimeout: real) returns (removed: nat)
      requires Valid()
      modifies this`breakers, this`contents
      ensures Valid() && breakers.Values <= old(breakers.Values)
      ensures !locksReady ==> removed == 0 && contents == old(contents)
      ensures locksReady ==> contents == Cleaned(old(contents), now, staleThreshold, openTimeout)
      ensures removed == |old(contents)| - |contents|
    {
      if !locksReady {
        return 0;
      }
      var keys := StaleKeys(now, staleThreshold, openTimeout);
      CleanupRemoves(contents, keys, now, staleThreshold, openTimeout);
      DeleteKeys(keys);
      removed := |keys|;
    }

    method ClearAll()
      requires Valid()
      modifies this`breakers, this`contents
      ensures Valid() && breakers.Values <= old(breakers.Values)
      ensures contents == if locksReady then map[] else old(contents)
    {
      if locksReady {
        breakers, contents := map[], map[];
      }
    }

    /** One slot whose stored cooldown ends `remaining` seconds from now. */
    method RestoreCooldown(key: Key, now: real, touched: real, remaining: real) returns (trips: nat)
      requires Valid()
      modifies this`breakers, this`contents
      ensures Valid() && fresh(breakers.Values - old(breakers.Values))
      ensures !locksReady ==> contents == old(contents)
      ensures locksReady ==> Step(old(contents), Restore(key, now, touched, remaining, trips), contents)
    {
      trips := 0;
      if !locksReady || key in breakers || remaining <= 0.0 {
        return;
      }
      var cb;
      cb, trips := NewRestored(now, touched, remaining);
      AddBreaker(key, cb);
    }
  }

  // ----- a whole run of the map -----

  /** One call by the rest of the program. */
  datatype Request =
    | AskKey(key: Key, at: real)
    | ReportSuccess(key: Key, at: real)
    | ReportFailure(key: Key, at: real)
    | CleanUp(at: real)
    | ClearAll(at: real)
    | RestoreSlot(key: Key, at: real, touched: real, remaining: real)

  datatype Reply = Allowed(yes: bool) | Cooldown(seconds: int) | Done

  /** The event is the request, completed by what the caller is told. */
  predicate Records(q: Request, reply: Reply, e: Event) {
    match q
    case AskKey(key, at) => reply.Allowed? && e == Check(key, at, reply.yes)
    case ReportSuccess(key, at) => reply == Done && e == Success(key, at)
    case ReportFailure(key, at) => e.Failure? && e.key == key && e.at == at && reply == Cooldown(e.cooldown)
    case CleanUp(at) => reply == Done && e == Cleanup(at)
    case ClearAll(at) => reply == Done && e == Clear(at)
    case RestoreSlot(key, at, touched, remaining) =>
      reply == Done && e.Restore? && e == Restore(key, at, touched, remaining, e.trips)
  }

  predicate InTime(requests: seq<Request>) {
    forall i, j ::
      0 <= i < j < |requests| && (requests[j].AskKey? || requests[j].ReportSuccess? || requests[j].ReportFailure?) ==>
      requests[i].at <= requests[j].at
  }

  method Handle(table: Breakers, q: Request) returns (reply: Reply, ghost e: Event)
    requires table.Valid() && table.locksReady
    modifies table`breakers, table`contents, table.breakers.Values
    ensures table.Valid() && fresh(table.breakers.Values - old(table.breakers.Values))
    ensures Records(q, reply, e) && Step(old(table.contents), e, table.contents)
  {
    reply := Done;
    match q {
      case AskKey(key, at) =>
        var yes := table.CheckKey(key, at);
        reply, e := Allowed(yes), Check(key, at, yes);
      case ReportSuccess(key, at) =>
        table.RecordKeySuccess(key, at);
        e := Success(key, at);
      case ReportFailure(key, at) =>
        var cooldown, victims := table.RecordKeyFailure(key, at);
        reply, e := Cooldown(cooldown), Failure(key, at, victims, cooldown);
      case CleanUp(at) =>
        var _ := table.Cleanup(at, STALE_THRESHOLD, OPEN_TIMEOUT);
        e := Cleanup(at);
      case ClearAll(at) =>
        table.ClearAll();
        e := Clear(at);
      case RestoreSlot(key, at, touched, remaining) =>
        var trips := table.RestoreCooldown(key, at, touched, remaining);
        e := Restore(key, at, touched, remaining, trips);
    }
  }

  lemma RecordedInTime(requests: seq<Request>, replies: seq<Reply>, events: seq<Event>)
    requires InTime(requests) && |replies| == |events| == |requests|
    requires forall i :: 0 <= i < |requests| ==> Records(requests[i], replies[i], events[i])
    ensures forall i, j :: 0 <= i < j < |events| && Timely(events[j]) ==> events[i].at <= events[j].at
  {
    assert forall i :: 0 <= i < |events| ==> events[i].at == requests[i].at;
  }

  /** The replies are those of this run from the empty map. */
  ghost predicate Answers(
    requests: seq<Request>, replies: seq<Reply>, states: seq<Registry>, events: seq<Event>)
  {
    && |replies| == |events| == |requests|
    && (forall i :: 0 <= i < |requests| ==> Records(requests[i], replies[i], events[i]))
    && Run(states, events) && states[0] == map[]
  }

  /** Whatever is asked of the map, in whatever order, is a run: every theorem about runs is about
      what the callers of the map are told. */
  method RunRequests(requests: seq<Request>) returns (replies: seq<Reply>)
    requires InTime(requests)
    ensures exists states, events :: Answers(requests, replies, states, events)
  {
    var table := new Breakers();
    table.InitLocks();
    replies := [];
    ghost var states: seq<Registry>, events: seq<Event> := [map[]], [];
    for n := 0 to |requests|
      invariant fresh(table) && fresh(table.breakers.Values) && table.Valid() && table.locksReady
      invariant |replies| == |events| == n && |states| == n + 1
      invariant states[0] == map[] && states[n] == table.contents
      invariant forall i :: 0 <= i < n ==> Records(requests[i], replies[i], events[i])
      invariant forall i {:trigger events[i]} :: 0 <= i < n ==> Step(states[i], events[i], states[i + 1])
    {
      var reply;
      ghost var e;
      reply, e := Handle(table, requests[n]);
      replies, states, events := replies + [reply], states + [table.contents], events + [e];
    }
    RecordedInTime(requests, replies, events);
    assert Answers(requests, replies, states, events);
  }
}
