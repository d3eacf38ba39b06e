# Verified model of the LLM dispatch engine

A Dafny model of the stateful core of an assistant that talks to many LLM providers with many API
keys, and of the small protocols around it. Each module follows one component of the Python sources;
code that updates fields or global dictionaries is a class with `modifies` clauses and is proved
against functions or relations on values, and the promises are then proved about those, over whole
runs where the component has runs.

- `breaker.dfy`, `breaker_registry.dfy`: a key's circuit breaker (CLOSED / OPEN / HALF_OPEN with
  capped exponential backoff) and the global map of breakers with checks, successes, failures,
  trimming, cleanup and restoring cooldowns after a restart. `RunRequests` makes every theorem about
  runs one about what the callers of the map are told.
- `breaker_history.dfy`: what a check answers and a failure reports, told from the events alone.
- `trim_order.dfy`, `cooldown_restore.dfy`: which breakers a trim forgets, and for how long a restored
  cooldown really holds.
- `key_rotation.dfy`: round-robin start reservation, the nested retry loop over the keys, streaming,
  and which breaker hears of which failure.
- `calls_and_breakers.dfy`: any number of calls rotating over their keys while the registry changes
  under them.
- `dispatch_slots.dfy`: the purpose and key semaphores as a step system over any number of tasks.
- `provider_fallback.dfy`: provider scores, score-ordered chat, dimension-checked embeddings.
- `close_cascade.dfy`: flush, fallback close and key-provider close under failure and cancellation.
- `sessions.dfy`, `session_ownership.dfy`, `session_data.dfy`: nested `get_session` blocks as
  savepoints, sessions across tasks that inherit each other's context, and what all of them commit.
- `fts_index.dfy`: the triggers that keep a full-text index beside its table.
- `json_scanner.dfy`, `json_lexemes.dfy`: the depth / string / escape automaton that cuts a JSON value
  out of prose, and what it cuts out of any text at all.
- `peer_locks.dfy`, `embed_batch.dfy`, `ttl_cache.dfy`, `reply_dedup.dfy`, `anthropic_messages.dfy`:
  the per-peer lock table, cache-aside batch embedding, the TTL cache, the reply deduplicator and the
  Anthropic message conversion.
- `sorting.dfy`, `finite_sets.dfy`, `options.dfy`: Python's stable `sorted`, used by the trim and by
  the provider order, sizes of sets, and values that may be missing.

Time is a real number handed in by the caller and never goes back; only cleanup and restore, which
read the clock before they take the lock, may come with an older time. The outcomes of network calls, of
building a provider and of closing one are parameters (functions or values), so every theorem holds
for all of them.

## Where the code and its comments differ

The model follows the code. What follows from that is proved.

- The comment of the trim says the oldest CLOSED breakers go first. The sort key negates
  `_last_touched`, so the most recently touched ones do (`TrimDropsNewest`). The comment is right
  exactly when there is no choice to make: nothing is trimmed, all CLOSED breakers are, or all were
  touched at the same time (`OldestFirstExactly`). After 1001 keys failed once each, one second apart,
  the next new key makes room by forgetting the last failure (`NewestIsForgotten`). What always holds
  is that a breaker that is not CLOSED goes only together with every CLOSED one (`TrimSparesOpen`).
- Trimming runs before the insertion, so the map holds `MAX + 1` entries right after a new key failed
  in a full map (`SizeAfterNewFailure`), and restoring does not trim at all (`SizeBounded`).
- A restore is meant to hold the key for all of the cooldown that was left. It picks the trip count
  with the uncapped backoff, which `ready_at` caps at one hour, and it dates the failure back, so that
  the cleanup forgets the breaker 30 minutes after a failure that may already be long past. Over all
  runs the key is held iff at most 1440 s were left or the loop clock will not have passed 1800 s by
  then; without cleanups, iff at most 2880 s were left or it will not have passed 3600 s
  (`RestoreHonoursCooldown`, with the runs of `CleanupReleasesEarly` and `RestoreReleasesEarly`). The
  only caller passes slots whose cooldown was over when they were selected
  (`src/db/repos/key_repo.py:185`), so through it little is ever left to restore; the statements are
  about the function.
- A key that is listed twice without slots has one breaker. A call then makes six operations on it and
  tells the breaker of two failures (`RepeatedKey`). No breaker hears of two failures in one call iff
  the entries have different breakers (`OneFailurePerBreaker`).
- A stream that breaks after its first tokens is restarted with the next key and nothing is taken
  back. The reader gets the answer alone iff no key tried in vain had sent anything
  (`AnswerArrivesAlone`); with two keys it can read "aa" for "a" (`ReaderHearsTwice`).
- `ProviderFallback.embed_batch` says it checks the dimensions; it measures only the first vector. All
  vectors have the chain's length iff the batch of the first provider that is not passed over has
  only one length (`DimensionsExactly`); a batch of two lengths gets through
  (`MixedBatchGetsThrough`).
- When an API returns fewer or more vectors than texts, `embed_batch` raises, but the pairs formed
  until then have been cached (`CacheStaysRight` says exactly when the cache stays right,
  `ShortReplyPoisons` gives an input where it does not).
- `put` evicts an entry at capacity even when the key is already present. Overwriting loses another
  entry iff the cache is full and the key is not the oldest (`OverwriteLoses`, `OverwriteNewest`).

## Model

| member | source | states |
|---|---|---|
| KeyBreaker.CountersTellHistory | src/llm/provider_manager.py:107-127 | for a fresh breaker and every history: CLOSED iff fewer than three failures since the last success, and the backoff exponent is the number of probes since then that have failed |
| KeyBreaker.BackoffMonotone | src/llm/provider_manager.py:82-92 | more trips never shorten the backoff |
| KeyBreaker.KeyCircuitBreaker.RecordSuccess | src/llm/provider_manager.py:107-111 | resets counters and state, touches the breaker, changes nothing else |
| KeyBreaker.KeyCircuitBreaker.RecordFailure | src/llm/provider_manager.py:113-127 | trips at the threshold, re-trips with a doubled backoff from HALF_OPEN, only counts while OPEN |
| KeyBreaker.KeyCircuitBreaker.TryHalfOpen | src/llm/provider_manager.py:129-137 | succeeds, and moves to HALF_OPEN, iff the breaker is OPEN and its deadline has passed |
| BreakerRegistry.Blackout | src/llm/provider_manager.py:251-272 | over every run on any keys: after a failure at t leaves a key OPEN with k re-trips, no check passes before t + min(90·2^k, 3600), or min(90·2^k, 1800) if a cleanup ran in between, unless the key succeeded or was trimmed, or the map was cleared |
| BreakerRegistry.BlackoutIsTight | src/llm/provider_manager.py:82-88 | the bound is exact: untouched otherwise, the next check passes iff the capped backoff is over |
| BreakerHistory.CheckAnswers | src/llm/provider_manager.py:251-272 | over every run a check is refused iff three failures (or a restore) were reported since the key came in, no probe is running, and the last failure lies less than min(90·2^probes, 3600) s back; unknown keys, keys with fewer failures and keys being probed pass |
| BreakerHistory.OnlyOpenRefuses | src/llm/provider_manager.py:94-105 | the same in terms of the breaker: only an OPEN one refuses, only for its pause; a CLOSED one passes whatever its failures, a HALF_OPEN one too |
| BreakerHistory.RefusalNeedsFailures | src/llm/provider_manager.py:113-127 | a refusal needs three failures since the key came in, or a restore |
| BreakerHistory.AlwaysTold | src/llm/provider_manager.py:107-137 | all fields of a breaker that decide anything are what the events since the key came in say |
| BreakerHistory.CooldownReported | src/llm/provider_manager.py:330-340 | a failure reports the whole seconds of the pause that is due |
| BreakerHistory.WhenForgotten | src/llm/provider_manager.py:455-467 | a key leaves the map by success, trimming, clearing, or a cleanup more than 3600 s after its last failure, 1800 s if it has had three; by nothing else |
| BreakerHistory.HowItComesIn | src/llm/provider_manager.py:330-339 | a key comes in only by its first failure or by a restore with time left |
| BreakerHistory.PauseDoubles | src/llm/provider_manager.py:89-92 | the pause is 90 s, doubles with each failed probe, and stops at an hour |
| BreakerRegistry.TrippedUntil | src/llm/provider_manager.py:455-467 | a tripped breaker survives every step, cleanups included, up to the horizon |
| BreakerRegistry.TrippedRefuses | src/llm/provider_manager.py:251-272 | a tripped breaker refuses every check before the horizon, wherever the trip came from |
| BreakerRegistry.TrimSparesOpen | src/llm/provider_manager.py:550-570 | a non-CLOSED breaker is trimmed only if every CLOSED one is |
| BreakerRegistry.TrimDropsNewest | src/llm/provider_manager.py:563-570 | among CLOSED breakers the most recently touched are trimmed |
| BreakerRegistry.TrimDropsNewestOpen | src/llm/provider_manager.py:563-570 | among the others, once all CLOSED ones are gone, again the most recently touched are trimmed |
| TrimOrder.OldestFirstExactly | src/llm/provider_manager.py:550-570 | the promised order, oldest CLOSED first, holds iff nothing is trimmed, all CLOSED breakers are, or all were touched at the same time |
| TrimOrder.OnlyClosedGo | src/llm/provider_manager.py:550-570 | while fewer are trimmed than there are CLOSED breakers, only CLOSED ones are |
| TrimOrder.NewestIsForgotten | src/llm/provider_manager.py:565-570 | in a map of 1001 keys that failed once each, the only possible trim forgets the last failure and keeps the oldest |
| TrimOrder.FailedOnceIsReached | src/llm/provider_manager.py:330-339 | that map is reached by 1001 first failures |
| BreakerRegistry.SizeAfterNewFailure | src/llm/provider_manager.py:330-339 | after a new key's failure the map has min(size, 1000) + 1 entries |
| BreakerRegistry.SizeBounded | src/llm/provider_manager.py:550-570 | over every run the map never exceeds 1001 entries plus the number of restored keys |
| BreakerRegistry.FewKeysAreNeverTrimmed | src/llm/provider_manager.py:550-562 | while at most 1001 keys are involved, no failure trims anything |
| BreakerRegistry.DroppingIsUnobservable | src/llm/provider_manager.py:292-299 | deleting a breaker on success is bisimilar to keeping all forever: all checks and all reported cooldowns agree on every run in which trim and cleanup remove nothing and no dropped key is restored |
| BreakerRegistry.BisimilarStep | src/llm/provider_manager.py:251-272 | each step keeps the bisimulation and shows the caller the same answer |
| BreakerRegistry.RestoreKeepsBisimilar | src/llm/provider_manager.py:689-693 | a restore keeps the correspondence iff its key was not dropped before |
| BreakerRegistry.RestoreTellsApart | src/llm/provider_manager.py:689-693 | after restoring a dropped key a caller can tell the maps apart: by a check made at once if the shortest backoff was restored, by the cooldown reported for the next failure otherwise |
| BreakerRegistry.AlwaysBisimilar | src/llm/provider_manager.py:292-299 | along such a run the two maps correspond all the time |
| CooldownRestore.LeastTripsRange | src/llm/provider_manager.py:701-708 | which trip counts the search can pick for which remaining times |
| CooldownRestore.RestoredReadyAt | src/llm/provider_manager.py:694-718 | restored deadline is now + r for r up to 2880 s, and now + r - 2160 between 2880 and 3600 s |
| CooldownRestore.ReleasedInTime | src/llm/provider_manager.py:694-718 | the first moment a restored key can be let through is not before the end of its cooldown in exactly these cases |
| CooldownRestore.RestoreHonoursCooldown | src/llm/provider_manager.py:684-722 | over every run, no check of a restored key passes before its cooldown ends (unless it succeeded or was trimmed, or the map was cleared) iff r is at most 1440 s or now + r at most 1800 s; without cleanups, iff r is at most 2880 s or now + r at most 3600 s |
| CooldownRestore.RestoredRefuses | src/llm/provider_manager.py:694-718 | in those cases every run refuses every early check |
| CooldownRestore.EarlyRelease | src/llm/provider_manager.py:455-467 | in all others there is a run of at most three events that lets the key through early |
| CooldownRestore.CleanupReleasesEarly | src/llm/provider_manager.py:455-467 | a concrete run: 2500 s left at clock 10000, cleanup at 11430, and the check at 11431 passes 1069 s early |
| CooldownRestore.RestoreReleasesEarly | src/llm/provider_manager.py:701-718 | a concrete run without any cleanup: 3000 s left at clock 10000, and the check at 10840 passes 36 minutes early |
| BreakerRegistry.TripsCovering | src/llm/provider_manager.py:704-708 | the search loop finds the least trip count, at most ten, whose uncapped backoff covers the rest |
| BreakerRegistry.NewRestored | src/llm/provider_manager.py:694-718 | the restored breaker: OPEN, at the threshold, with those trips and the failure dated back but not before clock zero |
| BreakerRegistry.Breakers.CheckKey | src/llm/provider_manager.py:251-272 | the answer and the change as in the model's step; everything is let through before the locks exist |
| BreakerRegistry.CheckMeans | src/llm/provider_manager.py:94-137 | what the answer of a check and its change are in terms of the breaker's fields: refused iff OPEN and within both its backoff and an hour; changed only from OPEN to HALF_OPEN |
| BreakerRegistry.Breakers.RecordKeySuccess | src/llm/provider_manager.py:292-299 | the key, and only the key, leaves the map; no other breaker object comes in |
| BreakerRegistry.Breakers.RecordKeyFailure | src/llm/provider_manager.py:330-342 | the failure step: trim only for a new key and before inserting it, count the failure, report the whole-second cooldown |
| BreakerRegistry.Breakers.TrimIfNeeded | src/llm/provider_manager.py:550-570 | removes exactly as many entries as exceed the limit, none of which the sort key puts strictly after a survivor |
| BreakerRegistry.Breakers.StaleKeys | src/llm/provider_manager.py:455-463 | lists exactly the breakers idle too long for their state, each once |
| BreakerRegistry.Breakers.Cleanup | src/llm/provider_manager.py:448-467 | removes exactly those and counts them |
| BreakerRegistry.Breakers.RestoreCooldown | src/llm/provider_manager.py:684-722 | inserts a restored breaker iff the key is unknown and time is left |
| BreakerRegistry.Breakers.ClearAll | src/core/actions/mcp_self_restart.py:67-68 | empties the map once the locks exist |
| BreakerRegistry.Handle | src/llm/provider_manager.py:251-342 | one call of any kind is a step of the model, and the caller is told what the step says |
| BreakerRegistry.RunRequests | src/llm/provider_manager.py:251-342 | every sequence of calls on a new map is a run: the run theorems hold of what the callers are told |
| KeyRotation.VerdictUnique | src/llm/router.py:284-362 | what happens to one key is determined by the outcomes of its at most three operations |
| KeyRotation.OutcomeDetermined | src/llm/router.py:258-379 | start index and outcomes determine the journal of the call and its result |
| KeyRotation.CallMeans | src/llm/router.py:258-362 | entry by entry, from what the world answers: passed over, operations until one does not raise a retryable error, answered, rotated and reported, or raised and not reported |
| KeyRotation.CallTells | src/llm/router.py:321-340 | for the whole call: an error not both retryable and transient is the result, from the last entry considered, and unreported; reported are exactly the entries whose three operations all raised retryable errors, the last of them transient |
| KeyRotation.CallEnds | src/llm/router.py:342-379 | only considered entries are reported, and an exhausted call has considered all |
| KeyRotation.LastErrorMeans | src/llm/router.py:342-362 | an exhausted call carries the error of the last entry that was ready |
| KeyRotation.OneTurnPerKey | src/llm/router.py:258-362 | no entry of the key list is tried twice; exhaustion means every entry was considered |
| KeyRotation.CacheKeysDiffer | src/llm/provider_manager.py:275-281 | the breakers of the entries differ iff the keys do (without slots), or iff the slots do (one for each entry) |
| KeyRotation.OneFailurePerBreaker | src/llm/provider_manager.py:321-338 | in every call, whatever the world does, no breaker hears of two failures, iff the entries have different breakers |
| KeyRotation.RepeatedKey | src/llm/provider_manager.py:275-281 | the key list "k,k" without slots: one call, six operations, two failures for one breaker |
| KeyRotation.CostBounded | src/llm/router.py:284-309 | over a whole call at most 3 operations and 3 s of backoff sleep for each entry considered |
| KeyRotation.NoErrorMeansAllSkipped | src/llm/router.py:366-372 | no recorded error iff every key was skipped, so the BUG branch is dead |
| KeyRotation.CycleIsPermutation | src/llm/router.py:263-265 | the n indices visited from any start are a permutation of 0..n-1 |
| KeyRotation.TimesReservedExactly | src/llm/router.py:201-205 | the exact number of times each index starts a call within m reservations |
| KeyRotation.ReservationsAreFair | src/llm/router.py:201-205 | over any window of m reservations each index starts floor(m/n) or ceil(m/n) calls |
| KeyRotation.RestartedStreamRepeats | src/llm/router.py:487-550 | what was handed over before leaves an answer unchanged iff it is nothing |
| KeyRotation.AnswerArrivesAlone | src/llm/router.py:487-569 | the reader gets exactly the answer, streamed or from the plain call, iff no key tried in vain had sent anything |
| KeyRotation.ReaderHearsTwice | src/llm/router.py:495-508 | a concrete input: the first stream breaks after "a", the second streams "a", the reader gets "aa" |
| KeyRotation.MultiKeyProvider.ReserveStartIdx | src/llm/router.py:201-205 | hands out the index and moves it one on, cyclically |
| KeyRotation.MultiKeyProvider.ReserveMany | src/llm/router.py:201-205 | m calls hand out the cyclic sequence the fairness lemmas count |
| KeyRotation.MultiKeyProvider.TryKey | src/llm/router.py:266-362 | skip, creation failure, up to three operations with 1 s and 2 s sleeps, and the verdict (what that means is `CallMeans`); the created provider is remembered |
| KeyRotation.MultiKeyProvider.RotateFrom | src/llm/router.py:262-365 | follows the rule; exactly the rotated keys are reported to the breaker as failed and the answering key as working |
| KeyRotation.MultiKeyProvider.TryWithRetry | src/llm/router.py:228-379 | the whole call: budget first, one reservation, the rule, an error not worth rotating ends it unreported, the provider failure recorded iff exhausted, never the BUG branch, and one failure per breaker at most if the entries' breakers differ |
| KeyRotation.MultiKeyProvider.StreamFrom | src/llm/router.py:483-550 | passes over keys that are skipped, cannot stream or fail for now, and ends at the first that finishes or raises; hands over everything sent on the way; tells the breakers of exactly the failed keys |
| KeyRotation.StreamMeans | src/llm/router.py:487-550 | entry by entry, from what the streams do: which are passed over, which breakers hear of a failure or a success, what is raised, and when the provider's metrics do |
| KeyRotation.MultiKeyProvider.PlainAnswer | src/llm/router.py:564-569 | the call at the end of a stream reserves a start of its own, skips the budget and follows the rule |
| KeyRotation.MultiKeyProvider.ChatStream | src/llm/router.py:464-573 | falls back to one plain call iff every key passes; all text emitted (the answer alone iff nothing was sent in vain), breaker failures and successes, provider failures, created providers and index moves of both parts |
| CallsAndBreakers.AlwaysProper | src/llm/router.py:262-362 | in every interleaving of calls and registry changes the registry goes through a run, and every operation was let through by a check of its own key |
| CallsAndBreakers.NoOperationInBlackout | src/llm/router.py:270-272 | in every interleaving, once a failure of any call leaves a key OPEN, no operation on it starts from a check made before the blackout is over (unless the key succeeded or was trimmed, or the map was cleared) |
| CallsAndBreakers.ThreeOperationsPerCheck | src/llm/router.py:284-309 | one check is good for three operations at most, all of the call that made it |
| DispatchSlots.StepConserves | src/llm/router.py:389-417 | every step of every task keeps permits + holders = capacity for each semaphore |
| DispatchSlots.AlwaysConserved | src/llm/router.py:477-632 | so it holds in every reachable state, with timeouts, stream fallbacks and cancelled waits |
| DispatchSlots.NeverDeadlocked | src/llm/provider_manager.py:573-613 | while a task is unfinished there is a step in which some task moves without a timeout or a cancellation |
| DispatchSlots.EveryRunDrains | src/llm/router.py:570-573 | every run is finite; where no such step is left all tasks are finished and every permit is back |
| DispatchSlots.RunsEnd | src/llm/router.py:389-398 | the length of a run is bounded by the steps the tasks had left |
| DispatchSlots.MovesTellPhase | src/llm/provider_manager.py:573-613 | along every run the last move of a task tells where it stands: waiting for its own purpose (the fallback one if that is unknown), after a time-out for the fallback slot, for the key only with a slot in hand |
| DispatchSlots.AlwaysRightSlot | src/llm/provider_manager.py:584-613 | the slot in a task's hands is that of its call's purpose or the fallback slot |
| DispatchSlots.CallsLeft | src/llm/provider_fallback.py:86-124 | a step ends a task's current call, with or without going on to the next, or all of them when it is cancelled, and touches no other task's |
| DispatchSlots.NeverTooMany | src/llm/router.py:193 | along every run never more tasks are at work on a provider than its key semaphore allows, nor more with a slot than the purpose has |
| ProviderFallback.SuccessRateRange | src/llm/provider_manager.py:161-166 | the rate lies in [0, 1] and is 1 iff nothing failed |
| ProviderFallback.ScoreRange | src/llm/provider_manager.py:174-189 | every score lies in [0, 1], and exactly when it is 1 |
| ProviderFallback.ScoreMeans | src/llm/provider_manager.py:161-189 | ten times the score is six times the success rate plus four times one minus the mean latency over ten (at most one; a half without calls), three tenths of it after a failure less than 60 s ago |
| ProviderFallback.WhoIsAhead | src/llm/provider_manager.py:174-189 | of two providers without a late failure one is ahead iff six times its lead in success rate exceeds four times its lag in latency; and with late failures |
| ProviderFallback.AskedByWorth | src/llm/provider_fallback.py:87-93 | who is worth more by the counts alone is asked earlier |
| ProviderFallback.AskedFirst | src/llm/provider_fallback.py:87-93 | of two providers the second configured is asked first iff it is worth more |
| ProviderFallback.ReliableBeforeFast | src/llm/provider_manager.py:174-189 | a concrete pair: ten of ten in 6 s each scores 0.76, one of two in 0.5 s scores 0.68 |
| ProviderFallback.SortGivesTryOrder | src/llm/provider_fallback.py:87-93 | the sorted list is a permutation in non-increasing score order with ties as configured |
| ProviderFallback.TryOrderUnique | src/llm/provider_fallback.py:88-93 | there is only one such order |
| ProviderFallback.UntriedFirst | src/llm/provider_manager.py:228-243 | a provider without history precedes every provider scoring below 1 |
| ProviderFallback.Fallback.Chat | src/llm/provider_fallback.py:86-124 | providers are asked in the order of their worth by the counts, ties as configured; the first that answers wins; each is tried at most once; what is raised otherwise |
| ProviderFallback.Fallback.Embed | src/llm/provider_fallback.py:220-254 | the first provider not passed over decides: its vector has the committed length, or commits the chain; the error raised otherwise; a commitment is never changed |
| ProviderFallback.EmbedMeans | src/llm/provider_fallback.py:228-254 | for the first provider behind failures and other lengths: its vector of the committed length (or any, if none) is the result and commits the chain, its crash is raised; with none left, the last error |
| ProviderFallback.Fallback.EmbedBatch | src/llm/provider_fallback.py:256-289 | the same rule, with the first vector of a batch compared |
| ProviderFallback.BatchMeans | src/llm/provider_fallback.py:263-289 | the same for batches: an empty one answers, otherwise the length of the first vector decides |
| ProviderFallback.DeciderUnique | src/llm/provider_fallback.py:228-253 | at most one provider decides |
| ProviderFallback.DimensionsExactly | src/llm/provider_fallback.py:256-277 | every returned vector has the committed length iff the batch of the deciding provider has one length |
| ProviderFallback.UniformBatchesAreChecked | src/llm/provider_fallback.py:265-277 | if each provider's batches have one length, every returned vector has the committed one |
| ProviderFallback.MixedBatchGetsThrough | src/llm/provider_fallback.py:266-277 | a concrete reply of two lengths that is returned and commits the chain |
| ProviderFallback.ChainIsComplete | src/llm/provider_manager.py:366-383 | the chain starts with the user's provider and names every known provider exactly once |
| CloseCascade.MultiKey.Close | src/llm/router.py:652-675 | closes every raw provider in order, forgets them, re-raises iff some close was cancelled |
| CloseCascade.CloseAll | src/llm/provider_fallback.py:306-323 | closes what every listed provider still holds, although objects may be listed twice |
| CloseCascade.Fallback.Close | src/llm/provider_fallback.py:297-323 | the same for the fallback, which is empty afterwards |
| CloseCascade.Flush | src/llm/provider_manager.py:1203-1236 | whichever calls fail or are cancelled, everything under every cached chain is closed in order and the cancellation comes out iff there was one |
| CloseCascade.ClosedExactlyOnce | src/llm/provider_manager.py:1203-1236 | each raw provider under a cached chain is closed exactly once, any other never |
| CloseCascade.FlushTwice | src/llm/provider_fallback.py:303-304 | a second flush closes nothing and raises nothing |
| Sessions.MeaningIsSurvivors | src/db/session.py:353-358 | the recursive meaning of nested blocks is: a write survives iff its block and every enclosing block end normally |
| Sessions.BlocksMean | src/db/session.py:353-358 | a block left by an exception changes nothing and lets it through, one that ends normally has done all that is in it, and catching undoes nothing |
| Sessions.TaskRun.RunBlock | src/db/session.py:360-402 | a block by savepoint or by a session of its own has the meaning of a block, and restores the context |
| Sessions.TaskRun.Run | src/db/session.py:373-376 | statements inside and outside blocks, with caught exceptions, have their meaning |
| Sessions.RunTask | src/db/session.py:387-402 | for every program the committed tables become its meaning, whatever context the task inherited |
| SessionOwnership.ReachableOk | src/db/session.py:360-363 | in every interleaving the context of a task inside blocks names the open session its outermost block opened |
| SessionOwnership.NoSessionIsShared | src/db/session.py:346-349 | no session is used by a task that did not open it, or after it was closed; one task's blocks share one |
| SessionOwnership.OpenSessionsAreInUse | src/db/session.py:387-402 | open sessions are exactly those of tasks inside a block |
| SessionData.CommittedAreSurvivors | src/db/session.py:360-402 | in every interleaving of any number of tasks the committed tables hold the surviving writes of the outermost blocks that ended normally, applied block by block in commit order |
| SessionData.SurvivingMeans | src/db/session.py:353-358 | of a block that ended normally survives what survives inside it, of another nothing; and sequences survive piece by piece |
| SessionData.AlwaysAgree | src/db/session.py:373-376 | all the while each session's log is what survives of its open blocks, and each savepoint stands where its block began |
| SessionData.OthersAgree | src/db/session.py:346-349 | a step of one task leaves every other task's session as it was |
| SessionData.NothingIsExcluded | src/db/session.py:360-402 | whatever blocks and contexts let a task do next, the machine does and the history records |
| FtsIndex.AddRow | src/db/session.py:103-106 | the posting multiset of a table with one more row is the old one plus the row's postings |
| FtsIndex.SearchIsExact | src/db/session.py:90-100 | with an index equal to one built from scratch, a token search reports exactly the rows containing it |
| FtsIndex.PostingMeans | src/db/session.py:90-106 | the index holds a posting of a token for a row iff one of the row's columns contains the token |
| FtsIndex.IndexedTable.Apply | src/db/session.py:102-121 | each insert, delete and update, also of the id, keeps the index equal to one built from scratch |
| FtsIndex.IndexedTable.ApplyAll | src/db/session.py:134-185 | so does every sequence of them, and searches stay exact |
| JsonScanner.ValueBalanced | src/agents/_json_utils.py:49-74 | every printed JSON value leaves the automaton as it found it and never closes the surrounding bracket |
| JsonScanner.PrintedCloses | src/agents/_json_utils.py:71-76 | for a printed object or array the depth returns to zero at the last character and nowhere earlier |
| JsonScanner.UnfenceKeeps | src/agents/_json_utils.py:24-27 | taking off a code fence never cuts into the value |
| JsonScanner.PrintedIsCandidate | src/agents/_json_utils.py:24-76 | after any text without opening brackets, fenced or not, and before any text, the candidate is the printed value |
| JsonScanner.CandidateUnique | src/agents/_json_utils.py:29-76 | a text has at most one candidate |
| JsonScanner.ScanFrom | src/agents/_json_utils.py:49-87 | the loop finds the shortest closing piece from the first bracket on, or there is none |
| JsonScanner.ScanCleaned | src/agents/_json_utils.py:29-87 | starts at the earlier of the first brace and the first bracket |
| JsonScanner.ExtractCandidate | src/agents/_json_utils.py:24-76 | undoes the printer for every object or array so embedded |
| JsonLexemes.CandidateMeans | src/agents/_json_utils.py:29-87 | in any text, well-formed or not, a piece is found iff it is the characters and quoted strings from the first opening bracket to its partner; a backslash outside strings is an ordinary character |
| JsonLexemes.EnclosedIsCandidate | src/agents/_json_utils.py:24-76 | behind any text without opening brackets, fenced or not, and before any text, such a piece is what is found |
| PeerLocks.AlwaysOnePerPeer | src/userbot/auto_reply_handler.py:71-83 | dropping a message whose peer is being served keeps one handler per peer, over every run |
| PeerLocks.LockTable.DropUnlocked | src/userbot/auto_reply_handler.py:51-54 | a cleanup keeps exactly the locks of peers being served, each for its own peer |
| PeerLocks.LockTable.GetPeerLock | src/userbot/auto_reply_handler.py:46-57 | every lock stays mapped to its peer, except that a cleanup of a table over 200 drops those of peers not being served; the table holds at most max(201, in flight + 1) entries |
| PeerLocks.LockTable.Arrive | src/userbot/auto_reply_handler.py:76-83 | a message enters iff its peer is not being served, cleanups included |
| PeerLocks.LockTable.Leave | src/userbot/auto_reply_handler.py:82-85 | the handler, and only it, is inside no longer, and its lock is free again |
| PeerLocks.RunSchedule | src/userbot/auto_reply_handler.py:46-85 | for every interleaving, from the events alone: a message gets in iff every earlier one for its peer (or of its handler) that got in has been followed by the end of its handler; so never two for one peer |
| PeerLocks.InsideAreBusy | src/userbot/auto_reply_handler.py:82-85 | inside are exactly the handlers that got in and have not finished, each for its peer |
| PeerLocks.EntersIffFree | src/userbot/auto_reply_handler.py:76-83 | a message gets in iff its peer and its handler are free |
| EmbedBatch.PlacesExact | src/llm/gemini_provider.py:299-308 | the collected misses and indices are exactly the uncached texts, in order |
| EmbedBatch.ChunksCover | src/llm/gemini_provider.py:311-315 | the chunks are non-empty, have 100 texts except the last, which has at most 100, and concatenate to the misses |
| EmbedBatch.FaithfulCalls | src/llm/gemini_provider.py:314-338 | a faithful API answers a series of chunks like one call on all of them |
| EmbedBatch.FirstErrorStops | src/llm/gemini_provider.py:314-338 | the first error of a chunk is the error reported |
| EmbedBatch.CacheStaysRight | src/llm/gemini_provider.py:340-342 | for every reply, short or long, the cache stays right iff the vector stored last for each missed text is its own |
| EmbedBatch.ShortReplyPoisons | src/llm/gemini_provider.py:340-342 | an input for which the strict zip raises after a wrong vector was cached |
| EmbedBatch.EmbedsCorrectly | src/llm/_openai_compat_mixin.py:96-120 | with a right cache and a faithful API either way of calling it gives every index its own text's vector, for any mix of hits, misses and duplicates; the cache is right and complete afterwards and the strict zip never fails |
| EmbedBatch.NoCallFails | src/llm/gemini_provider.py:314-338 | a faithful API never ends the chunk loop early |
| EmbedBatch.OpenAiEmbedBatch | src/llm/_openai_compat_mixin.py:96-120 | the whole method: right at every index, cache right and complete |
| EmbedBatch.GeminiEmbedBatch | src/llm/gemini_provider.py:289-344 | the whole method: the configuration error, otherwise right at every index, cache right and complete |
| EmbedBatch.LookUp | src/llm/_openai_compat_mixin.py:100-109 | the first pass places the hits and collects the misses |
| EmbedBatch.Place | src/llm/_openai_compat_mixin.py:116-118 | the second pass stores and places pair by pair and raises iff the lengths differ |
| EmbedBatch.EmbedAtOnce | src/llm/_openai_compat_mixin.py:96-120 | one API call with all misses, none if there are none |
| EmbedBatch.CallInChunks | src/llm/gemini_provider.py:312-338 | the calls made are the chunks in order, cut short only by an error |
| EmbedBatch.EmbedInChunks | src/llm/gemini_provider.py:289-344 | nothing is stored unless every chunk succeeded; configuration errors; otherwise as above |
| TtlCache.PutExplained | src/core/context_cache.py:44-54 | a put keeps the explanation below |
| TtlCache.ReadExplained | src/core/context_cache.py:27-41 | so does taking out an expired entry |
| TtlCache.DropExplained | src/core/context_cache.py:63-71 | so does dropping a prefix |
| TtlCache.AlwaysExplained | src/core/context_cache.py:27-96 | for every history: what is there is the latest value put and not dropped since; an unexpired value is missing only if at least 2000 puts followed the one that created its slot |
| TtlCache.LatestMeans | src/core/context_cache.py:27-71 | a key is entitled to the value and deadline of the put that stored it last, if no drop of a prefix of it came since, and to nothing else |
| TtlCache.AlwaysBounded | src/core/context_cache.py:44-54 | keys and entries stay together, each key once, at most 2000 |
| TtlCache.SizeBounded | src/core/context_cache.py:47-53 | never more than 2000 entries |
| TtlCache.PutMeans | src/core/context_cache.py:44-54 | a put stores the entry and, at 2000, loses the oldest; all others stay as they were |
| TtlCache.AlwaysAged | src/core/context_cache.py:20-21 | the slots stand in the order in which they were created, whatever is overwritten, read or dropped |
| TtlCache.ReplayAnswers | src/core/context_cache.py:27-41 | so reads answer with exactly what the history entitles to, up to what was crowded out |
| TtlCache.OverwriteLoses | src/core/context_cache.py:47-53 | overwriting a present key loses another entry iff the cache is full and the key is not the oldest |
| TtlCache.OverwriteNewest | src/core/context_cache.py:47-53 | a concrete full cache in which overwriting the newest key loses the oldest |
| TtlCache.Cache.Get | src/core/context_cache.py:27-41 | answers as the history entitles; an expired entry goes, the eviction order stays |
| TtlCache.Cache.Put | src/core/context_cache.py:44-54 | the oldest entry goes iff the cache is full; the key keeps its place or goes to the end; at most 2000 entries |
| TtlCache.Cache.Invalidate | src/core/context_cache.py:57-77 | removes exactly the keys with the prefix, everything for an empty one; the rest keep their order |
| TtlCache.Cache.Extract | src/core/context_cache.py:79-96 | removes exactly the keys with the prefix and returns exactly their values in order; the rest keep their order |
| TtlCache.KeepExact | src/core/context_cache.py:69-71 | filtering the key list keeps exactly the wanted keys, each once |
| ReplyDedup.InsertExplained | src/bot/reply_dedup.py:38 | appending an acceptance keeps the cache equal to a suffix of all acceptances whose other members are released |
| ReplyDedup.OldestReleased | src/bot/reply_dedup.py:36-37 | the entry evicted at capacity has max_size other keys accepted behind it |
| ReplyDedup.SpacedNext | src/bot/reply_dedup.py:33-39 | accepting only released keys keeps equal keys apart |
| ReplyDedup.ReplyDedup.Purge | src/bot/reply_dedup.py:30-32 | removes exactly the entries older than the TTL |
| ReplyDedup.ReplyDedup.IsDuplicate | src/bot/reply_dedup.py:20-39 | a duplicate iff the key is among the last max_size acceptances and was accepted within the TTL; otherwise accepted, unless there is no room at all |
| ReplyDedup.RunAll | src/bot/reply_dedup.py:20-39 | over every sequence of calls each verdict is decided by the last max_size acceptances and the TTL; so two acceptances of a key are more than the TTL apart or have max_size other keys between them |
| ReplyDedup.HeldIsInWindow | src/bot/reply_dedup.py:30-37 | what the cache holds is exactly what is in that window |
| ReplyDedup.NotStale | src/bot/reply_dedup.py:30-32 | the entries that are not stale are the last ones |
| AnthropicMessages.Convert | src/llm/anthropic_provider.py:181-222 | every message arrives in order at a place of its own: texts under their own role if it is user or assistant and as user otherwise, tool results under their call id or "unknown", one group for each run, nothing else; and the system text |
| AnthropicMessages.TakeRun | src/llm/anthropic_provider.py:201-211 | the inner loop takes the whole run of tool messages |
| AnthropicMessages.PartsInOrder | src/llm/anthropic_provider.py:196-198 | the system parts are the contents of the system messages, in order |
| AnthropicMessages.OnePart | src/llm/anthropic_provider.py:221 | a single part is the whole text |
| AnthropicMessages.GroupedUnique | src/llm/anthropic_provider.py:199-212 | there is only one way to group |
| AnthropicMessages.RunBeginsOnce | src/llm/anthropic_provider.py:202-212 | a run of tool messages begins one converted message, at its first message |
| AnthropicMessages.JoinCut | src/llm/anthropic_provider.py:221 | the system text keeps the parts whole and in order: it can be cut before any part |
| AnthropicMessages.NoParts | src/llm/anthropic_provider.py:196-198 | there is a system part iff there is a system message |
| Sorting.SortIsSortedPermutation | src/llm/provider_manager.py:565-568 | the sort orders by its key and loses nothing |
| Sorting.SortIsStable | src/llm/provider_fallback.py:88-93 | equal keys keep their order |

## Left out

- Network, SDK and database input and output: replaced by outcomes chosen freely.
- Usage tracking, logging, telemetry, and marking key slots as used or failed in the database.
- Provider-metrics entries that the periodic cleanup also removes, by a filter on their last activity.
- BreakerRegistry.Breakers.TrimIfNeeded: the order of entries with equal sort keys is left open (it is the insertion order of the dictionary in the source); the theorems hold for every choice.
- BreakerRegistry.DroppingIsUnobservable: excludes restoring a key that was dropped, which does tell the two maps apart (`RestoreKeepsBisimilar`, `RestoreTellsApart`).
- BreakerRegistry.Breakers.RestoreCooldown: the time left is given as of the restore's own clock reading; what passes between reading the wall clock, the query and the loop clock is not modelled.
- The timeouts of 90, 180 and 300 s around calls: a timeout of one operation is one of its outcomes; the one around a whole call is not modelled.
- KeyRotation.MultiKeyProvider.ChatStream: a reader that stops reading early is not modelled.
- IterationBudget, the error classifier and the text markers of retryable errors: uninterpreted flags of an error or of the call.
- DispatchSlots.EveryRunDrains: a reader that abandons a stream keeps both permits until its generator is finalised; here every task goes on.
- DispatchSlots.NeverDeadlocked: the order in which a semaphore serves its waiters (fairness), the race between a timeout and an acquisition, and cancellation outside the waits for a slot and the work itself are not modelled.
- Cancellation while waiting for the list lock of a provider, and the bookkeeping of `task.uncancel`.
- The `InvalidRequestError` / `OperationalError` branch of `get_session`, which yields a second time; explicit commits inside blocks; exceptions that are not `Exception`; reuse of task ids. What a task reads, and conflicts between writers (a database error), are not modelled.
- `INSERT OR REPLACE`, rows that were there before the index, the tokenizer itself.
- `json.loads`, the grammar of JSON numbers and literals (any text without brackets, quotes and backslashes may stand for one), and what is made of the parsed value.
- PeerLocks.LockTable.Arrive: looking up the lock, testing it and acquiring it is one step, because no suspension point lies between them: `_locks_guard` is never held across a suspension, and an unlocked `asyncio.Lock` is acquired without one.
- The embedding cache behind the two `embed_batch` methods (its layers, its eviction and its hashing): an ordinary map.
- Collisions of the truncated digest in the reply deduplicator, and the hand-over of hashing to a thread: the key is given.
- The single-text `embed` of the embedding mixin, `list_models`, `validate_key`, model selection and the construction of providers: single calls without state of their own.
