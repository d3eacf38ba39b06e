/** MultiKeyProvider: round-robin start index, key rotation with retries, and streaming. */
module KeyRotation {
  import opened Options
  import opened Sorting

  const MAX_RETRIES_PER_KEY: nat := 3
  const RETRY_BASE_DELAY: real := 1.0

  /** An exception of one LLM call. `retryable`: it looks like a capacity or timeout error;
      `transient`: the error classifier puts it in a category worth trying another key for. */
  datatype Error = Error(text: string, retryable: bool, transient: bool)

  datatype Outcome<+V> = Ok(value: V) | Raised(error: Error)

  /** What the world answers during one call; every key index is asked at most once per call. */
  datatype World<!V> = World(
    ready: nat -> bool,                   // the key's circuit breaker lets it through
    creation: nat -> Option<Error>,       // error while building the raw provider, if any
    operation: (nat, nat) -> Outcome<V>)  // key index and retry number

  // ----- what happens to one key -----

  datatype Verdict<+V> =
    | Skipped
    | NotCreated(error: Error)
    | Answered(value: V)
    | Rotated(error: Error)  // failed for now: the only verdict the circuit breaker hears about
    | Aborted(error: Error)  // the error goes to the caller
  {
    predicate Passes() { Skipped? || NotCreated? || Rotated? }
  }

  /** The retry at which the key's fate is settled: the first one without a retryable error, or the
      last one allowed. */
  ghost predicate Settles<V>(w: World<V>, idx: nat, retry: nat) {
    && retry < MAX_RETRIES_PER_KEY
    && (forall r: nat :: r < retry ==> RaisesRetryable(w.operation(idx, r)))
    && (RaisesRetryable(w.operation(idx, retry)) ==> retry == MAX_RETRIES_PER_KEY - 1)
  }

  predicate RaisesRetryable<V>(o: Outcome<V>) { o.Raised? && o.error.retryable }

  ghost predicate IsVerdict<V>(w: World<V>, idx: nat, v: Verdict<V>) {
    match v
    case Skipped => !w.ready(idx)
    case NotCreated(e) => w.ready(idx) && w.creation(idx) == Some(e)
    case Answered(x) =>
      && w.ready(idx) && w.creation(idx).None?
      && exists r: nat :: Settles(w, idx, r) && w.operation(idx, r) == Ok(x)
    case Rotated(e) =>
      && w.ready(idx) && w.creation(idx).None? && e.retryable && e.transient
      && Settles(w, idx, MAX_RETRIES_PER_KEY - 1) && w.operation(idx, MAX_RETRIES_PER_KEY - 1) == Raised(e)
    case Aborted(e) =>
      && w.ready(idx) && w.creation(idx).None? && !(e.retryable && e.transient)
      && exists r: nat :: Settles(w, idx, r) && w.operation(idx, r) == Raised(e)
  }

  lemma {:induction false} VerdictUnique<V>(w: World<V>, idx: nat, u: Verdict<V>, v: Verdict<V>)
    requires IsVerdict(w, idx, u) && IsVerdict(w, idx, v)
    ensures u == v
  {
    forall r: nat, s: nat | Settles(w, idx, r) && Settles(w, idx, s) ensures r == s {
    }
  }

  /** One line of the journal: the key, its fate, the calls made on it and the seconds slept. */
  datatype Report<+V> = Report(idx: nat, verdict: Verdict<V>, calls: nat, slept: real)

  ghost predicate ReportOf<V>(w: World<V>, idx: nat, r: Report<V>) {
    && r.idx == idx && IsVerdict(w, idx, r.verdict)
    && (r.calls == 0 <==> r.verdict.Skipped? || r.verdict.NotCreated?)
    && (r.calls > 0 ==> Settles(w, idx, r.calls - 1))
    && r.slept == (if r.calls <= 1 then 0.0 else if r.calls == 2 then 1.0 else 3.0)
  }

  // ----- the cyclic order -----

  function At(start: nat, attempt: nat, n: nat): (i: nat)
    requires n > 0
    ensures i < n
  {
    (start + attempt) % n
  }

  lemma QuotientUnique(x: int, q: int, r: int, n: int)
    requires n > 0 && x == q * n + r && 0 <= r < n
    ensures x % n == r && x / n == q
  {
    var d := x / n - q;
    assert d * n == r - x % n;
    assert d >= 1 ==> d * n >= n;
    assert d <= -1 ==> d * n <= -n;
  }

  lemma ModSuccessor(x: nat, n: nat)
    requires n > 0
    ensures (x + 1) % n == (if x % n + 1 == n then 0 else x % n + 1)
    ensures (x + 1) / n == (if x % n + 1 == n then x / n + 1 else x / n)
  {
    if x % n + 1 == n {
      QuotientUnique(x + 1, x / n + 1, 0, n);
    } else {
      QuotientUnique(x + 1, x / n, x % n + 1, n);
    }
  }

  lemma AtTwice(start: nat, n: nat)
    requires start < n
    ensures At(At(start, 1, n), 1, n) == At(start, 2, n)
  {
    ModSuccessor(start + 1, n);
    ModSuccessor(At(start, 1, n), n);
    QuotientUnique(At(start, 1, n), 0, At(start, 1, n), n);
  }

  /** The attempt that visits key i. */
  function AttemptOf(start: nat, i: nat, n: nat): nat
    requires start < n && i < n
  {
    if i >= start then i - start else i - start + n
  }

  /** From any start the n attempts visit every key exactly once. */
  lemma CycleIsPermutation(start: nat, n: nat)
    requires start < n
    ensures forall a, b :: 0 <= a < b < n ==> At(start, a, n) != At(start, b, n)
    ensures forall i :: 0 <= i < n ==> AttemptOf(start, i, n) < n && At(start, AttemptOf(start, i, n), n) == i
  {
    forall a | 0 <= a < n
      ensures At(start, a, n) == if start + a < n then start + a else start + a - n
    {
      QuotientUnique(start + a, if start + a < n then 0 else 1, if start + a < n then start + a else start + a - n, n);
    }
  }

  /** How many of m consecutive reservations, the first of which hands out `start`, hand out i. */
  function TimesReserved(start: nat, m: nat, n: nat, i: nat): nat
    requires start < n
  {
    if m == 0 then 0 else TimesReserved(start, m - 1, n, i) + (if At(start, m - 1, n) == i then 1 else 0)
  }

  lemma {:induction false} TimesReservedExactly(start: nat, m: nat, n: nat, i: nat)
    requires start < n && i < n
    ensures var first := AttemptOf(start, i, n);
            && TimesReserved(start, m, n, i) == m / n + (if first < m % n then 1 else 0)
            && At(start, m, n) == (if start + m % n < n then start + m % n else start + m % n - n)
  {
    if m == 0 {
      QuotientUnique(0, 0, 0, n);
      QuotientUnique(start, 0, start, n);
    } else {
      TimesReservedExactly(start, m - 1, n, i);
      ModSuccessor(m - 1, n);
      ModSuccessor(start + m - 1, n);
    }
  }

  /** Round robin is fair: over any window of m reservations on n keys every key is the start
      either floor(m/n) or ceil(m/n) times. */
  lemma ReservationsAreFair(start: nat, m: nat, n: nat, i: nat)
    requires start < n && i < n
    ensures m / n <= TimesReserved(start, m, n, i) <= m / n + (if m % n == 0 then 0 else 1)
  {
    TimesReservedExactly(start, m, n, i);
  }

  // ----- the provider -----

  datatype Result<+V> =
    | Success(value: V)
    | Propagated(error: Error)
    | Exhausted(lastError: Option<Error>, skipped: nat)
    | BudgetExhausted

  function SkippedCount<V>(journal: seq<Report<V>>): nat {
    if journal == [] then 0
    else SkippedCount(journal[..|journal| - 1]) + (if journal[|journal| - 1].verdict.Skipped? then 1 else 0)
  }

  function LastError<V>(journal: seq<Report<V>>): Option<Error> {
    if journal == [] then None
    else
      var v := journal[|journal| - 1].verdict;
      if v.NotCreated? || v.Rotated? then Some(v.error) else LastError(journal[..|journal| - 1])
  }

  function RotatedKeys<V>(journal: seq<Report<V>>): seq<nat> {
    if journal == [] then []
    else
      var r := journal[|journal| - 1];
      RotatedKeys(journal[..|journal| - 1]) + (if r.verdict.Rotated? then [r.idx] else [])
  }

  function CreatedKeys<V>(journal: seq<Report<V>>): seq<nat> {
    if journal == [] then []
    else
      var r := journal[|journal| - 1];
      CreatedKeys(journal[..|journal| - 1]) + (if r.calls > 0 then [r.idx] else [])
  }

  /** The rule the retry loop follows: keys in cyclic order from the reserved start, each at most
      once; the first success wins, an error that is not worth rotating stops, and otherwise the
      provider is exhausted. The journal lists the keys actually considered. */
  ghost predicate Follows<V>(w: World<V>, start: nat, n: nat, journal: seq<Report<V>>, result: Result<V>)
    requires n > 0
  {
    && |journal| <= n
    && (forall a :: 0 <= a < |journal| ==> ReportOf(w, At(start, a, n), journal[a]))
    && (forall a :: 0 <= a < |journal| - 1 ==> journal[a].verdict.Passes())
    && match result
       case Success(x) => |journal| > 0 && journal[|journal| - 1].verdict == Answered(x)
       case Propagated(e) => |journal| > 0 && journal[|journal| - 1].verdict == Aborted(e)
       case Exhausted(last, skipped) =>
         && |journal| == n && journal[n - 1].verdict.Passes()
         && last == LastError(journal) && skipped == SkippedCount(journal)
       case BudgetExhausted => journal == []
  }

  lemma {:induction false} NoErrorMeansAllSkipped<V>(journal: seq<Report<V>>)
    requires forall a :: 0 <= a < |journal| ==> journal[a].verdict.Passes()
    ensures SkippedCount(journal) <= |journal|
    ensures LastError(journal).None? <==> SkippedCount(journal) == |journal|
  {
    if journal == [] {
    } else {
      NoErrorMeansAllSkipped(journal[..|journal| - 1]);
    }
  }

  /** The rule leaves no freedom: world and start decide the result. */
  lemma {:induction false} OutcomeDetermined<V>(
    w: World<V>, start: nat, n: nat, j: seq<Report<V>>, r: Result<V>, j': seq<Report<V>>, r': Result<V>)
    requires n > 0 && !r.BudgetExhausted? && !r'.BudgetExhausted?
    requires Follows(w, start, n, j, r) && Follows(w, start, n, j', r')
    ensures j == j' && r == r'
  {
    forall a | 0 <= a < |j| && a < |j'| ensures j[a] == j'[a] {
      VerdictUnique(w, At(start, a, n), j[a].verdict, j'[a].verdict);
      assert forall x: nat, y: nat :: Settles(w, At(start, a, n), x) && Settles(w, At(start, a, n), y) ==> x == y;
    }
    var m := (if |j| <= |j'| then |j| else |j'|) - 1;
    assert j[m] == j'[m];
  }

  function TotalCalls<V>(journal: seq<Report<V>>): nat {
    if journal == [] then 0 else TotalCalls(journal[..|journal| - 1]) + journal[|journal| - 1].calls
  }

  function TotalSlept<V>(journal: seq<Report<V>>): real {
    if journal == [] then 0.0 else TotalSlept(journal[..|journal| - 1]) + journal[|journal| - 1].slept
  }

  /** What one call can cost: three operations and three seconds of backoff for each entry considered. */
  lemma {:induction false} CostBounded<V>(w: World<V>, start: nat, n: nat, journal: seq<Report<V>>)
    requires n > 0 && forall a :: 0 <= a < |journal| ==> ReportOf(w, At(start, a, n), journal[a])
    ensures TotalCalls(journal) <= 3 * |journal| && TotalSlept(journal) <= 3.0 * |journal| as real
  {
    if journal == [] {
    } else {
      var m := |journal| - 1;
      CostBounded(w, start, n, journal[..m]);
      assert ReportOf(w, At(start, m, n), journal[m]);
      assert 3.0 * (m + 1) as real == 3.0 * m as real + 3.0;
    }
  }

  /** Over one call no entry of the key list is tried twice, and an exhausted call has considered
      every entry. */
  lemma OneTurnPerKey<V>(w: World<V>, start: nat, n: nat, journal: seq<Report<V>>, result: Result<V>)
    requires start < n && Follows(w, start, n, journal, result)
    ensures forall a, b :: 0 <= a < b < |journal| ==> journal[a].idx != journal[b].idx
    ensures Distinct(RotatedKeys(journal))
    ensures result.Exhausted? ==> forall i :: 0 <= i < n ==> journal[AttemptOf(start, i, n)].idx == i
  {
    CycleIsPermutation(start, n);
    assert forall a :: 0 <= a < |journal| ==> journal[a].idx == At(start, a, n);
    RotatedOnce(journal);
  }

  lemma {:induction false} RotatedMembers<V>(journal: seq<Report<V>>, i: nat)
    requires i in RotatedKeys(journal)
    ensures exists a :: 0 <= a < |journal| && journal[a].idx == i && journal[a].verdict.Rotated?
  {
    var m := |journal| - 1;
    if i in RotatedKeys(journal[..m]) {
      RotatedMembers(journal[..m], i);
      var a :| 0 <= a < m && journal[..m][a].idx == i && journal[..m][a].verdict.Rotated?;
      assert journal[a] == journal[..m][a];
    } else {
      assert journal[m].idx == i;
    }
  }

  lemma {:induction false} RotatedOnce<V>(journal: seq<Report<V>>)
    requires forall a, b :: 0 <= a < b < |journal| ==> journal[a].idx != journal[b].idx
    ensures Distinct(RotatedKeys(journal))
  {
    if journal == [] {
    } else {
      var m := |journal| - 1;
      RotatedOnce(journal[..m]);
      if journal[m].idx in RotatedKeys(journal[..m]) {
        RotatedMembers(journal[..m], journal[m].idx);
        assert false;
      }
    }
  }

  // ----- the call in terms of what the world answers -----

  /** Nothing is tried on a key that is not ready or whose provider cannot be built. */
  predicate Untried<V>(w: World<V>, k: nat) { !w.ready(k) || w.creation(k).Some? }

  lemma {:induction false} SettledAt<V>(w: World<V>, k: nat, r: Report<V>)
    requires ReportOf(w, k, r) && !Untried(w, k)
    ensures 1 <= r.calls <= 3
    ensures forall q: nat :: q < r.calls - 1 ==> w.operation(k, q).Raised? && w.operation(k, q).error.retryable
    ensures match w.operation(k, r.calls - 1)
            case Ok(x) => r.verdict == Answered(x)
            case Raised(e) =>
              && (e.retryable ==> r.calls == 3)
              && r.verdict == if e.retryable && e.transient then Rotated(e) else Aborted(e)
  {
    assert forall x: nat, y: nat :: Settles(w, k, x) && Settles(w, k, y) ==> x == y;
    assert forall q: nat :: q < r.calls - 1 ==> RaisesRetryable(w.operation(k, q));
  }

  /** For each entry considered: a key that is not ready or has no provider is passed over. Any other
      gets operations until one does not raise a retryable error, three at most. An answer is the
      result. An error that is not worth rotating is raised and ends the call, and no breaker hears of
      it. An error that is lets the call go on, and the key is reported as failed. */
  lemma {:induction false} CallMeans<V>(
    w: World<V>, start: nat, n: nat, journal: seq<Report<V>>, result: Result<V>, a: nat)
    requires start < n && Follows(w, start, n, journal, result) && a < |journal|
    ensures journal[a].idx == (start + a) % n
    ensures var k, last, calls := (start + a) % n, a == |journal| - 1, journal[a].calls;
            if !w.ready(k) || w.creation(k).Some? then
              calls == 0 && k !in RotatedKeys(journal) && (last ==> result.Exhausted?)
            else
              && 1 <= calls <= 3
              && (forall q: nat :: q < calls - 1 ==> w.operation(k, q).Raised? && w.operation(k, q).error.retryable)
              && match w.operation(k, calls - 1)
                 case Ok(x) => last && result == Success(x) && k !in RotatedKeys(journal)
                 case Raised(e) =>
                   && (e.retryable ==> calls == 3)
                   && if e.retryable && e.transient then
                        k in RotatedKeys(journal) && (last ==> result.Exhausted?)
                      else last && result == Propagated(e) && k !in RotatedKeys(journal)
    ensures journal[a].slept == if journal[a].calls <= 1 then 0.0 else if journal[a].calls == 2 then 1.0 else 3.0
  {
    OneTurnPerKey(w, start, n, journal, result);
    RotatedIff(journal, a);
    assert ReportOf(w, At(start, a, n), journal[a]);
    if !Untried(w, (start + a) % n) {
      SettledAt(w, (start + a) % n, journal[a]);
    }
  }

  /** Only entries considered are reported as failed, and all entries have been considered iff the
      call is exhausted. */
  lemma {:induction false} CallEnds<V>(w: World<V>, start: nat, n: nat, journal: seq<Report<V>>, result: Result<V>)
    requires start < n && Follows(w, start, n, journal, result)
    ensures journal == [] <==> result.BudgetExhausted?
    ensures result.Exhausted? ==> |journal| == n
    ensures forall k :: k in RotatedKeys(journal) ==> exists a :: 0 <= a < |journal| && journal[a].idx == k
  {
    forall k | k in RotatedKeys(journal) ensures exists a :: 0 <= a < |journal| && journal[a].idx == k {
      RotatedMembers(journal, k);
    }
  }

  lemma {:induction false} RotatedIff<V>(journal: seq<Report<V>>, a: nat)
    requires a < |journal| && forall b, c :: 0 <= b < c < |journal| ==> journal[b].idx != journal[c].idx
    ensures journal[a].idx in RotatedKeys(journal) <==> journal[a].verdict.Rotated?
  {
    if journal[a].verdict.Rotated? {
      RotatedListed(journal, a);
    } else if journal[a].idx in RotatedKeys(journal) {
      RotatedMembers(journal, journal[a].idx);
      assert false;
    }
  }

  lemma {:induction false} RotatedListed<V>(journal: seq<Report<V>>, a: nat)
    requires a < |journal| && journal[a].verdict.Rotated?
    ensures journal[a].idx in RotatedKeys(journal)
  {
    if a == |journal| - 1 {
    } else {
      RotatedListed(journal[..|journal| - 1], a);
    }
  }

  /** The same for the whole call: which errors end it, and which keys are reported as failed. */
  lemma {:induction false} CallTells<V>(w: World<V>, start: nat, n: nat, journal: seq<Report<V>>, result: Result<V>)
    requires start < n && Follows(w, start, n, journal, result)
    ensures forall a :: 0 <= a < |journal| && journal[a].calls > 0 ==>
              var o := w.operation(journal[a].idx, journal[a].calls - 1);
              o.Raised? && !(o.error.retryable && o.error.transient) ==>
                a == |journal| - 1 && result == Propagated(o.error) && journal[a].idx !in RotatedKeys(journal)
    ensures forall a :: 0 <= a < |journal| ==>
              (journal[a].idx in RotatedKeys(journal) <==>
               && journal[a].calls == 3
               && forall q: nat :: q < 3 ==>
                    && w.operation(journal[a].idx, q).Raised? && w.operation(journal[a].idx, q).error.retryable
                    && (q == 2 ==> w.operation(journal[a].idx, q).error.transient))
  {
    forall a | 0 <= a < |journal|
      ensures journal[a].calls > 0 ==>
                var o := w.operation(journal[a].idx, journal[a].calls - 1);
                o.Raised? && !(o.error.retryable && o.error.transient) ==>
                  a == |journal| - 1 && result == Propagated(o.error) && journal[a].idx !in RotatedKeys(journal)
      ensures journal[a].idx in RotatedKeys(journal) <==>
              && journal[a].calls == 3
              && forall q: nat :: q < 3 ==>
                   && w.operation(journal[a].idx, q).Raised? && w.operation(journal[a].idx, q).error.retryable
                   && (q == 2 ==> w.operation(journal[a].idx, q).error.transient)
    {
      CallMeans(w, start, n, journal, result, a);
    }
  }

  /** The error an exhausted call carries is that of the last entry that was ready. */
  lemma {:induction false} LastErrorMeans<V>(
    w: World<V>, start: nat, n: nat, journal: seq<Report<V>>, result: Result<V>, a: nat)
    requires start < n && Follows(w, start, n, journal, result) && result.Exhausted?
    requires a < n && w.ready((start + a) % n)
    requires forall b :: a < b < |journal| ==> !w.ready(journal[b].idx)
    ensures var k := (start + a) % n;
            if w.creation(k).Some? then result.lastError == Some(w.creation(k).value)
            else w.operation(k, 2).Raised? && result.lastError == Some(w.operation(k, 2).error)
  {
    forall b | a < b < n ensures journal[b].verdict.Skipped? {
      assert ReportOf(w, At(start, b, n), journal[b]);
    }
    LastErrorAt(journal, a);
    assert ReportOf(w, At(start, a, n), journal[a]);
  }

  lemma {:induction false} LastErrorAt<V>(journal: seq<Report<V>>, a: nat)
    requires a < |journal| && forall b :: a < b < |journal| ==> journal[b].verdict.Skipped?
    ensures LastError(journal) == LastError(journal[..a + 1])
  {
    if a == |journal| - 1 {
      assert journal[..a + 1] == journal;
    } else {
      var shorter := journal[..|journal| - 1];
      LastErrorAt(shorter, a);
      assert shorter[..a + 1] == journal[..a + 1];
    }
  }

  // ----- which breaker hears of it -----

  /** What a breaker is filed under. */
  type CacheKey = (string, string)

  /** The slot id of the entry, or the key itself if the entry has none. */
  function CacheKeyOf(provider: string, slotIds: seq<string>, keys: seq<string>, i: nat): CacheKey
    requires i < |keys|
  {
    (provider, if i < |slotIds| then slotIds[i] else keys[i])
  }

  function CacheKeysOf(provider: string, slotIds: seq<string>, keys: seq<string>): (cacheKeys: seq<CacheKey>)
    ensures |cacheKeys| == |keys|
  {
    seq(|keys|, i requires 0 <= i < |keys| => CacheKeyOf(provider, slotIds, keys, i))
  }

  /** Without slots the breakers are as different as the keys; with a slot for each entry, as the
      slots. */
  lemma {:induction false} CacheKeysDiffer(provider: string, slotIds: seq<string>, keys: seq<string>)
    ensures slotIds == [] ==> (Distinct(CacheKeysOf(provider, slotIds, keys)) <==> Distinct(keys))
    ensures |slotIds| == |keys| ==> (Distinct(CacheKeysOf(provider, slotIds, keys)) <==> Distinct(slotIds))
  {
    var cacheKeys := CacheKeysOf(provider, slotIds, keys);
    if |slotIds| == |keys| {
      assert forall i :: 0 <= i < |keys| ==> cacheKeys[i] == (provider, slotIds[i]);
    }
    if slotIds == [] {
      assert forall i :: 0 <= i < |keys| ==> cacheKeys[i] == (provider, keys[i]);
    }
  }

  ghost predicate TellsOf<V>(cacheKeys: seq<CacheKey>, r: Report<V>, breaker: CacheKey) {
    r.verdict.Rotated? && r.idx < |cacheKeys| && cacheKeys[r.idx] == breaker
  }

  /** How many failures a breaker hears of in the course of a call. */
  ghost function FailuresHeard<V>(cacheKeys: seq<CacheKey>, journal: seq<Report<V>>, breaker: CacheKey): nat {
    if journal == [] then 0
    else
      var n := |journal| - 1;
      FailuresHeard(cacheKeys, journal[..n], breaker) + (if TellsOf(cacheKeys, journal[n], breaker) then 1 else 0)
  }

  /** Exactly as many as there are such reports: none, one, or more. */
  lemma {:induction false} HeardAtMostOnce<V>(cacheKeys: seq<CacheKey>, journal: seq<Report<V>>, breaker: CacheKey)
    ensures FailuresHeard(cacheKeys, journal, breaker) == 0 <==>
            forall a :: 0 <= a < |journal| ==> !TellsOf(cacheKeys, journal[a], breaker)
    ensures FailuresHeard(cacheKeys, journal, breaker) <= 1 <==>
            forall a, b :: 0 <= a < b < |journal| ==>
              !TellsOf(cacheKeys, journal[a], breaker) || !TellsOf(cacheKeys, journal[b], breaker)
  {
    if journal == [] {
    } else {
      var n := |journal| - 1;
      HeardAtMostOnce(cacheKeys, journal[..n], breaker);
      assert forall a :: 0 <= a < n ==> journal[..n][a] == journal[a];
    }
  }

  /** In every call on these entries every breaker hears of one failure at most. */
  ghost predicate OneFailureEach<V(!new)>(cacheKeys: seq<CacheKey>, start: nat)
    requires start < |cacheKeys|
  {
    forall w: World<V>, journal: seq<Report<V>>, result: Result<V>, breaker: CacheKey ::
      Follows(w, start, |cacheKeys|, journal, result) ==> FailuresHeard(cacheKeys, journal, breaker) <= 1
  }

  lemma {:induction false} DifferentHearOnce<V>(
    cacheKeys: seq<CacheKey>, w: World<V>, start: nat, journal: seq<Report<V>>, result: Result<V>, breaker: CacheKey)
    requires Distinct(cacheKeys) && start < |cacheKeys| && Follows(w, start, |cacheKeys|, journal, result)
    ensures FailuresHeard(cacheKeys, journal, breaker) <= 1
  {
    OneTurnPerKey(w, start, |cacheKeys|, journal, result);
    HeardAtMostOnce(cacheKeys, journal, breaker);
  }

  /** Every operation on every key fails for now. */
  function AllDown<V>(e: Error): World<V> { World(_ => true, _ => None, (_, _) => Raised(e)) }

  function AllRotated<V>(e: Error, start: nat, n: nat): (journal: seq<Report<V>>)
    requires n > 0
    ensures |journal| == n
  {
    seq(n, a requires 0 <= a < n => Report(At(start, a, n), Rotated(e), 3, 3.0))
  }

  lemma {:induction false} AllDownRotates<V>(e: Error, start: nat, n: nat)
    requires n > 0 && e.retryable && e.transient
    ensures var journal: seq<Report<V>> := AllRotated(e, start, n);
            Follows(AllDown(e), start, n, journal, Exhausted(LastError(journal), SkippedCount(journal)))
  {
    var w: World<V> := AllDown(e);
    assert forall i: nat :: Settles(w, i, 2);
    assert forall i: nat :: IsVerdict(w, i, Rotated(e));
  }

  lemma {:induction false} SharedHearsTwice<V>(cacheKeys: seq<CacheKey>, start: nat, i: nat, j: nat, e: Error)
    requires start < |cacheKeys| && i < j < |cacheKeys| && cacheKeys[i] == cacheKeys[j]
    ensures FailuresHeard(cacheKeys, AllRotated<V>(e, start, |cacheKeys|), cacheKeys[i]) > 1
  {
    var n := |cacheKeys|;
    var journal: seq<Report<V>> := AllRotated(e, start, n);
    CycleIsPermutation(start, n);
    HeardAtMostOnce(cacheKeys, journal, cacheKeys[i]);
    var a, b := AttemptOf(start, i, n), AttemptOf(start, j, n);
    assert journal[a].idx == i && journal[b].idx == j;
    assert TellsOf(cacheKeys, journal[a], cacheKeys[i]) && TellsOf(cacheKeys, journal[b], cacheKeys[i]);
  }

  /** Whatever the world does, no breaker hears of two failures in one call iff the entries have
      different breakers. */
  lemma {:induction false} OneFailurePerBreaker<V(!new)>(cacheKeys: seq<CacheKey>, start: nat)
    requires start < |cacheKeys|
    ensures OneFailureEach<V>(cacheKeys, start) <==> Distinct(cacheKeys)
  {
    if Distinct(cacheKeys) {
      forall w: World<V>, journal: seq<Report<V>>, result: Result<V>, breaker: CacheKey
        | Follows(w, start, |cacheKeys|, journal, result)
        ensures FailuresHeard(cacheKeys, journal, breaker) <= 1
      {
        DifferentHearOnce(cacheKeys, w, start, journal, result, breaker);
      }
    } else {
      var i, j :| 0 <= i < j < |cacheKeys| && cacheKeys[i] == cacheKeys[j];
      var e := Error("", true, true);
      AllDownRotates<V>(e, start, |cacheKeys|);
      SharedHearsTwice<V>(cacheKeys, start, i, j, e);
      assert !(FailuresHeard(cacheKeys, AllRotated<V>(e, start, |cacheKeys|), cacheKeys[i]) <= 1);
    }
  }

  lemma {:induction false} TwoReports<V>(cacheKeys: seq<CacheKey>, journal: seq<Report<V>>, breaker: CacheKey)
    requires |journal| == 2
    ensures TotalCalls(journal) == journal[0].calls + journal[1].calls
    ensures TellsOf(cacheKeys, journal[0], breaker) && TellsOf(cacheKeys, journal[1], breaker) ==>
              FailuresHeard(cacheKeys, journal, breaker) == 2
  {
    var one, none := journal[..1], journal[..1][..0];
    assert TotalCalls(none) == 0 && FailuresHeard(cacheKeys, none, breaker) == 0;
    assert TotalCalls(one) == TotalCalls(none) + one[0].calls;
    assert FailuresHeard(cacheKeys, one, breaker) == if TellsOf(cacheKeys, one[0], breaker) then 1 else 0;
  }

  /** The key list "k,k" without slots: one call makes six operations on k, and its breaker hears of
      two failures. */
  lemma {:induction false} RepeatedKey<V>(e: Error) returns (w: World<V>, journal: seq<Report<V>>, result: Result<V>)
    requires e.retryable && e.transient
    ensures Follows(w, 0, 2, journal, result)
    ensures FailuresHeard(CacheKeysOf("p", [], ["k", "k"]), journal, ("p", "k")) == 2 && TotalCalls(journal) == 6
  {
    w, journal := AllDown(e), AllRotated(e, 0, 2);
    result := Exhausted(LastError(journal), SkippedCount(journal));
    AllDownRotates<V>(e, 0, 2);
    var cacheKeys := CacheKeysOf("p", [], ["k", "k"]);
    assert cacheKeys[0] == ("p", "k") && cacheKeys[1] == ("p", "k");
    assert journal[0].idx == 0 && journal[1].idx == 1;
    TwoReports(cacheKeys, journal, ("p", "k"));
  }

  // ----- the loop -----

  /** Every key considered so far let the loop go on. */
  ghost predicate AllPassed<V>(w: World<V>, start: nat, n: nat, journal: seq<Report<V>>)
    requires n > 0
  {
    forall a :: 0 <= a < |journal| ==> ReportOf(w, At(start, a, n), journal[a]) && journal[a].verdict.Passes()
  }

  lemma NextReport<V>(w: World<V>, start: nat, n: nat, journal: seq<Report<V>>, r: Report<V>)
    requires |journal| < n && AllPassed(w, start, n, journal) && ReportOf(w, At(start, |journal|, n), r)
    ensures r.verdict.Passes() ==> AllPassed(w, start, n, journal + [r])
    ensures r.verdict.Answered? ==> Follows(w, start, n, journal + [r], Success(r.verdict.value))
    ensures r.verdict.Aborted? ==> Follows(w, start, n, journal + [r], Propagated(r.verdict.error))
  {
  }

  lemma JournalGrows<V>(journal: seq<Report<V>>, r: Report<V>)
    ensures RotatedKeys(journal + [r]) == RotatedKeys(journal) + (if r.verdict.Rotated? then [r.idx] else [])
    ensures CreatedKeys(journal + [r]) == CreatedKeys(journal) + (if r.calls > 0 then [r.idx] else [])
    ensures SkippedCount(journal + [r]) == SkippedCount(journal) + (if r.verdict.Skipped? then 1 else 0)
    ensures LastError(journal + [r]) ==
              if r.verdict.NotCreated? || r.verdict.Rotated? then Some(r.verdict.error) else LastError(journal)
  {
    assert (journal + [r])[..|journal|] == journal;
  }

  // ----- streaming -----

  /** How one key's stream ended, with the tokens already handed to the reader by then. */
  datatype StreamEnd<+V> =
    | Finished(tokens: seq<V>)
    | Unsupported(tokens: seq<V>)
    | Broke(tokens: seq<V>, error: Error)
  {
    predicate Passes() { Unsupported? || (Broke? && error.retryable) }
  }

  datatype StreamWorld<!V> = StreamWorld(
    ready: nat -> bool,
    builds: nat -> bool,           // the raw provider could be built; if not, the stream broke at once
    stream: nat -> StreamEnd<V>)

  /** The keys among the first `attempts` whose breaker is told about a failure. */
  function BrokenKeys<V>(w: StreamWorld<V>, start: nat, attempts: nat, n: nat): seq<nat>
    requires n > 0
  {
    if attempts == 0 then []
    else
      var k := At(start, attempts - 1, n);
      BrokenKeys(w, start, attempts - 1, n) +
      (if w.ready(k) && w.stream(k).Broke? && w.stream(k).error.retryable then [k] else [])
  }

  /** The keys among the first `attempts` for which a raw provider was built. */
  function BuiltKeys<V>(w: StreamWorld<V>, start: nat, attempts: nat, n: nat): seq<nat>
    requires n > 0
  {
    if attempts == 0 then []
    else
      var k := At(start, attempts - 1, n);
      BuiltKeys(w, start, attempts - 1, n) + (if w.ready(k) && w.builds(k) then [k] else [])
  }

  /** What the reader has received after the first `attempts` keys. */
  function Received<V>(w: StreamWorld<V>, start: nat, attempts: nat, n: nat): seq<V>
    requires n > 0
  {
    if attempts == 0 then []
    else
      var k := At(start, attempts - 1, n);
      Received(w, start, attempts - 1, n) + (if w.ready(k) then w.stream(k).tokens else [])
  }

  ghost predicate KeyPasses<V>(w: StreamWorld<V>, k: nat) {
    w.ready(k) ==> w.stream(k).Passes()
  }

  /** None of the keys tried so far has handed over anything. */
  ghost predicate NothingSent<V>(w: StreamWorld<V>, start: nat, attempts: nat, n: nat)
    requires n > 0
  {
    forall a :: 0 <= a < attempts && w.ready(At(start, a, n)) ==> w.stream(At(start, a, n)).tokens == []
  }

  /** Nothing is taken back when a stream breaks: the reader gets exactly the text of the key that
      finishes iff every key tried before it had sent nothing. */
  lemma {:induction false} RestartedStreamRepeats<V>(
    w: StreamWorld<V>, start: nat, attempts: nat, n: nat, tokens: seq<V>)
    requires n > 0
    ensures Received(w, start, attempts, n) + tokens == tokens <==> NothingSent(w, start, attempts, n)
  {
    if attempts == 0 {
    } else {
      RestartedStreamRepeats(w, start, attempts - 1, n, tokens);
      var before := Received(w, start, attempts - 1, n);
      assert |before + tokens| == |tokens| <==> before == [];
      var k := At(start, attempts - 1, n);
      assert Received(w, start, attempts, n) == [] <==> before == [] && (w.ready(k) ==> w.stream(k).tokens == []);
    }
    var r := Received(w, start, attempts, n);
    assert |r + tokens| == |tokens| <==> r == [];
    assert r == [] ==> r + tokens == tokens;
  }

  datatype StreamResult<+V> = Streamed | StreamRaised(error: Error) | FellBack(result: Result<V>)
  {
    function Error(): Option<Error> { if StreamRaised? then Some(error) else None }
  }

  /** How the streaming attempts ended: `tried` keys passed, and either none is left or the next one
      finished or raised. */
  ghost predicate StreamEnds<V>(w: StreamWorld<V>, start: nat, n: nat, tried: nat, raised: Option<Error>)
    requires n > 0
  {
    && tried <= n
    && (forall a :: 0 <= a < tried ==> KeyPasses(w, At(start, a, n)))
    && if tried == n then raised.None?
       else
         var k := At(start, tried, n);
         && w.ready(k)
         && if raised.None? then w.stream(k).Finished?
            else w.stream(k).Broke? && w.stream(k).error == raised.value && !raised.value.retryable
  }

  /** The text handed to the reader, the keys whose breaker is told of a failure or a success, and how
      often the provider's own metrics record a failure. */
  datatype Told<+V> = Told(emitted: seq<V>, failures: seq<nat>, successes: seq<nat>, providerFailures: nat)

  /** After the streaming attempts. */
  function ToldByStream<V>(w: StreamWorld<V>, start: nat, n: nat, tried: nat, raised: Option<Error>): Told<V>
    requires n > 0
  {
    var k := At(start, tried, n);
    var received, broken := Received(w, start, tried, n), BrokenKeys(w, start, tried, n);
    if tried == n then Told(received, broken, [], if broken == [] then 0 else 1)
    else Told(received + w.stream(k).tokens, broken, if raised.None? then [k] else [], 0)
  }

  /** After the plain call, too. */
  function ToldByAnswer<V>(told: Told<V>, journal: seq<Report<V>>, answer: Result<V>): Told<V>
    requires answer.Success? ==> journal != []
  {
    Told(told.emitted + (if answer.Success? then [answer.value] else []),
         told.failures + RotatedKeys(journal),
         if answer.Success? then [journal[|journal| - 1].idx] else [],
         told.providerFailures + (if answer.Exhausted? then 1 else 0))
  }

  lemma {:induction false} BrokenAre<V>(w: StreamWorld<V>, start: nat, m: nat, n: nat, a: nat)
    requires start < n && a < n && m <= n
    ensures (start + a) % n in BrokenKeys(w, start, m, n) <==>
            a < m && w.ready((start + a) % n) && w.stream((start + a) % n).Broke?
            && w.stream((start + a) % n).error.retryable
  {
    if m == 0 {
    } else {
      BrokenAre(w, start, m - 1, n, a);
      CycleIsPermutation(start, n);
      assert At(start, a, n) == At(start, m - 1, n) <==> a == m - 1;
    }
  }

  /** The streaming attempts, entry by entry: an entry is passed over if it is not ready, cannot stream
      or breaks with a retryable error, and only in the last case its breaker hears of a failure. The
      first other entry finishes the stream and its breaker hears so, or its error is raised. */
  lemma {:induction false} StreamMeans<V>(
    w: StreamWorld<V>, start: nat, n: nat, tried: nat, raised: Option<Error>, a: nat)
    requires start < n && StreamEnds(w, start, n, tried, raised) && a < n
    ensures var k, told := (start + a) % n, ToldByStream(w, start, n, tried, raised);
            && (a < tried ==>
                  !w.ready(k) || w.stream(k).Unsupported? || (w.stream(k).Broke? && w.stream(k).error.retryable))
            && (k in told.failures <==> a < tried && w.ready(k) && w.stream(k).Broke?)
            && (a == tried ==>
                  && w.ready(k)
                  && match w.stream(k)
                     case Finished(_) => raised.None? && told.successes == [k]
                     case Unsupported(_) => false
                     case Broke(_, e) => !e.retryable && raised == Some(e) && told.successes == [])
    ensures var told := ToldByStream(w, start, n, tried, raised);
            && (tried == n ==> raised.None? && told.successes == [])
            && told.providerFailures == if tried == n && told.failures != [] then 1 else 0
  {
    BrokenAre(w, start, tried, n, a);
    if a <= tried {
      assert a < tried ==> KeyPasses(w, At(start, a, n));
    }
  }

  /** The reader gets the answer and nothing else iff no key tried in vain had sent anything, whether
      the answer is streamed in the end or comes from the plain call. */
  lemma AnswerArrivesAlone<V>(
    w: StreamWorld<V>, start: nat, n: nat, tried: nat, journal: seq<Report<V>>, answer: Result<V>)
    requires n > 0 && tried <= n && (answer.Success? ==> journal != [])
    ensures tried < n ==>
              (ToldByStream(w, start, n, tried, None).emitted == w.stream(At(start, tried, n)).tokens <==>
               NothingSent(w, start, tried, n))
    ensures answer.Success? ==>
              (ToldByAnswer(ToldByStream(w, start, n, n, None), journal, answer).emitted == [answer.value] <==>
               NothingSent(w, start, n, n))
  {
    RestartedStreamRepeats(w, start, tried, n, w.stream(At(start, tried, n)).tokens);
    if answer.Success? {
      RestartedStreamRepeats(w, start, n, n, [answer.value]);
    }
  }

  /** Two keys: the stream of the first breaks after "a", the second streams "a"; the reader gets
      "aa". */
  lemma ReaderHearsTwice(e: Error) returns (w: StreamWorld<char>)
    requires e.retryable
    ensures w.stream(0) == Broke("a", e) && w.stream(1) == Finished("a")
    ensures StreamEnds(w, 0, 2, 1, None)
    ensures ToldByStream(w, 0, 2, 1, None) == Told("aa", [0], [1], 0)
  {
    w := StreamWorld(_ => true, _ => true, (k: nat) => if k == 0 then Broke("a", e) else Finished("a"));
    assert At(0, 0, 2) == 0 && At(0, 1, 2) == 1;
    assert Received(w, 0, 0, 2) == [] && Received(w, 0, 1, 2) == "a";
    assert BrokenKeys(w, 0, 0, 2) == [] && BrokenKeys(w, 0, 1, 2) == [0];
  }

  class MultiKeyProvider<V(!new)> {
    const keys: nat
    const cacheKeys: seq<CacheKey>  // of each entry
    var idx: nat
    var providers: seq<nat>  // key indices of the raw providers created so far

    ghost predicate Valid()
      reads this
    {
      idx < keys == |cacheKeys|
    }

    constructor (provider: string, keys: seq<string>, slotIds: seq<string>)
      requires keys != []
      ensures Valid() && this.keys == |keys| && cacheKeys == CacheKeysOf(provider, slotIds, keys)
      ensures forall i :: 0 <= i < |keys| ==> cacheKeys[i] == (provider, if i < |slotIds| then slotIds[i] else keys[i])
      ensures idx == 0 && providers == []
    {
      this.keys, cacheKeys, idx, providers := |keys|, CacheKeysOf(provider, slotIds, keys), 0, [];
    }

    method ReserveStartIdx() returns (start: nat)
      requires Valid()
      modifies this`idx
      ensures Valid() && start == old(idx)
      ensures idx == At(start, 1, keys)
    {
      start := idx;
      idx := (idx + 1) % keys;
    }

    /** m reservations in a row hand out the cyclic sequence that `TimesReserved` counts. */
    method ReserveMany(m: nat) returns (starts: seq<nat>)
      requires Valid()
      modifies this`idx
      ensures Valid() && |starts| == m
      ensures forall a :: 0 <= a < m ==> starts[a] == At(old(idx), a, keys)
    {
      starts := [];
      QuotientUnique(idx, 0, idx, keys);
      for a := 0 to m
        invariant Valid() && |starts| == a && idx == At(old(idx), a, keys)
        invariant forall b :: 0 <= b < a ==> starts[b] == At(old(idx), b, keys)
      {
        ModSuccessor(old(idx) + a, keys);
        ModSuccessor(idx, keys);
        QuotientUnique(idx, 0, idx, keys);
        var s := ReserveStartIdx();
        starts := starts + [s];
      }
    }

    method TryKey(w: World<V>, k: nat) returns (report: Report<V>)
      modifies this`providers
      ensures ReportOf(w, k, report)
      ensures providers == old(providers) + (if report.calls > 0 then [k] else [])
    {
      if !w.ready(k) {
        return Report(k, Skipped, 0, 0.0);
      }
      var creation := w.creation(k);
      if creation.Some? {
        return Report(k, NotCreated(creation.value), 0, 0.0);
      }
      providers := providers + [k];
      report := Report(k, Skipped, 0, 0.0);
      var slept := 0.0;
      var delay := RETRY_BASE_DELAY;
      for retry := 0 to MAX_RETRIES_PER_KEY
        invariant forall r: nat :: r < retry ==> RaisesRetryable(w.operation(k, r))
        invariant retry < MAX_RETRIES_PER_KEY
        invariant delay == (if retry == 0 then 1.0 else if retry == 1 then 2.0 else 4.0)
        invariant slept == delay - 1.0
      {
        var outcome := w.operation(k, retry);
        if outcome.Ok? {
          assert Settles(w, k, retry);
          return Report(k, Answered(outcome.value), retry + 1, slept);
        }
        if !outcome.error.retryable {
          assert Settles(w, k, retry);
          return Report(k, Aborted(outcome.error), retry + 1, slept);
        }
        if retry < MAX_RETRIES_PER_KEY - 1 {
          slept := slept + delay;
          delay := delay * 2.0;
        } else {
          assert Settles(w, k, retry);
          var verdict := if outcome.error.transient then Rotated(outcome.error) else Aborted(outcome.error);
          return Report(k, verdict, retry + 1, slept);
        }
      }
      assert false;
    }

    /** The loop over the keys. `failures` and `successes` are the keys whose breaker is told. */
    method RotateFrom(w: World<V>, start: nat)
      returns (result: Result<V>, ghost journal: seq<Report<V>>, failures: seq<nat>, successes: seq<nat>)
      requires Valid()
      modifies this`providers
      ensures Follows(w, start, keys, journal, result) && !result.BudgetExhausted?
      ensures failures == RotatedKeys(journal)
      ensures successes == if result.Success? then [journal[|journal| - 1].idx] else []
      ensures providers == old(providers) + CreatedKeys(journal)
    {
      journal, failures, successes := [], [], [];
      var lastError: Option<Error> := None;
      var skipped := 0;
      for attempt := 0 to keys
        invariant |journal| == attempt && AllPassed(w, start, keys, journal)
        invariant failures == RotatedKeys(journal) && successes == []
        invariant providers == old(providers) + CreatedKeys(journal)
        invariant lastError == LastError(journal) && skipped == SkippedCount(journal)
      {
        var k := (start + attempt) % keys;
        var report := TryKey(w, k);
        JournalGrows(journal, report);
        NextReport(w, start, keys, journal, report);
        journal := journal + [report];
        match report.verdict {
          case Skipped =>
            skipped := skipped + 1;
          case NotCreated(e) =>
            lastError := Some(e);
          case Answered(x) =>
            successes := [k];
            return Success(x), journal, failures, successes;
          case Rotated(e) =>
            failures := failures + [k];
            lastError := Some(e);
          case Aborted(e) =>
            return Propagated(e), journal, failures, successes;
        }
      }
      result := Exhausted(lastError, skipped);
    }

    /** `providerFailure`: the provider's own metrics record a failure; `bug`: the branch that logs
        "BUG: skipped != total_keys" runs. */
    method TryWithRetry(w: World<V>, skipBudget: bool, budgetLeft: bool)
      returns (result: Result<V>, ghost journal: seq<Report<V>>,
               failures: seq<nat>, successes: seq<nat>, providerFailure: bool, bug: bool)
      requires Valid()
      modifies this
      ensures Valid()
      ensures Follows(w, old(idx), keys, journal, result)
      ensures result.BudgetExhausted? <==> !skipBudget && !budgetLeft
      ensures idx == if result.BudgetExhausted? then old(idx) else At(old(idx), 1, keys)
      ensures failures == RotatedKeys(journal)
      ensures successes == if result.Success? then [journal[|journal| - 1].idx] else []
      ensures providers == old(providers) + CreatedKeys(journal)
      ensures providerFailure == result.Exhausted?
      ensures !bug
      ensures Distinct(cacheKeys) ==> forall breaker :: FailuresHeard(cacheKeys, journal, breaker) <= 1
      ensures forall a :: 0 <= a < |journal| && journal[a].calls > 0 ==>
                var o := w.operation(journal[a].idx, journal[a].calls - 1);
                o.Raised? && !(o.error.retryable && o.error.transient) ==>
                  a == |journal| - 1 && result == Propagated(o.error) && journal[a].idx !in failures
    {
      providerFailure, bug := false, false;
      if !skipBudget && !budgetLeft {
        return BudgetExhausted, [], [], [], false, false;
      }
      var start := ReserveStartIdx();
      result, journal, failures, successes := RotateFrom(w, start);
      CallTells(w, start, keys, journal, result);
      if Distinct(cacheKeys) {
        forall breaker ensures FailuresHeard(cacheKeys, journal, breaker) <= 1 {
          DifferentHearOnce(cacheKeys, w, start, journal, result, breaker);
        }
      }
      if result.Exhausted? {
        NoErrorMeansAllSkipped(journal);
        bug := result.lastError.None? && result.skipped != keys;
        providerFailure := true;
      }
    }

    /** The streaming attempts. */
    method StreamFrom(w: StreamWorld<V>, start: nat) returns (tried: nat, raised: Option<Error>, told: Told<V>)
      requires Valid()
      modifies this`providers
      ensures StreamEnds(w, start, keys, tried, raised)
      ensures told == ToldByStream(w, start, keys, tried, raised)
      ensures providers == old(providers) + BuiltKeys(w, start, if tried == keys then keys else tried + 1, keys)
    {
      var emitted, failures := [], [];
      for attempt := 0 to keys
        invariant forall a :: 0 <= a < attempt ==> KeyPasses(w, At(start, a, keys))
        invariant emitted == Received(w, start, attempt, keys)
        invariant failures == BrokenKeys(w, start, attempt, keys)
        invariant providers == old(providers) + BuiltKeys(w, start, attempt, keys)
      {
        var k := (start + attempt) % keys;
        assert k == At(start, attempt, keys);
        if w.ready(k) {
          if w.builds(k) {
            providers := providers + [k];
          }
          var end := w.stream(k);
          emitted := emitted + end.tokens;
          match end {
            case Finished(_) =>
              return attempt, None, Told(emitted, failures, [k], 0);
            case Unsupported(_) =>
            case Broke(_, e) =>
              if !e.retryable {
                return attempt, Some(e), Told(emitted, failures, [], 0);
              }
              failures := failures + [k];
          }
        }
      }
      tried, raised, told := keys, None, Told(emitted, failures, [], if failures == [] then 0 else 1);
    }

    /** The plain call at the end of a stream: it reserves a start index of its own and skips the
        budget. */
    method PlainAnswer(w: World<V>, sofar: Told<V>)
      returns (answer: Result<V>, told: Told<V>, ghost journal: seq<Report<V>>)
      requires Valid()
      modifies this
      ensures Valid() && idx == At(old(idx), 1, keys)
      ensures Follows(w, old(idx), keys, journal, answer) && !answer.BudgetExhausted?
      ensures told == ToldByAnswer(sofar, journal, answer)
      ensures providers == old(providers) + CreatedKeys(journal)
    {
      var failures, successes, exhausted, bug;
      answer, journal, failures, successes, exhausted, bug := TryWithRetry(w, true, true);
      told := Told(sofar.emitted + (if answer.Success? then [answer.value] else []), sofar.failures + failures,
                   successes, sofar.providerFailures + (if exhausted then 1 else 0));
    }

    /** Streams from the first key that manages it; when all pass, one plain call supplies the whole
        answer. `told`: what the reader, the breakers and the metrics get. */
    method ChatStream(sw: StreamWorld<V>, w: World<V>)
      returns (result: StreamResult<V>, told: Told<V>, ghost tried: nat, ghost journal: seq<Report<V>>)
      requires Valid()
      modifies this
      ensures Valid() && idx == At(old(idx), if result.FellBack? then 2 else 1, keys)
      ensures StreamEnds(sw, old(idx), keys, tried, result.Error())
      ensures result.FellBack? <==> tried == keys
      ensures providers == old(providers) + BuiltKeys(sw, old(idx), if tried == keys then keys else tried + 1, keys)
                                          + CreatedKeys(journal)
      ensures !result.FellBack? ==>
                journal == [] && told == ToldByStream(sw, old(idx), keys, tried, result.Error())
      ensures result.FellBack? ==>
                && Follows(w, At(old(idx), 1, keys), keys, journal, result.result)
                && !result.result.BudgetExhausted?
                && told == ToldByAnswer(ToldByStream(sw, old(idx), keys, keys, None), journal, result.result)
      ensures result.Streamed? ==>
                (told.emitted == sw.stream(At(old(idx), tried, keys)).tokens <==>
                 NothingSent(sw, old(idx), tried, keys))
      ensures result.FellBack? && result.result.Success? ==>
                (told.emitted == [result.result.value] <==> NothingSent(sw, old(idx), keys, keys))
    {
      var start := ReserveStartIdx();
      journal := [];
      var attempts, raised;
      attempts, raised, told := StreamFrom(sw, start);
      tried := attempts;
      if attempts < keys {
        result := if raised.Some? then StreamRaised(raised.value) else Streamed;
      } else {
        var answer;
        answer, told, journal := PlainAnswer(w, told);
        result := FellBack(answer);
        AtTwice(start, keys);
      }
      AnswerArrivesAlone(sw, start, keys, tried, journal, if result.FellBack? then result.result else BudgetExhausted);
    }
  }
}
