/** Reply deduplication: one acceptance per key within the TTL, in bounded memory. */
module ReplyDedup {
  import opened FiniteSets

  /** Chat id and text digest. */
  type Key = string

  datatype Accepted = Accepted(key: Key, at: real)

  datatype Verdict = Duplicate | Fresh | PopFromEmpty

  function KeysOf(log: seq<Accepted>): set<Key> { set a | a in log :: a.key }

  /** Why an acceptance no longer blocks its key: its time is up, or at least `maxSize` other keys
      have been accepted since. */
  ghost predicate Released(log: seq<Accepted>, i: nat, now: real, ttl: real, maxSize: int)
    requires i < |log|
  {
    || now - log[i].at > ttl
    || |KeysOf(log[i + 1..]) - {log[i].key}| >= maxSize
  }

  ghost predicate InTimeOrder(log: seq<Accepted>, clock: real) {
    && (forall i :: 0 <= i < |log| ==> log[i].at <= clock)
    && forall i, j :: 0 <= i < j < |log| ==> log[i].at <= log[j].at
  }

  ghost predicate DistinctFrom(log: seq<Accepted>, d: nat) {
    forall i, j :: d <= i < j < |log| ==> log[i].key != log[j].key
  }

  /** Entries leave only from the front, so the cache is what the list of all acceptances holds from
      index d on: each key once, and everything before d released. */
  ghost predicate Explained(log: seq<Accepted>, d: nat, clock: real, ttl: real, maxSize: int) {
    && d <= |log| && DistinctFrom(log, d) && InTimeOrder(log, clock)
    && forall i :: 0 <= i < d ==> Released(log, i, clock, ttl, maxSize)
  }

  /** Once released, an acceptance stays released. */
  lemma ReleasedLater(log: seq<Accepted>, i: nat, now: real, later: real, ttl: real, maxSize: int, e: Accepted)
    requires i < |log| && now <= later && Released(log, i, now, ttl, maxSize)
    ensures Released(log, i, later, ttl, maxSize) && Released(log + [e], i, later, ttl, maxSize)
  {
    assert (log + [e])[i + 1..] == log[i + 1..] + [e];
    SubsetSize(KeysOf(log[i + 1..]) - {log[i].key}, KeysOf(log[i + 1..] + [e]) - {log[i].key});
  }

  lemma FirstKeyOff(log: seq<Accepted>, d: nat)
    requires d < |log| && DistinctFrom(log, d)
    ensures KeysOf(log[d..]) == {log[d].key} + KeysOf(log[d + 1..])
    ensures log[d].key !in KeysOf(log[d + 1..])
  {
    assert log[d..] == [log[d]] + log[d + 1..];
    forall a | a in log[d + 1..] ensures a.key != log[d].key {
      var n :| 0 <= n < |log[d + 1..]| && log[d + 1..][n] == a;
      assert log[d + 1 + n] == a;
    }
  }

  lemma {:induction false} DistinctCount(log: seq<Accepted>, d: nat)
    requires d <= |log| && DistinctFrom(log, d)
    ensures |KeysOf(log[d..])| == |log| - d
    decreases |log| - d
  {
    if d == |log| {
    } else {
      DistinctCount(log, d + 1);
      FirstKeyOff(log, d);
    }
  }

  /** A new key may be appended. */
  lemma AppendDistinct(log: seq<Accepted>, d: nat, e: Accepted)
    requires d <= |log| && DistinctFrom(log, d) && forall i :: d <= i < |log| ==> log[i].key != e.key
    ensures DistinctFrom(log + [e], d)
  {
  }

  /** The oldest entry of a full cache may go: behind it stand the other entries and the new key. */
  lemma OldestReleased(log: seq<Accepted>, d: nat, e: Accepted, ttl: real, maxSize: int)
    requires d < |log| && |log| - d >= maxSize && DistinctFrom(log + [e], d)
    ensures Released(log + [e], d, e.at, ttl, maxSize)
  {
    var now := log + [e];
    DistinctCount(now, d + 1);
    FirstKeyOff(now, d);
    assert KeysOf(now[d + 1..]) - {now[d].key} == KeysOf(now[d + 1..]);
  }

  /** Forgetting entries keeps the invariant if the time of each of them is up. */
  lemma ForgetFront(log: seq<Accepted>, d: nat, clock: real, now: real, ttl: real, maxSize: int, d': nat)
    requires Explained(log, d, clock, ttl, maxSize) && clock <= now && d <= d' <= |log|
    requires forall i :: d <= i < d' ==> now - log[i].at > ttl
    ensures Explained(log, d', now, ttl, maxSize)
  {
    forall i | 0 <= i < d' ensures Released(log, i, now, ttl, maxSize) {
      assert i < d ==> Released(log, i, clock, ttl, maxSize);
    }
  }

  lemma ReleasedAfterNext(log: seq<Accepted>, d: nat, e: Accepted, ttl: real, maxSize: int)
    requires d <= |log| && forall i :: 0 <= i < d ==> Released(log, i, e.at, ttl, maxSize)
    ensures forall i :: 0 <= i < d ==> Released(log + [e], i, e.at, ttl, maxSize)
  {
    forall i | 0 <= i < d ensures Released(log + [e], i, e.at, ttl, maxSize) {
      ReleasedLater(log, i, e.at, e.at, ttl, maxSize, e);
    }
  }

  lemma AppendInTimeOrder(log: seq<Accepted>, e: Accepted)
    requires InTimeOrder(log, e.at)
    ensures InTimeOrder(log + [e], e.at)
  {
  }

  lemma InsertExplained(log: seq<Accepted>, d: nat, e: Accepted, ttl: real, maxSize: int)
    requires Explained(log, d, e.at, ttl, maxSize) && forall i :: d <= i < |log| ==> log[i].key != e.key
    ensures Explained(log + [e], d, e.at, ttl, maxSize)
  {
    AppendDistinct(log, d, e);
    AppendInTimeOrder(log, e);
    ReleasedAfterNext(log, d, e, ttl, maxSize);
  }

  lemma EvictExplained(log: seq<Accepted>, d: nat, e: Accepted, ttl: real, maxSize: int)
    requires Explained(log + [e], d, e.at, ttl, maxSize) && d < |log| && |log| - d >= maxSize
    ensures Explained(log + [e], d + 1, e.at, ttl, maxSize)
  {
    OldestReleased(log, d, e, ttl, maxSize);
  }

  /** The key was accepted within the TTL, at or after index d. */
  ghost predicate Held(log: seq<Accepted>, d: nat, key: Key, now: real, ttl: real) {
    exists i :: d <= i < |log| && log[i].key == key && now - log[i].at <= ttl
  }

  /** A purge drops nothing that still holds its key, and keeps nothing else. */
  lemma HeldIffKept(log: seq<Accepted>, d: nat, kept: nat, key: Key, now: real, ttl: real)
    requires d <= kept <= |log|
    requires forall i :: d <= i < kept ==> log[i].at < now - ttl
    requires forall i :: kept <= i < |log| ==> log[i].at >= now - ttl
    ensures Held(log, d, key, now, ttl) <==> exists a :: a in log[kept..] && a.key == key
  {
    if a :| a in log[kept..] && a.key == key {
      var n :| 0 <= n < |log[kept..]| && log[kept..][n] == a;
      assert log[kept + n] == a;
    }
    if i :| d <= i < |log| && log[i].key == key && now - log[i].at <= ttl {
      assert log[kept..][i - kept] == log[i];
    }
  }

  /** A key absent from the cache has only released acceptances. */
  lemma AllReleased(log: seq<Accepted>, d: nat, key: Key, now: real, ttl: real, maxSize: int)
    requires Explained(log, d, now, ttl, maxSize) && !exists a :: a in log[d..] && a.key == key
    ensures forall i :: d <= i < |log| ==> log[i].key != key
    ensures forall i :: 0 <= i < |log| && log[i].key == key ==> Released(log, i, now, ttl, maxSize)
  {
    forall i | d <= i < |log| ensures log[i].key != key {
      assert log[d..][i - d] == log[i];
    }
  }

  /** Of the entries from d to n exactly those before k are older than the limit. */
  ghost predicate CutAt(log: seq<Accepted>, d: nat, n: nat, k: nat, limit: real) {
    && d <= k <= n <= |log|
    && (forall i :: d <= i < k ==> log[i].at < limit)
    && forall i :: k <= i < n ==> log[i].at >= limit
  }

  lemma {:induction false} PurgeNext(log: seq<Accepted>, d: nat, n: nat, k: nat, limit: real, clock: real)
    requires InTimeOrder(log, clock) && CutAt(log, d, n, k, limit) && n < |log|
    ensures if log[n].at >= limit then CutAt(log, d, n + 1, k, limit) && log[k..n] + [log[n]] == log[k..n + 1]
            else CutAt(log, d, n + 1, n + 1, limit) && log[k..n] == []
  {
    assert forall i :: k <= i < n ==> log[i].at <= log[n].at;
    assert k < n ==> log[k].at <= log[n].at;
  }

  /** The entries that are not older than the limit; being in time order, they are the last ones. */
  method NotStale(entries: seq<Accepted>, limit: real, ghost log: seq<Accepted>, ghost d: nat, ghost clock: real)
    returns (kept: seq<Accepted>, ghost k: nat)
    requires InTimeOrder(log, clock) && d <= |log| && entries == log[d..]
    ensures CutAt(log, d, |log|, k, limit) && kept == log[k..]
  {
    kept, k := [], d;
    for n := 0 to |entries|
      invariant CutAt(log, d, d + n, k, limit) && kept == log[k..d + n]
    {
      PurgeNext(log, d, d + n, k, limit, clock);
      if entries[n].at >= limit {
        kept := kept + [entries[n]];
      } else {
        k := d + n + 1;
      }
    }
    assert log[k..|log|] == log[k..];
  }

  /** The key is among the last maxSize acceptances, and its time is not up. */
  ghost predicate InWindow(log: seq<Accepted>, key: Key, now: real, ttl: real, maxSize: int) {
    exists i :: 0 <= i < |log| && |log| - maxSize <= i && log[i].key == key && now - log[i].at <= ttl
  }

  /** What has left the cache is out of time or behind the last maxSize acceptances. */
  ghost predicate LeftRightly(log: seq<Accepted>, d: nat, clock: real, ttl: real, maxSize: int) {
    d <= |log| && forall i :: 0 <= i < d ==> clock - log[i].at > ttl || i < |log| - maxSize
  }

  lemma {:induction false} HeldIsInWindow(
    log: seq<Accepted>, d: nat, clock: real, key: Key, now: real, ttl: real, maxSize: int)
    requires LeftRightly(log, d, clock, ttl, maxSize) && clock <= now && (|log| - d <= maxSize || d == |log|)
    ensures Held(log, d, key, now, ttl) <==> InWindow(log, key, now, ttl, maxSize)
  {
    if InWindow(log, key, now, ttl, maxSize) {
      var i :| 0 <= i < |log| && |log| - maxSize <= i && log[i].key == key && now - log[i].at <= ttl;
      assert i >= d;
    }
  }

  class ReplyDedup {
    var cache: seq<Accepted>
    const maxSize: int
    const ttl: real
    ghost var log: seq<Accepted>  // everything accepted so far
    ghost var start: nat          // where in it the cache begins
    ghost var clock: real

    ghost predicate Valid()
      reads this
    {
      && Explained(log, start, clock, ttl, maxSize) && cache == log[start..]
      && (|cache| <= maxSize || cache == [])
      && LeftRightly(log, start, clock, ttl, maxSize)
    }

    constructor (maxSize: int, ttl: real, ghost clock: real)
      ensures Valid() && this.maxSize == maxSize && this.ttl == ttl && log == [] && cache == [] && this.clock == clock
    {
      this.maxSize, this.ttl, cache, log, start, this.clock := maxSize, ttl, [], [], 0, clock;
    }

    /** A key is accepted only if every earlier acceptance of it is released, and rejected only if
        one was accepted within the TTL. With no room at all nothing can ever be accepted. */
    method IsDuplicate(key: Key, now: real) returns (verdict: Verdict)
      requires Valid() && clock <= now
      modifies this
      ensures Valid() && clock == now
      ensures verdict == PopFromEmpty <==> maxSize <= 0
      ensures verdict == Fresh ==>
                && log == old(log) + [Accepted(key, now)]
                && forall i :: 0 <= i < |old(log)| && old(log)[i].key == key ==>
                     Released(old(log), i, now, ttl, maxSize)
      ensures verdict != Fresh ==> log == old(log)
      ensures verdict == Duplicate <==> InWindow(old(log), key, now, ttl, maxSize)
      ensures verdict == Duplicate ==> Held(old(log), old(start), key, now, ttl)
    {
      HeldIsInWindow(log, start, clock, key, now, ttl, maxSize);
      Purge(now);
      HeldIffKept(log, old(start), start, key, now, ttl);
      if exists a :: a in cache && a.key == key {
        return Duplicate;
      }
      AllReleased(log, start, key, now, ttl, maxSize);
      if |cache| >= maxSize && cache == [] {
        return PopFromEmpty;
      }
      verdict := Fresh;
      Insert(Accepted(key, now));
    }

    method Insert(e: Accepted)
      requires Valid() && e.at == clock && 0 < maxSize
      requires forall i :: start <= i < |log| ==> log[i].key != e.key
      modifies this`cache, this`log, this`start
      ensures Valid() && log == old(log) + [e]
      ensures cache == (if |old(cache)| >= maxSize then old(cache)[1..] else old(cache)) + [e]
    {
      InsertExplained(log, start, e, ttl, maxSize);
      if |cache| >= maxSize {
        EvictExplained(log, start, e, ttl, maxSize);
        cache, start := cache[1..], start + 1;
      }
      cache, log := cache + [e], log + [e];
    }

    /** Drops every entry older than the TTL. */
    method Purge(now: real)
      requires Valid() && clock <= now
      modifies this`cache, this`start, this`clock
      ensures Valid() && clock == now && start >= old(start)
      ensures forall i :: start <= i < |log| ==> log[i].at >= now - ttl
      ensures forall i :: old(start) <= i < start ==> log[i].at < now - ttl
      ensures forall e :: e in cache ==> e.at >= now - ttl
    {
      var kept;
      ghost var k;
      kept, k := NotStale(cache, now - ttl, log, start, clock);
      ForgetFront(log, start, clock, now, ttl, maxSize, k);
      cache, start, clock := kept, k, now;
    }
  }

  // ----- what a caller sees -----

  /** The two acceptances are more than the TTL apart, or at least `maxSize` different other keys
      were accepted in between. */
  ghost predicate Apart(log: seq<Accepted>, i: nat, j: nat, ttl: real, maxSize: int)
    requires i < j < |log|
  {
    || log[j].at - log[i].at > ttl
    || |KeysOf(log[i + 1..j]) - {log[i].key}| >= maxSize
  }

  ghost predicate Spaced(log: seq<Accepted>, ttl: real, maxSize: int) {
    forall i, j :: 0 <= i < j < |log| && log[i].key == log[j].key ==> Apart(log, i, j, ttl, maxSize)
  }

  lemma SpacedNext(log: seq<Accepted>, e: Accepted, ttl: real, maxSize: int)
    requires Spaced(log, ttl, maxSize)
    requires forall i :: 0 <= i < |log| && log[i].key == e.key ==> Released(log, i, e.at, ttl, maxSize)
    ensures Spaced(log + [e], ttl, maxSize)
  {
    var now := log + [e];
    forall i, j | 0 <= i < j < |now| && now[i].key == now[j].key ensures Apart(now, i, j, ttl, maxSize) {
      assert now[i + 1..j] == log[i + 1..j];
      if j == |log| {
        assert Released(log, i, e.at, ttl, maxSize);
        assert log[i + 1..j] == log[i + 1..];
      } else {
        assert Apart(log, i, j, ttl, maxSize);
      }
    }
  }

  function AcceptedOf(requests: seq<Accepted>, verdicts: seq<Verdict>): seq<Accepted>
    requires |requests| == |verdicts|
  {
    if requests == [] then []
    else
      var n := |requests| - 1;
      AcceptedOf(requests[..n], verdicts[..n]) + (if verdicts[n] == Fresh then [requests[n]] else [])
  }

  lemma AcceptedNext(requests: seq<Accepted>, verdicts: seq<Verdict>, v: Verdict)
    requires |verdicts| < |requests|
    ensures var n := |verdicts|;
            AcceptedOf(requests[..n + 1], verdicts + [v]) ==
            AcceptedOf(requests[..n], verdicts) + (if v == Fresh then [requests[n]] else [])
  {
    var n := |verdicts|;
    assert requests[..n + 1][..n] == requests[..n] && (verdicts + [v])[..n] == verdicts;
  }

  /** The key of the n-th request was accepted within the TTL before it. */
  ghost predicate AcceptedLately(requests: seq<Accepted>, verdicts: seq<Verdict>, n: nat, ttl: real)
    requires n < |requests| && n <= |verdicts|
  {
    exists i :: 0 <= i < n && verdicts[i] == Fresh && requests[i].key == requests[n].key
                && requests[n].at - requests[i].at <= ttl
  }

  lemma {:induction false} AcceptedWasRequested(requests: seq<Accepted>, verdicts: seq<Verdict>, a: Accepted)
    requires |requests| == |verdicts| && a in AcceptedOf(requests, verdicts)
    ensures exists i :: 0 <= i < |requests| && verdicts[i] == Fresh && requests[i] == a
  {
    var n := |requests| - 1;
    if a in AcceptedOf(requests[..n], verdicts[..n]) {
      AcceptedWasRequested(requests[..n], verdicts[..n], a);
      var i :| 0 <= i < n && verdicts[..n][i] == Fresh && requests[..n][i] == a;
      assert verdicts[i] == Fresh && requests[i] == a;
    } else {
      assert verdicts[n] == Fresh && requests[n] == a;
    }
  }

  lemma {:induction false} HeldWasAccepted(requests: seq<Accepted>, verdicts: seq<Verdict>, d: nat, ttl: real)
    requires |verdicts| < |requests|
    requires var n := |verdicts|;
             Held(AcceptedOf(requests[..n], verdicts), d, requests[n].key, requests[n].at, ttl)
    ensures AcceptedLately(requests, verdicts, |verdicts|, ttl)
  {
    var n := |verdicts|;
    var log := AcceptedOf(requests[..n], verdicts);
    var j :| d <= j < |log| && log[j].key == requests[n].key && requests[n].at - log[j].at <= ttl;
    AcceptedWasRequested(requests[..n], verdicts, log[j]);
    var i :| 0 <= i < n && verdicts[i] == Fresh && requests[..n][i] == log[j];
    assert requests[i] == log[j];
  }

  /** A duplicate is reported only if the key was accepted within the TTL, and the cache is popped
      empty exactly if it has no room. */
  ghost predicate Justified(requests: seq<Accepted>, verdicts: seq<Verdict>, maxSize: int, ttl: real)
    requires |verdicts| <= |requests|
  {
    forall n :: 0 <= n < |verdicts| ==>
      && (verdicts[n] == PopFromEmpty <==> maxSize <= 0)
      && (verdicts[n] == Duplicate ==> AcceptedLately(requests, verdicts, n, ttl))
  }

  lemma {:induction false} JustifiedNext(
    requests: seq<Accepted>, verdicts: seq<Verdict>, v: Verdict, d: nat, maxSize: int, ttl: real)
    requires |verdicts| < |requests| && Justified(requests, verdicts, maxSize, ttl)
    requires v == PopFromEmpty <==> maxSize <= 0
    requires var n := |verdicts|;
             v == Duplicate ==>
               Held(AcceptedOf(requests[..n], verdicts), d, requests[n].key, requests[n].at, ttl)
    ensures Justified(requests, verdicts + [v], maxSize, ttl)
  {
    if v == Duplicate {
      HeldWasAccepted(requests, verdicts, d, ttl);
    }
    var after := verdicts + [v];
    forall n | 0 <= n < |after| && after[n] == Duplicate ensures AcceptedLately(requests, after, n, ttl) {
      assert n < |verdicts| ==> verdicts[n] == Duplicate;
      var i :| 0 <= i < n && verdicts[i] == Fresh && requests[i].key == requests[n].key
               && requests[n].at - requests[i].at <= ttl;
      assert after[i] == Fresh;
    }
  }

  ghost predicate Recent(requests: seq<Accepted>, verdicts: seq<Verdict>, n: nat, maxSize: int, ttl: real)
    requires n < |requests| && n <= |verdicts|
  {
    InWindow(AcceptedOf(requests[..n], verdicts[..n]), requests[n].key, requests[n].at, ttl, maxSize)
  }

  /** Each verdict, from the acceptances before it. */
  ghost predicate DecidedByWindow(requests: seq<Accepted>, verdicts: seq<Verdict>, maxSize: int, ttl: real)
    requires |verdicts| <= |requests|
  {
    forall n :: 0 <= n < |verdicts| ==>
      verdicts[n] == if maxSize <= 0 then PopFromEmpty
                     else if Recent(requests, verdicts, n, maxSize, ttl) then Duplicate else Fresh
  }

  lemma {:induction false} DecidedNext(
    requests: seq<Accepted>, verdicts: seq<Verdict>, v: Verdict, maxSize: int, ttl: real)
    requires |verdicts| < |requests| && DecidedByWindow(requests, verdicts, maxSize, ttl)
    requires var n := |verdicts|;
             v == if maxSize <= 0 then PopFromEmpty
                  else if InWindow(AcceptedOf(requests[..n], verdicts), requests[n].key, requests[n].at, ttl, maxSize)
                  then Duplicate else Fresh
    ensures DecidedByWindow(requests, verdicts + [v], maxSize, ttl)
  {
    var after := verdicts + [v];
    forall n | 0 <= n < |after|
      ensures after[n] == if maxSize <= 0 then PopFromEmpty
                          else if Recent(requests, after, n, maxSize, ttl) then Duplicate else Fresh
    {
      assert after[..n] == verdicts[..n];
      assert n == |verdicts| ==> verdicts[..n] == verdicts;
    }
  }

  ghost predicate Proper(
    requests: seq<Accepted>, verdicts: seq<Verdict>, log: seq<Accepted>, maxSize: int, ttl: real)
  {
    && |verdicts| <= |requests| && log == AcceptedOf(requests[..|verdicts|], verdicts)
    && Spaced(log, ttl, maxSize) && Justified(requests, verdicts, maxSize, ttl)
    && DecidedByWindow(requests, verdicts, maxSize, ttl)
  }

  lemma {:induction false} ProperNext(
    requests: seq<Accepted>, verdicts: seq<Verdict>, log: seq<Accepted>, d: nat, v: Verdict, maxSize: int, ttl: real)
    requires |verdicts| < |requests| && Proper(requests, verdicts, log, maxSize, ttl)
    requires v == PopFromEmpty <==> maxSize <= 0
    requires var q := requests[|verdicts|];
             && (v == Duplicate <==> InWindow(log, q.key, q.at, ttl, maxSize))
             && (v == Duplicate ==> Held(log, d, q.key, q.at, ttl))
             && (v == Fresh ==> forall i :: 0 <= i < |log| && log[i].key == q.key ==>
                                  Released(log, i, q.at, ttl, maxSize))
    ensures Proper(requests, verdicts + [v], if v == Fresh then log + [requests[|verdicts|]] else log, maxSize, ttl)
  {
    AcceptedNext(requests, verdicts, v);
    JustifiedNext(requests, verdicts, v, d, maxSize, ttl);
    DecidedNext(requests, verdicts, v, maxSize, ttl);
    if v == Fresh {
      SpacedNext(log, requests[|verdicts|], ttl, maxSize);
    }
  }

  /** Over any sequence of requests a key is rejected exactly if it is among the last maxSize
      acceptances and was accepted within the TTL. So the acceptances of one key are spaced out, and
      no rejection is unjustified. */
  method RunAll(requests: seq<Accepted>, maxSize: int, ttl: real, start: real)
    returns (verdicts: seq<Verdict>, log: seq<Accepted>)
    requires forall i, j :: 0 <= i < j < |requests| ==> requests[i].at <= requests[j].at
    requires forall i :: 0 <= i < |requests| ==> start <= requests[i].at
    ensures |verdicts| == |requests| && log == AcceptedOf(requests, verdicts)
    ensures Spaced(log, ttl, maxSize)
    ensures Justified(requests, verdicts, maxSize, ttl)
    ensures DecidedByWindow(requests, verdicts, maxSize, ttl)
  {
    var dedup := new ReplyDedup(maxSize, ttl, start);
    verdicts, log := [], [];
    for n := 0 to |requests|
      invariant dedup.Valid() && dedup.maxSize == maxSize && dedup.ttl == ttl && dedup.log == log && fresh(dedup)
      invariant n < |requests| ==> dedup.clock <= requests[n].at
      invariant |verdicts| == n && Proper(requests, verdicts, log, maxSize, ttl)
    {
      ghost var d := dedup.start;
      var v := dedup.IsDuplicate(requests[n].key, requests[n].at);
      ProperNext(requests, verdicts, log, d, v, maxSize, ttl);
      verdicts := verdicts + [v];
      if v == Fresh {
        log := log + [requests[n]];
      }
    }
    assert requests[..|requests|] == requests;
  }
}
