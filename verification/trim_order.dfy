/** Which CLOSED breakers a trim deletes, and when they are the oldest. */
module TrimOrder {
  import opened FiniteSets
  import opened KeyBreaker
  import opened BreakerRegistry

  function ClosedKeys(r: Registry): set<Key> {
    set k | k in r && r[k].state == Closed
  }

  /** What the comment promises: of two CLOSED breakers the one touched earlier goes first. */
  ghost predicate OldestFirst(r: Registry, victims: set<Key>)
    requires victims <= r.Keys
  {
    forall v, k :: v in victims && k in ClosedKeys(r) && k !in victims && v in ClosedKeys(r) ==>
      r[v].lastTouched <= r[k].lastTouched
  }

  ghost predicate AllTouchedTogether(r: Registry) {
    forall j, k :: j in ClosedKeys(r) && k in ClosedKeys(r) ==> r[j].lastTouched == r[k].lastTouched
  }

  /** Before the last CLOSED breaker goes, only CLOSED ones do. */
  lemma OnlyClosedGo(r: Registry, victims: set<Key>)
    requires MayTrim(r, victims) && Excess(r) < |ClosedKeys(r)|
    ensures victims <= ClosedKeys(r)
  {
    forall v | v in victims ensures r[v].state == Closed {
      if r[v].state != Closed {
        assert ClosedKeys(r) <= victims;
        SubsetSize(ClosedKeys(r), victims);
        assert false;
      }
    }
  }

  /** Whatever the ties, a trim deletes the oldest CLOSED breakers first iff there is no choice: it
      deletes nothing, or all the CLOSED ones, or they were all touched at the same time. */
  lemma OldestFirstExactly(r: Registry, victims: set<Key>)
    requires MayTrim(r, victims)
    ensures OldestFirst(r, victims) <==>
            Excess(r) == 0 || Excess(r) >= |ClosedKeys(r)| || AllTouchedTogether(r)
  {
    var closed := ClosedKeys(r);
    if Excess(r) >= |closed| {
      AllClosedGo(r, victims);
    } else if Excess(r) > 0 {
      OnlyClosedGo(r, victims);
      if OldestFirst(r, victims) {
        ChoiceMeansTies(r, victims);
      }
    }
  }

  lemma AllClosedGo(r: Registry, victims: set<Key>)
    requires MayTrim(r, victims) && Excess(r) >= |ClosedKeys(r)|
    ensures ClosedKeys(r) <= victims
  {
    if k :| k in ClosedKeys(r) && k !in victims {
      forall v | v in victims ensures v in ClosedKeys(r) - {k} {
        assert TrimBefore(r[v], r[k]);
      }
      SubsetSize(victims, ClosedKeys(r) - {k});
      assert false;
    }
  }

  lemma ChoiceMeansTies(r: Registry, victims: set<Key>)
    requires MayTrim(r, victims) && victims <= ClosedKeys(r) && 0 < |victims| < |ClosedKeys(r)|
    requires OldestFirst(r, victims)
    ensures AllTouchedTogether(r)
  {
    var closed := ClosedKeys(r);
    assert victims != {} && closed - victims != {} by {
      assert closed == victims + (closed - victims);
    }
    var gone, kept :| gone in victims && kept in closed - victims;
    forall v, k | v in victims && k in closed - victims ensures r[v].lastTouched == r[k].lastTouched {
      assert TrimBefore(r[v], r[k]);
    }
    forall k | k in closed ensures r[k].lastTouched == r[gone].lastTouched {
      assert k in victims ==> r[k].lastTouched == r[kept].lastTouched;
    }
  }

  // ----- an over-full registry -----

  function KeyNo(n: nat): (k: Key)
    ensures |k.1| == n
  {
    ("provider", seq(n, _ => 'k'))
  }

  /** A breaker that failed for the first time after n seconds. */
  function FailedAt(n: nat): Breaker { Fresh(n as real).Failed(n as real) }

  function FirstKeys(n: nat): set<Key> {
    if n == 0 then {} else FirstKeys(n - 1) + {KeyNo(n - 1)}
  }

  /** n keys, each of which failed once, one second after the other. */
  function FailedOnce(n: nat): Registry {
    map k | k in FirstKeys(n) :: FailedAt(|k.1|)
  }

  lemma {:induction false} FirstKeysCount(n: nat)
    ensures |FirstKeys(n)| == n
    ensures forall k :: k in FirstKeys(n) ==> |k.1| < n && k == KeyNo(|k.1|)
  {
    if n == 0 {
    } else {
      FirstKeysCount(n - 1);
    }
  }

  lemma FailedOnceSize(n: nat)
    ensures |FailedOnce(n)| == n && FailedOnce(n).Keys == FirstKeys(n)
  {
    FirstKeysCount(n);
    assert FailedOnce(n).Keys == FirstKeys(n);
  }

  /** With one entry too many, all CLOSED, the one touched last goes. */
  lemma NewestGoes(r: Registry, newest: Key, victims: set<Key>)
    requires |r| == MAX_SIZE + 1 && newest in r && r[newest].state == Closed
    requires forall k :: k in r && k != newest ==> r[k].state == Closed && r[k].lastTouched < r[newest].lastTouched
    ensures MayTrim(r, victims) <==> victims == {newest}
  {
    if MayTrim(r, victims) {
      var v :| v in victims;
      assert victims == {v} by {
        assert |victims - {v}| == 0;
      }
    }
  }

  lemma NewestInFailedOnce(n: nat)
    requires n > 0
    ensures var r, newest := FailedOnce(n), KeyNo(n - 1);
            && newest in r && r[newest].state == Closed && r[newest].lastTouched == (n - 1) as real
            && forall k :: k in r && k != newest ==> r[k].state == Closed && r[k].lastTouched < r[newest].lastTouched
  {
    FirstKeysCount(n);
  }

  /** n keys that failed once each fill the map to one more than the limit. The next new key makes
      room by forgetting the failure reported last, and keeps the oldest. */
  lemma NewestIsForgotten(n: nat, victims: set<Key>)
    requires n == MAX_SIZE + 1
    ensures MayTrim(FailedOnce(n), victims) <==> victims == {KeyNo(n - 1)}
    ensures victims == {KeyNo(n - 1)} ==> !OldestFirst(FailedOnce(n), victims)
  {
    FailedOnceSize(n);
    NewestInFailedOnce(n);
    NewestGoes(FailedOnce(n), KeyNo(n - 1), victims);
    OldestStays(n);
  }

  lemma OldestStays(n: nat)
    requires n > 1
    ensures KeyNo(n - 1) in FailedOnce(n) && !OldestFirst(FailedOnce(n), {KeyNo(n - 1)})
  {
    var r := FailedOnce(n);
    NewestInFailedOnce(n);
    OldestIn(n);
    assert KeyNo(n - 1) in ClosedKeys(r) && KeyNo(0) in ClosedKeys(r);
  }

  lemma {:induction false} OldestIn(n: nat)
    requires n > 0
    ensures KeyNo(0) in FirstKeys(n)
  {
    if n <= 1 {
    } else {
      OldestIn(n - 1);
    }
  }

  // ----- the run that gets there -----

  function FirstFailures(n: nat): seq<Event> {
    if n == 0 then []
    else FirstFailures(n - 1) + [Failure(KeyNo(n - 1), (n - 1) as real, {}, BASE_TIMEOUT.Floor)]
  }

  function FirstStates(n: nat): seq<Registry> {
    if n == 0 then [map[]] else FirstStates(n - 1) + [FailedOnce(n)]
  }

  lemma {:induction false} FailedOnceIsReached(n: nat)
    requires n <= MAX_SIZE + 1
    ensures |FirstStates(n)| == n + 1 && |FirstFailures(n)| == n
    ensures Run(FirstStates(n), FirstFailures(n))
    ensures FirstStates(n)[0] == map[] && FirstStates(n)[n] == FailedOnce(n)
    ensures forall i :: 0 <= i < n ==> FirstFailures(n)[i].at <= (n - 1) as real
  {
    if n == 0 {
    } else {
      FailedOnceIsReached(n - 1);
      NextFailure(n);
      RunNext(FirstStates(n - 1), FirstFailures(n - 1),
              Failure(KeyNo(n - 1), (n - 1) as real, {}, BASE_TIMEOUT.Floor), FailedOnce(n));
    }
  }

  lemma NextFailure(n: nat)
    requires 0 < n <= MAX_SIZE + 1
    ensures Step(FailedOnce(n - 1), Failure(KeyNo(n - 1), (n - 1) as real, {}, BASE_TIMEOUT.Floor), FailedOnce(n))
  {
    FailedOnceSize(n - 1);
    FirstKeysCount(n - 1);
    FailedOnceNext(n);
    FirstFailureStep(FailedOnce(n - 1), KeyNo(n - 1), (n - 1) as real);
  }

  lemma FailedOnceNext(n: nat)
    requires n > 0
    ensures FailedOnce(n) == FailedOnce(n - 1)[KeyNo(n - 1) := FailedAt(n - 1)]
  {
    FirstKeysCount(n - 1);
  }

  lemma FirstFailureStep(r: Registry, k: Key, at: real)
    requires k !in r && |r| <= MAX_SIZE
    ensures FailureStep(r, k, at, {}, BASE_TIMEOUT.Floor, r[k := Fresh(at).Failed(at)])
  {
    assert r - {} == r;
    assert Pow2(0) == 1;
  }
}
