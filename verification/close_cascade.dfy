/** Shutting down: flush, fallback and multi-key close, each finishing its list although single
    close calls fail or are cancelled. */
module CloseCascade {
  import opened Sorting

  type RawId = int

  datatype CloseResult = Closed | Failed | Cancelled

  /** The raw providers closed so far, in order, and how each close call ends. */
  class World {
    var closed: seq<RawId>
    const outcome: RawId -> CloseResult

    constructor (outcome: RawId -> CloseResult)
      ensures closed == [] && this.outcome == outcome
    {
      this.closed, this.outcome := [], outcome;
    }

    method CloseRaw(r: RawId) returns (result: CloseResult)
      modifies this
      ensures closed == old(closed) + [r] && result == outcome(r)
    {
      closed := closed + [r];
      result := outcome(r);
    }
  }

  predicate SomeCancelled(outcome: RawId -> CloseResult, rs: seq<RawId>) {
    exists r :: r in rs && outcome(r) == Cancelled
  }

  class MultiKey {
    var providers: seq<RawId>

    constructor (providers: seq<RawId>)
      ensures this.providers == providers
    {
      this.providers := providers;
    }

    /** Closes every raw provider although some calls fail or are cancelled; says at the end whether
        it re-raises a cancellation. */
    method Close(w: World) returns (cancelled: bool)
      modifies this, w
      ensures providers == []
      ensures w.closed == old(w.closed) + old(providers)
      ensures cancelled <==> exists r :: r in old(providers) && w.outcome(r) == Cancelled
    {
      var mine := providers;
      providers := [];
      cancelled := false;
      for i := 0 to |mine|
        invariant providers == [] && w.closed == old(w.closed) + mine[..i]
        invariant cancelled <==> SomeCancelled(w.outcome, mine[..i])
      {
        var result := w.CloseRaw(mine[i]);
        assert mine[..i + 1] == mine[..i] + [mine[i]];
        if result == Cancelled {
          cancelled := true;
        }
      }
      assert mine[..|mine|] == mine;
    }
  }

  /** What every MultiKeyProvider held before, and which have been closed since. The same object may
      be reachable more than once; only its first close finds anything. */
  type Holdings = map<MultiKey, seq<RawId>>

  ghost predicate Tracks(before: Holdings, done: set<MultiKey>)
    reads before.Keys
  {
    forall m :: m in before ==> m.providers == if m in done then [] else before[m]
  }

  /** The raw providers under the listed objects, first occurrences only. */
  ghost function Under(before: Holdings, ms: seq<MultiKey>, done: set<MultiKey>): seq<RawId>
    requires forall m :: m in ms ==> m in before
  {
    if ms == [] then []
    else
      var first := Under(before, ms[..|ms| - 1], done);
      var m := ms[|ms| - 1];
      if m in done || m in ms[..|ms| - 1] then first else first + before[m]
  }

  ghost function Members(ms: seq<MultiKey>): set<MultiKey> { set m | m in ms }

  lemma UnderNext(before: Holdings, ms: seq<MultiKey>, i: nat, done: set<MultiKey>)
    requires i < |ms| && forall m :: m in ms ==> m in before
    ensures Under(before, ms[..i + 1], done) ==
            Under(before, ms[..i], done) + (if ms[i] in done + Members(ms[..i]) then [] else before[ms[i]])
    ensures Members(ms[..i + 1]) == Members(ms[..i]) + {ms[i]}
  {
    assert ms[..i + 1][..i] == ms[..i];
    assert Under(before, ms[..i], done) + [] == Under(before, ms[..i], done);
  }

  lemma Associative(a: seq<RawId>, b: seq<RawId>, c: seq<RawId>)
    ensures (a + b) + c == a + (b + c)
  {
  }

  lemma CancelledConcat(outcome: RawId -> CloseResult, a: seq<RawId>, b: seq<RawId>)
    ensures SomeCancelled(outcome, a + b) <==> SomeCancelled(outcome, a) || SomeCancelled(outcome, b)
  {
    assert forall r :: r in a + b <==> r in a || r in b;
  }

  class Fallback {
    var providers: seq<MultiKey>

    constructor (providers: seq<MultiKey>)
      ensures this.providers == providers
    {
      this.providers := providers;
    }

    method Close(w: World, ghost before: Holdings, ghost done: set<MultiKey>) returns (cancelled: bool)
      requires Tracks(before, done) && forall m :: m in providers ==> m in before
      modifies this, w, before.Keys
      ensures providers == []
      ensures Tracks(before, done + Members(old(providers)))
      ensures w.closed == old(w.closed) + Under(before, old(providers), done)
      ensures cancelled <==> SomeCancelled(w.outcome, Under(before, old(providers), done))
    {
      var mine := providers;
      providers := [];
      cancelled := CloseAll(mine, w, before, done);
    }
  }

  /** The loop of `ProviderFallback.close`. */
  method CloseAll(mine: seq<MultiKey>, w: World, ghost before: Holdings, ghost done: set<MultiKey>)
    returns (cancelled: bool)
    requires Tracks(before, done) && forall m :: m in mine ==> m in before
    modifies w, before.Keys
    ensures Tracks(before, done + Members(mine))
    ensures w.closed == old(w.closed) + Under(before, mine, done)
    ensures cancelled <==> SomeCancelled(w.outcome, Under(before, mine, done))
  {
    cancelled := false;
    for i := 0 to |mine|
      invariant Tracks(before, done + Members(mine[..i]))
      invariant w.closed == old(w.closed) + Under(before, mine[..i], done)
      invariant cancelled <==> SomeCancelled(w.outcome, Under(before, mine[..i], done))
    {
      ghost var seen, held := done + Members(mine[..i]), mine[i].providers;
      assert held == if mine[i] in seen then [] else before[mine[i]];
      UnderNext(before, mine, i, done);
      CancelledConcat(w.outcome, Under(before, mine[..i], done), held);
      var c := mine[i].Close(w);
      if c {
        cancelled := true;
      }
      assert done + Members(mine[..i + 1]) == seen + {mine[i]};
      Associative(old(w.closed), Under(before, mine[..i], done), held);
    }
    assert mine[..|mine|] == mine;
  }

  // ----- flushing the cache -----

  /** A value found under the "provider:" prefix; anything but a fallback chain is ignored. */
  datatype Cached = Chain(fallback: Fallback) | OtherValue

  type Chains = map<Fallback, seq<MultiKey>>

  ghost predicate Covers(chains: Chains, holdings: Holdings, values: seq<Cached>) {
    && (forall v :: v in values && v.Chain? ==> v.fallback in chains)
    && (forall v, m :: v in values && v.Chain? && m in chains[v.fallback] ==> m in holdings)
  }

  /** All MultiKeyProviders under the cached chains, in order; a chain met again is empty by then. */
  ghost function Reachable(chains: Chains, values: seq<Cached>): seq<MultiKey>
    requires forall v :: v in values && v.Chain? ==> v.fallback in chains
  {
    if values == [] then []
    else
      var first := Reachable(chains, values[..|values| - 1]);
      var v := values[|values| - 1];
      if v.OtherValue? || v in values[..|values| - 1] then first else first + chains[v.fallback]
  }

  ghost predicate TracksChains(chains: Chains, closed: seq<Cached>)
    reads chains.Keys
  {
    forall f :: f in chains ==> f.providers == if Chain(f) in closed then [] else chains[f]
  }

  lemma {:induction false} UnderConcat(before: Holdings, a: seq<MultiKey>, b: seq<MultiKey>, done: set<MultiKey>)
    requires forall m :: m in a + b ==> m in before
    ensures Under(before, a + b, done) == Under(before, a, done) + Under(before, b, done + Members(a))
  {
    if b == [] {
      assert a + b == a;
    } else {
      var n := |b| - 1;
      assert forall m :: m in a + b[..n] ==> m in a + b;
      UnderConcat(before, a, b[..n], done);
      assert (a + b)[..|a + b| - 1] == a + b[..n];
    }
  }

  lemma {:induction false} ReachableMembers(chains: Chains, holdings: Holdings, values: seq<Cached>)
    requires Covers(chains, holdings, values)
    ensures forall m :: m in Reachable(chains, values) <==>
                        exists v :: v in values && v.Chain? && m in chains[v.fallback]
    ensures forall m :: m in Reachable(chains, values) ==> m in holdings
  {
    if values == [] {
    } else {
      var n := |values| - 1;
      ReachableMembers(chains, holdings, values[..n]);
      assert forall v :: v in values <==> v in values[..n] || v == values[n];
    }
  }

  /** The i-th value adds the providers `ms` that its chain still holds. */
  lemma FlushNext(
    chains: Chains, holdings: Holdings, values: seq<Cached>, i: nat, ms: seq<MultiKey>,
    outcome: RawId -> CloseResult)
    requires Covers(chains, holdings, values) && i < |values|
    requires ms == if values[i].OtherValue? || values[i] in values[..i] then [] else chains[values[i].fallback]
    ensures var reached, now := Reachable(chains, values[..i]), Reachable(chains, values[..i + 1]);
            && (forall m :: m in now ==> m in holdings) && (forall m :: m in reached ==> m in holdings)
            && (forall m :: m in ms ==> m in holdings)
            && Under(holdings, now, {}) == Under(holdings, reached, {}) + Under(holdings, ms, Members(reached))
            && Members(now) == Members(reached) + Members(ms)
            && (SomeCancelled(outcome, Under(holdings, now, {})) <==>
                || SomeCancelled(outcome, Under(holdings, reached, {}))
                || SomeCancelled(outcome, Under(holdings, ms, Members(reached))))
  {
    var reached, now := Reachable(chains, values[..i]), Reachable(chains, values[..i + 1]);
    assert values[..i + 1][..i] == values[..i];
    assert now == reached + ms;
    ReachableMembers(chains, holdings, values[..i]);
    ReachableMembers(chains, holdings, values[..i + 1]);
    UnderConcat(holdings, reached, ms, {});
    assert {} + Members(reached) == Members(reached);
    CancelledConcat(outcome, Under(holdings, reached, {}), Under(holdings, ms, Members(reached)));
  }

  /** `flush_provider_cache` on the values taken out of the cache. Whichever close calls fail or are
      cancelled, everything under every chain is closed, and the cancellation comes out at the end
      iff some close was cancelled. */
  method Flush(values: seq<Cached>, w: World, ghost chains: Chains, ghost holdings: Holdings)
    returns (cancelled: bool)
    requires Covers(chains, holdings, values)
    requires TracksChains(chains, []) && Tracks(holdings, {})
    modifies w, chains.Keys, holdings.Keys
    ensures forall m :: m in Reachable(chains, values) ==> m in holdings
    ensures w.closed == old(w.closed) + Under(holdings, Reachable(chains, values), {})
    ensures cancelled <==> SomeCancelled(w.outcome, Under(holdings, Reachable(chains, values), {}))
    ensures TracksChains(chains, values) && Tracks(holdings, Members(Reachable(chains, values)))
  {
    cancelled := false;
    for i := 0 to |values|
      invariant Covers(chains, holdings, values[..i])
      invariant forall m :: m in Reachable(chains, values[..i]) ==> m in holdings
      invariant w.closed == old(w.closed) + Under(holdings, Reachable(chains, values[..i]), {})
      invariant cancelled <==> SomeCancelled(w.outcome, Under(holdings, Reachable(chains, values[..i]), {}))
      invariant TracksChains(chains, values[..i]) && Tracks(holdings, Members(Reachable(chains, values[..i])))
    {
      ghost var reached := Reachable(chains, values[..i]);
      ghost var ms := if values[i].Chain? then values[i].fallback.providers else [];
      FlushNext(chains, holdings, values, i, ms, w.outcome);
      Associative(old(w.closed), Under(holdings, reached, {}), Under(holdings, ms, Members(reached)));
      if values[i].Chain? {
        var c := values[i].fallback.Close(w, holdings, Members(reached));
        if c {
          cancelled := true;
        }
      }
    }
    assert values[..|values|] == values;
  }

  // ----- exactly once -----

  /** Every raw provider belongs to one MultiKeyProvider and is listed there once. */
  ghost predicate Disjoint(holdings: Holdings) {
    && (forall m :: m in holdings ==> Distinct(holdings[m]))
    && forall m, n, r :: m in holdings && n in holdings && r in holdings[m] && r in holdings[n] ==> m == n
  }

  lemma {:induction false} UnderMembers(holdings: Holdings, ms: seq<MultiKey>)
    requires forall m :: m in ms ==> m in holdings
    ensures forall r :: r in Under(holdings, ms, {}) <==> exists m :: m in ms && r in holdings[m]
  {
    if ms == [] {
    } else {
      var n := |ms| - 1;
      UnderMembers(holdings, ms[..n]);
      assert forall m :: m in ms <==> m in ms[..n] || m == ms[n];
    }
  }

  lemma {:induction false} UnderDistinct(holdings: Holdings, ms: seq<MultiKey>)
    requires Disjoint(holdings) && forall m :: m in ms ==> m in holdings
    ensures Distinct(Under(holdings, ms, {}))
  {
    if ms == [] {
    } else {
      var n := |ms| - 1;
      var first := Under(holdings, ms[..n], {});
      UnderDistinct(holdings, ms[..n]);
      UnderMembers(holdings, ms[..n]);
      if ms[n] !in ms[..n] {
        forall r | r in first ensures r !in holdings[ms[n]] {
          var m :| m in ms[..n] && r in holdings[m];
        }
        DistinctConcat(first, holdings[ms[n]]);
      }
    }
  }

  /** What a flush closes: each raw provider under each cached chain, exactly once. */
  lemma ClosedExactlyOnce(chains: Chains, holdings: Holdings, values: seq<Cached>, r: RawId)
    requires Covers(chains, holdings, values) && Disjoint(holdings)
    ensures forall m :: m in Reachable(chains, values) ==> m in holdings
    ensures multiset(Under(holdings, Reachable(chains, values), {}))[r] ==
            if exists v, m :: v in values && v.Chain? && m in chains[v.fallback] && r in holdings[m] then 1 else 0
  {
    ReachableMembers(chains, holdings, values);
    var ms := Reachable(chains, values);
    var all := Under(holdings, ms, {});
    UnderMembers(holdings, ms);
    UnderDistinct(holdings, ms);
    DistinctIffSingle(all);
    assert r in all <==> multiset(all)[r] > 0;
    if v, m :| v in values && v.Chain? && m in chains[v.fallback] && r in holdings[m] {
      assert m in ms;
    }
  }

  lemma {:induction false} NothingReachable(chains: Chains, values: seq<Cached>)
    requires forall v :: v in values && v.Chain? ==> v.fallback in chains && chains[v.fallback] == []
    ensures Reachable(chains, values) == []
  {
    if values == [] {
    } else {
      NothingReachable(chains, values[..|values| - 1]);
    }
  }

  /** Flushing the same values again closes nothing and raises nothing. */
  method FlushTwice(values: seq<Cached>, w: World, ghost chains: Chains, ghost holdings: Holdings)
    returns (cancelled: bool, cancelledAgain: bool)
    requires Covers(chains, holdings, values)
    requires TracksChains(chains, []) && Tracks(holdings, {})
    modifies w, chains.Keys, holdings.Keys
    ensures forall m :: m in Reachable(chains, values) ==> m in holdings
    ensures w.closed == old(w.closed) + Under(holdings, Reachable(chains, values), {})
    ensures !cancelledAgain
  {
    cancelled := Flush(values, w, chains, holdings);
    ghost var chainsNow: Chains := map f | f in chains :: f.providers;
    ghost var holdingsNow: Holdings := map m | m in holdings :: m.providers;
    assert forall v :: v in values && v.Chain? ==> v == Chain(v.fallback) && chainsNow[v.fallback] == [];
    NothingReachable(chainsNow, values);
    cancelledAgain := Flush(values, w, chainsNow, holdingsNow);
  }
}
