/** ProviderFallback: score-ordered chat, dimension-checked embeddings. */
module ProviderFallback {
  import opened Options
  import opened Sorting

  // ----- provider metrics -----

  datatype Metrics = Metrics(
    successCount: nat, failureCount: nat, totalLatency: real, callCount: nat, lastFailureTime: real)

  predicate Sensible(m: Metrics) { m.totalLatency >= 0.0 }

  function SuccessRate(m: Metrics): real {
    var total := m.successCount + m.failureCount;
    if total == 0 then 1.0 else m.successCount as real / total as real
  }

  function AvgLatency(m: Metrics): real {
    if m.callCount == 0 then 0.0 else m.totalLatency / m.callCount as real
  }

  function Score(m: Metrics, now: real): real {
    var lat := 1.0 - AvgLatency(m) / 10.0;
    var latScore := if m.callCount > 0 then (if lat > 0.0 then lat else 0.0) else 0.5;
    var penalty := if m.lastFailureTime > 0.0 && now - m.lastFailureTime < 60.0 then 0.3 else 1.0;
    (SuccessRate(m) * 0.6 + latScore * 0.4) * penalty
  }

  type Providers = map<string, Metrics>

  /** A provider nobody has called yet gets the best score there is. */
  function ScoreOf(metrics: Providers, name: string, now: real): real {
    if name in metrics then Score(metrics[name], now) else 1.0
  }

  lemma {:induction false} SuccessRateRange(m: Metrics)
    ensures 0.0 <= SuccessRate(m) <= 1.0
    ensures SuccessRate(m) == 1.0 <==> m.failureCount == 0
  {
    var s, total := m.successCount as real, (m.successCount + m.failureCount) as real;
    if total != 0.0 {
      var q := s / total;
      assert q * total == s;
      assert q > 1.0 ==> q * total > total;
      assert q < 0.0 ==> q * total < 0.0;
    }
  }

  /** Scores lie in [0, 1], and only a provider that has never failed and answered with no latency
      at all can tie with an untried one. */
  lemma {:induction false} ScoreRange(m: Metrics, now: real)
    requires Sensible(m)
    ensures 0.0 <= Score(m, now) <= 1.0
    ensures Score(m, now) == 1.0 <==> m.failureCount == 0 && m.callCount > 0 && m.totalLatency == 0.0
                                      && !(m.lastFailureTime > 0.0 && now - m.lastFailureTime < 60.0)
  {
    SuccessRateRange(m);
    if m.callCount > 0 {
      var q := AvgLatency(m);
      assert q * m.callCount as real == m.totalLatency;
      assert q < 0.0 ==> q * m.callCount as real < 0.0;
      assert q == 0.0 <==> m.totalLatency == 0.0;
    }
  }

  // ----- chat -----

  datatype Provider = Provider(name: string, id: nat)

  /** What one provider does: answers, fails in a way that lets the next one try (exhausted, not
      supported, or retryable), or raises something else. */
  datatype Reply<+V> = Answer(value: V) | GiveUp(error: string) | Crash(error: string)

  datatype Result<+V> = Success(value: V) | Failure(error: Option<string>)

  ghost predicate Ordered(metrics: Providers, now: real, s: seq<Provider>) {
    forall i, j :: 0 <= i < j < |s| ==> ScoreOf(metrics, s[i].name, now) >= ScoreOf(metrics, s[j].name, now)
  }

  function WithScore(metrics: Providers, now: real, score: real, s: seq<Provider>): seq<Provider> {
    if s == [] then []
    else (if ScoreOf(metrics, s[0].name, now) == score then [s[0]] else []) + WithScore(metrics, now, score, s[1..])
  }

  ghost predicate SameTies(metrics: Providers, now: real, a: seq<Provider>, b: seq<Provider>) {
    forall score :: WithScore(metrics, now, score, a) == WithScore(metrics, now, score, b)
  }

  /** The order in which providers are tried: each one once, best score first, ties as configured. */
  ghost predicate TryOrder(metrics: Providers, now: real, configured: seq<Provider>, order: seq<Provider>) {
    && multiset(order) == multiset(configured)
    && Ordered(metrics, now, order)
    && SameTies(metrics, now, order, configured)
  }

  function HigherFirst(metrics: Providers, now: real): (Provider, Provider) -> bool {
    (a: Provider, b: Provider) => ScoreOf(metrics, a.name, now) >= ScoreOf(metrics, b.name, now)
  }

  lemma {:induction false} TiedIsWithScore(metrics: Providers, now: real, pivot: Provider, s: seq<Provider>)
    ensures Tied(HigherFirst(metrics, now), pivot, s) == WithScore(metrics, now, ScoreOf(metrics, pivot.name, now), s)
  {
    if s == [] {
    } else {
      TiedIsWithScore(metrics, now, pivot, s[1..]);
    }
  }

  lemma {:induction false} NoneWithScore(metrics: Providers, now: real, score: real, s: seq<Provider>)
    requires forall p :: p in s ==> ScoreOf(metrics, p.name, now) != score
    ensures WithScore(metrics, now, score, s) == []
  {
    if s == [] {
    } else {
      NoneWithScore(metrics, now, score, s[1..]);
    }
  }

  lemma SortGivesTryOrder(metrics: Providers, now: real, configured: seq<Provider>)
    ensures TryOrder(metrics, now, configured, Sort(HigherFirst(metrics, now), configured))
  {
    var le := HigherFirst(metrics, now);
    var order := Sort(le, configured);
    SortIsSortedPermutation(le, configured);
    forall i, j | 0 <= i < j < |order|
      ensures ScoreOf(metrics, order[i].name, now) >= ScoreOf(metrics, order[j].name, now)
    {
      assert le(order[i], order[j]);
    }
    forall score ensures WithScore(metrics, now, score, order) == WithScore(metrics, now, score, configured) {
      if pivot :| pivot in configured && ScoreOf(metrics, pivot.name, now) == score {
        SortIsStable(le, configured, pivot);
        TiedIsWithScore(metrics, now, pivot, order);
        TiedIsWithScore(metrics, now, pivot, configured);
      } else {
        forall p | p in order ensures p in configured {
          assert p in multiset(order);
        }
        NoneWithScore(metrics, now, score, order);
        NoneWithScore(metrics, now, score, configured);
      }
    }
  }

  /** The try order is unique, so it does not matter how it was computed. */
  lemma TryOrderUnique(
    metrics: Providers, now: real, configured: seq<Provider>, a: seq<Provider>, b: seq<Provider>)
    requires TryOrder(metrics, now, configured, a) && TryOrder(metrics, now, configured, b)
    ensures a == b
  {
    SameOrder(metrics, now, a, b);
  }

  lemma HeadsAgree(metrics: Providers, now: real, a: seq<Provider>, b: seq<Provider>)
    requires Ordered(metrics, now, a) && Ordered(metrics, now, b) && multiset(a) == multiset(b) && a != []
    requires SameTies(metrics, now, a, b)
    ensures b != [] && a[0] == b[0]
  {
    assert a[0] in multiset(a) && a[0] in b;
    assert b[0] in multiset(b) && b[0] in a;
    var score := ScoreOf(metrics, a[0].name, now);
    assert ScoreOf(metrics, b[0].name, now) == score;
    assert WithScore(metrics, now, score, a)[0] == a[0] && WithScore(metrics, now, score, b)[0] == b[0];
  }

  lemma TailsAgree(metrics: Providers, now: real, a: seq<Provider>, b: seq<Provider>)
    requires a != [] && b != [] && a[0] == b[0] && multiset(a) == multiset(b)
    requires SameTies(metrics, now, a, b)
    ensures SameTies(metrics, now, a[1..], b[1..]) && multiset(a[1..]) == multiset(b[1..])
  {
    forall score ensures WithScore(metrics, now, score, a[1..]) == WithScore(metrics, now, score, b[1..]) {
      var n := if ScoreOf(metrics, a[0].name, now) == score then 1 else 0;
      assert WithScore(metrics, now, score, a)[n..] == WithScore(metrics, now, score, a[1..]);
      assert WithScore(metrics, now, score, b)[n..] == WithScore(metrics, now, score, b[1..]);
    }
    assert a == [a[0]] + a[1..] && b == [b[0]] + b[1..];
    assert multiset(a[1..]) == multiset(a) - multiset{a[0]};
    assert multiset(b[1..]) == multiset(b) - multiset{b[0]};
  }

  lemma {:induction false} SameOrder(metrics: Providers, now: real, a: seq<Provider>, b: seq<Provider>)
    requires Ordered(metrics, now, a) && Ordered(metrics, now, b) && multiset(a) == multiset(b)
    requires SameTies(metrics, now, a, b)
    ensures a == b
  {
    if a == [] {
      assert |multiset(b)| == 0;
    } else {
      HeadsAgree(metrics, now, a, b);
      TailsAgree(metrics, now, a, b);
      SameOrder(metrics, now, a[1..], b[1..]);
    }
  }

  /** An untried provider comes before every one whose score is below 1. */
  lemma UntriedFirst(metrics: Providers, now: real, configured: seq<Provider>, order: seq<Provider>, i: nat, j: nat)
    requires TryOrder(metrics, now, configured, order)
    requires i < |order| && j < |order| && order[i].name !in metrics
    requires ScoreOf(metrics, order[j].name, now) < 1.0
    ensures i < j
  {
  }

  // ----- what the order means -----

  /** Whether the provider failed less than a minute ago. */
  predicate FailedLately(m: Metrics, now: real) { 0.0 < m.lastFailureTime && now - m.lastFailureTime < 60.0 }

  /** The share of calls that worked; all of them before the first. */
  function Rate(m: Metrics): real {
    if m.successCount + m.failureCount == 0 then 1.0
    else m.successCount as real / (m.successCount + m.failureCount) as real
  }

  /** The mean latency in units of ten seconds, at most one; a half before the first call. */
  function Slowness(m: Metrics): real {
    if m.callCount == 0 then 0.5
    else
      var mean := m.totalLatency / m.callCount as real;
      if mean >= 10.0 then 1.0 else mean / 10.0
  }

  /** Six parts for working and four for being fast make ten; a late failure leaves three tenths. */
  lemma ScoreMeans(m: Metrics, now: real)
    ensures 10.0 * Score(m, now) ==
            (6.0 * Rate(m) + 4.0 * (1.0 - Slowness(m))) * (if FailedLately(m, now) then 0.3 else 1.0)
  {
    if m.callCount > 0 {
      var mean := m.totalLatency / m.callCount as real;
      assert mean >= 10.0 <==> 1.0 - mean / 10.0 <= 0.0;
    }
  }

  /** Which of two providers the score puts ahead, if neither has failed lately: the one whose better
      rate outweighs its slowness, six to four. */
  lemma WhoIsAhead(a: Metrics, b: Metrics, now: real)
    ensures !FailedLately(a, now) && !FailedLately(b, now) ==>
              (Score(a, now) > Score(b, now) <==> 6.0 * (Rate(a) - Rate(b)) > 4.0 * (Slowness(a) - Slowness(b)))
    ensures FailedLately(a, now) && !FailedLately(b, now) ==>
              (Score(a, now) > Score(b, now) <==>
               3.0 * (6.0 * Rate(a) + 4.0 * (1.0 - Slowness(a))) > 10.0 * (6.0 * Rate(b) + 4.0 * (1.0 - Slowness(b))))
    ensures FailedLately(a, now) && FailedLately(b, now) ==>
              (Score(a, now) > Score(b, now) <==> 6.0 * (Rate(a) - Rate(b)) > 4.0 * (Slowness(a) - Slowness(b)))
  {
    ScoreMeans(a, now);
    ScoreMeans(b, now);
  }

  /** Ten times the score, from the counts alone. */
  function Worth(metrics: Providers, name: string, now: real): real {
    if name !in metrics then 10.0
    else
      var m := metrics[name];
      (6.0 * Rate(m) + 4.0 * (1.0 - Slowness(m))) * (if FailedLately(m, now) then 0.3 else 1.0)
  }

  /** The order in which providers are asked, from the counts alone: worth more means earlier, and of
      two that are worth the same the one configured first. */
  lemma {:induction false} AskedByWorth(metrics: Providers, now: real, configured: seq<Provider>, order: seq<Provider>)
    requires TryOrder(metrics, now, configured, order)
    ensures forall i, j ::
              (0 <= i < |order| && 0 <= j < |order|
               && Worth(metrics, order[i].name, now) > Worth(metrics, order[j].name, now)) ==> i < j
  {
    forall i, j | 0 <= i < |order| && 0 <= j < |order|
                  && Worth(metrics, order[i].name, now) > Worth(metrics, order[j].name, now)
      ensures i < j
    {
      WorthIsScore(metrics, now, order[i].name);
      WorthIsScore(metrics, now, order[j].name);
      assert ScoreOf(metrics, order[i].name, now) > ScoreOf(metrics, order[j].name, now);
    }
  }

  lemma WorthIsScore(metrics: Providers, now: real, name: string)
    ensures Worth(metrics, name, now) == 10.0 * ScoreOf(metrics, name, now)
  {
    if name in metrics {
      ScoreMeans(metrics[name], now);
    }
  }

  /** Two providers: the second configured is asked first iff it is worth more. */
  lemma {:induction false} AskedFirst(metrics: Providers, now: real, a: Provider, b: Provider, order: seq<Provider>)
    requires TryOrder(metrics, now, [a, b], order)
    ensures order == if Worth(metrics, b.name, now) > Worth(metrics, a.name, now) then [b, a] else [a, b]
  {
    WorthIsScore(metrics, now, a.name);
    WorthIsScore(metrics, now, b.name);
    var ahead := ScoreOf(metrics, b.name, now) > ScoreOf(metrics, a.name, now);
    var expected := if ahead then [b, a] else [a, b];
    assert TryOrder(metrics, now, [a, b], expected) by {
      assert multiset([a, b]) == multiset([b, a]);
      assert [a, b][1..] == [b] && [b, a][1..] == [a];
      assert [a][1..] == [] && [b][1..] == [];
    }
    TryOrderUnique(metrics, now, [a, b], order, expected);
  }

  /** At 1000: one that worked ten times out of ten in six seconds each is asked before one that
      worked once out of two, but in half a second. */
  lemma ReliableBeforeFast()
    ensures var a := Metrics(10, 0, 60.0, 10, 0.0);
            var b := Metrics(1, 1, 0.5, 1, 100.0);
            Score(a, 1000.0) == 0.76 && Score(b, 1000.0) == 0.68
  {
  }

  ghost predicate ChatOutcome<V(!new)>(order: seq<Provider>, reply: Provider -> Reply<V>, tried: nat, r: Result<V>) {
    && tried <= |order|
    && match r
       case Success(v) =>
         && 0 < tried && reply(order[tried - 1]) == Answer(v)
         && forall i :: 0 <= i < tried - 1 ==> reply(order[i]).GiveUp?
       case Failure(Some(e)) =>
         && 0 < tried && (forall i :: 0 <= i < tried - 1 ==> reply(order[i]).GiveUp?)
         && (reply(order[tried - 1]) == Crash(e) || (reply(order[tried - 1]) == GiveUp(e) && tried == |order|))
       case Failure(None) => order == []
  }

  // ----- embeddings -----

  const MISMATCH: string := "Embedding dimension mismatch"

  type Vector = seq<real>

  /** The length that is compared: of the vector, or of the first vector of a batch. */
  function OwnLength(v: Vector): Option<nat> { Some(|v|) }

  function FirstLength(vs: seq<Vector>): Option<nat> { if vs == [] then None else Some(|vs[0]|) }

  /** The provider fails, or answers with another length than the chain is committed to. */
  predicate PassedOver<V>(reply: Reply<V>, length: V -> Option<nat>, dim: Option<nat>) {
    || reply.GiveUp?
    || (reply.Answer? && dim.Some? && length(reply.value).Some? && length(reply.value) != dim)
  }

  predicate AllPassedOver<V>(
    ps: seq<Provider>, reply: Provider -> Reply<V>, length: V -> Option<nat>, dim: Option<nat>)
  {
    forall i :: 0 <= i < |ps| ==> PassedOver(reply(ps[i]), length, dim)
  }

  /** The i-th provider is the first one not passed over. */
  ghost predicate Decides<V>(
    ps: seq<Provider>, i: int, reply: Provider -> Reply<V>, length: V -> Option<nat>, dim: Option<nat>)
  {
    0 <= i < |ps| && AllPassedOver(ps[..i], reply, length, dim) && !PassedOver(reply(ps[i]), length, dim)
  }

  /** Its answer is the result, and commits the chain to a length if none was known; its crash is
      raised. */
  ghost predicate Decided<V>(
    reply: Reply<V>, length: V -> Option<nat>, dim: Option<nat>, r: Result<V>, dim': Option<nat>)
  {
    match reply
    case Answer(v) => r == Success(v) && dim' == if dim.None? then length(v) else dim
    case Crash(e) => r == Failure(Some(e)) && dim' == dim
    case GiveUp(_) => false
  }

  /** What the caller is told when every provider was passed over. */
  function LastError<V>(ps: seq<Provider>, reply: Provider -> Reply<V>): Option<string> {
    if ps == [] then None
    else
      match reply(ps[|ps| - 1])
      case Answer(_) => Some(MISMATCH)
      case GiveUp(e) => Some(e)
      case Crash(e) => Some(e)
  }

  /** The rule of `embed` and `embed_batch`. */
  ghost predicate EmbedOutcome<V>(
    ps: seq<Provider>, reply: Provider -> Reply<V>, length: V -> Option<nat>, dim: Option<nat>,
    r: Result<V>, dim': Option<nat>)
  {
    if AllPassedOver(ps, reply, length, dim) then r == Failure(LastError(ps, reply)) && dim' == dim
    else exists i :: Decides(ps, i, reply, length, dim) && Decided(reply(ps[i]), length, dim, r, dim')
  }

  lemma {:induction false} DeciderUnique<V>(
    ps: seq<Provider>, i: int, j: int, reply: Provider -> Reply<V>, length: V -> Option<nat>, dim: Option<nat>)
    requires Decides(ps, i, reply, length, dim) && Decides(ps, j, reply, length, dim)
    ensures i == j
  {
    assert forall k :: 0 <= k < i ==> ps[k] == ps[..i][k];
    assert forall k :: 0 <= k < j ==> ps[k] == ps[..j][k];
  }

  /** Either the i-th provider is passed over as well, or it decides. */
  lemma NextProvider<V>(
    ps: seq<Provider>, i: nat, reply: Provider -> Reply<V>, length: V -> Option<nat>, dim: Option<nat>)
    requires i < |ps| && AllPassedOver(ps[..i], reply, length, dim)
    ensures if PassedOver(reply(ps[i]), length, dim) then AllPassedOver(ps[..i + 1], reply, length, dim)
            else Decides(ps, i, reply, length, dim) && !AllPassedOver(ps, reply, length, dim)
    ensures ps[..i + 1] == ps[..i] + [ps[i]]
  {
    assert ps[..i + 1] == ps[..i] + [ps[i]];
  }

  /** One embedding: the first provider whose vector has the committed length (any length, if none is
      committed) answers and commits the chain; a crash before that is raised; failing that, the
      caller hears of the last provider. */
  lemma {:induction false} EmbedMeans(
    ps: seq<Provider>, reply: Provider -> Reply<Vector>, dim: Option<nat>, r: Result<Vector>, dim': Option<nat>, i: nat)
    requires EmbedOutcome(ps, reply, OwnLength, dim, r, dim') && i <= |ps|
    requires forall j :: 0 <= j < i ==>
      reply(ps[j]).GiveUp? || (reply(ps[j]).Answer? && dim.Some? && |reply(ps[j]).value| != dim.value)
    ensures i < |ps| ==>
              match reply(ps[i])
              case Answer(v) => dim.None? || |v| == dim.value ==> r == Success(v) && dim' == Some(|v|)
              case Crash(e) => r == Failure(Some(e)) && dim' == dim
              case GiveUp(_) => true
    ensures i == |ps| ==>
              && r.Failure? && dim' == dim && (r.error.None? <==> ps == [])
              && (ps != [] && reply(ps[i - 1]).GiveUp? ==> r.error == Some(reply(ps[i - 1]).error))
  {
    assert forall j :: 0 <= j < i ==> ps[..i][j] == ps[j];
    if i < |ps| && !PassedOver(reply(ps[i]), OwnLength, dim) {
      assert Decides(ps, i, reply, OwnLength, dim);
      var d :| Decides(ps, d, reply, OwnLength, dim) && Decided(reply(ps[d]), OwnLength, dim, r, dim');
      DeciderUnique(ps, i, d, reply, OwnLength, dim);
    }
  }

  /** A batch: an empty one answers; otherwise the length of its first vector decides in the same way. */
  lemma {:induction false} BatchMeans(
    ps: seq<Provider>, reply: Provider -> Reply<seq<Vector>>, dim: Option<nat>, r: Result<seq<Vector>>,
    dim': Option<nat>, i: nat)
    requires EmbedOutcome(ps, reply, FirstLength, dim, r, dim') && i <= |ps|
    requires forall j :: 0 <= j < i ==>
      || reply(ps[j]).GiveUp?
      || (reply(ps[j]).Answer? && dim.Some? && reply(ps[j]).value != [] && |reply(ps[j]).value[0]| != dim.value)
    ensures i < |ps| ==>
              match reply(ps[i])
              case Answer(vs) =>
                && (vs == [] ==> r == Success(vs) && dim' == dim)
                && (vs != [] && (dim.None? || |vs[0]| == dim.value) ==> r == Success(vs) && dim' == Some(|vs[0]|))
              case Crash(e) => r == Failure(Some(e)) && dim' == dim
              case GiveUp(_) => true
    ensures i == |ps| ==>
              && r.Failure? && dim' == dim && (r.error.None? <==> ps == [])
              && (ps != [] && reply(ps[i - 1]).GiveUp? ==> r.error == Some(reply(ps[i - 1]).error))
  {
    assert forall j :: 0 <= j < i ==> ps[..i][j] == ps[j];
    if i < |ps| && !PassedOver(reply(ps[i]), FirstLength, dim) {
      assert Decides(ps, i, reply, FirstLength, dim);
      var d :| Decides(ps, d, reply, FirstLength, dim) && Decided(reply(ps[d]), FirstLength, dim, r, dim');
      DeciderUnique(ps, i, d, reply, FirstLength, dim);
    }
  }

  predicate SameLength(vs: seq<Vector>) {
    forall i, j :: 0 <= i < |vs| && 0 <= j < |vs| ==> |vs[i]| == |vs[j]|
  }

  predicate AllOfLength(vs: seq<Vector>, dim: Option<nat>) {
    forall v :: v in vs ==> dim == Some(|v|)
  }

  /** Exactly when a batch keeps the promise that every vector has the length the chain is committed
      to: the batch of the first provider that is not passed over has only one length. */
  lemma {:induction false} DimensionsExactly(
    ps: seq<Provider>, reply: Provider -> Reply<seq<Vector>>, dim: Option<nat>, r: Result<seq<Vector>>,
    dim': Option<nat>)
    requires EmbedOutcome(ps, reply, FirstLength, dim, r, dim')
    ensures (r.Success? ==> AllOfLength(r.value, dim')) <==>
            forall i :: Decides(ps, i, reply, FirstLength, dim) && reply(ps[i]).Answer? ==>
              SameLength(reply(ps[i]).value)
  {
    if AllPassedOver(ps, reply, FirstLength, dim) {
      assert forall i :: !Decides(ps, i, reply, FirstLength, dim);
    } else {
      var i :| Decides(ps, i, reply, FirstLength, dim) && Decided(reply(ps[i]), FirstLength, dim, r, dim');
      forall j | Decides(ps, j, reply, FirstLength, dim) ensures j == i {
        DeciderUnique(ps, i, j, reply, FirstLength, dim);
      }
      if r.Success? {
        FirstSpeaksForAll(r.value, dim');
      }
    }
  }

  lemma FirstSpeaksForAll(vs: seq<Vector>, dim: Option<nat>)
    requires vs != [] ==> dim == Some(|vs[0]|)
    ensures AllOfLength(vs, dim) <==> SameLength(vs)
  {
    if AllOfLength(vs, dim) {
      forall i, j | 0 <= i < |vs| && 0 <= j < |vs| ensures |vs[i]| == |vs[j]| {
        assert vs[i] in vs && vs[j] in vs;
      }
    }
  }

  /** Providers whose batches have one length each keep the whole chain at one length. */
  lemma {:induction false} UniformBatchesAreChecked(
    ps: seq<Provider>, reply: Provider -> Reply<seq<Vector>>, dim: Option<nat>, r: Result<seq<Vector>>,
    dim': Option<nat>)
    requires EmbedOutcome(ps, reply, FirstLength, dim, r, dim')
    requires forall p :: p in ps && reply(p).Answer? ==> SameLength(reply(p).value)
    ensures r.Success? ==> AllOfLength(r.value, dim')
  {
    DimensionsExactly(ps, reply, dim, r, dim');
  }

  /** A batch of two lengths gets through, and commits the chain to the first. */
  lemma MixedBatchGetsThrough(p: Provider)
    ensures var mixed := [[1.0], [1.0, 2.0]];
            && EmbedOutcome([p], (_: Provider) => Answer(mixed), FirstLength, None, Success(mixed), Some(1))
            && !AllOfLength(mixed, Some(1))
  {
    var mixed := [[1.0], [1.0, 2.0]];
    var reply: Provider -> Reply<seq<Vector>> := _ => Answer(mixed);
    assert Decides([p], 0, reply, FirstLength, None);
    assert mixed[1] in mixed;
  }

  // ----- the provider chain -----

  class Fallback {
    var providers: seq<Provider>
    var lastPrimaryDim: Option<nat>

    constructor (providers: seq<Provider>)
      ensures this.providers == providers && lastPrimaryDim == None
    {
      this.providers, lastPrimaryDim := providers, None;
    }

    /** chat and chat_with_tools. */
    method Chat<V(!new)>(metrics: Providers, now: real, reply: Provider -> Reply<V>)
      returns (r: Result<V>, order: seq<Provider>, tried: nat)
      ensures TryOrder(metrics, now, providers, order)
      ensures forall i, j ::
                (0 <= i < |order| && 0 <= j < |order|
                 && Worth(metrics, order[i].name, now) > Worth(metrics, order[j].name, now)) ==> i < j
      ensures ChatOutcome(order, reply, tried, r)
    {
      order := Sort(HigherFirst(metrics, now), providers);
      SortGivesTryOrder(metrics, now, providers);
      AskedByWorth(metrics, now, providers, order);
      var lastError: Option<string> := None;
      tried := 0;
      for i := 0 to |order|
        invariant tried == i
        invariant forall n :: 0 <= n < i ==> reply(order[n]).GiveUp?
        invariant if i == 0 then lastError == None else lastError == Some(reply(order[i - 1]).error)
      {
        tried := i + 1;
        match reply(order[i]) {
          case Answer(v) => return Success(v), order, tried;
          case Crash(e) => return Failure(Some(e)), order, tried;
          case GiveUp(e) => lastError := Some(e);
        }
      }
      r := Failure(lastError);
    }

    /** One embedding: providers in configured order; a vector of another length than the first one
        ever returned counts as a failure. */
    method Embed(reply: Provider -> Reply<Vector>) returns (r: Result<Vector>)
      modifies this`lastPrimaryDim
      ensures EmbedOutcome(providers, reply, OwnLength, old(lastPrimaryDim), r, lastPrimaryDim)
      ensures old(lastPrimaryDim).Some? ==> lastPrimaryDim == old(lastPrimaryDim)
      ensures r.Success? ==> lastPrimaryDim == Some(|r.value|)
    {
      var lastError: Option<string> := None;
      for i := 0 to |providers|
        invariant lastPrimaryDim == old(lastPrimaryDim)
        invariant AllPassedOver(providers[..i], reply, OwnLength, lastPrimaryDim)
        invariant lastError == LastError(providers[..i], reply)
      {
        NextProvider(providers, i, reply, OwnLength, lastPrimaryDim);
        match reply(providers[i]) {
          case Answer(v) =>
            if lastPrimaryDim.None? {
              lastPrimaryDim := Some(|v|);
              return Success(v);
            }
            if |v| == lastPrimaryDim.value {
              return Success(v);
            }
            lastError := Some(MISMATCH);
          case GiveUp(e) => lastError := Some(e);
          case Crash(e) => return Failure(Some(e));
        }
      }
      assert providers[..|providers|] == providers;
      r := Failure(lastError);
    }

    /** A batch: only the first vector is measured, so a later one of another length gets through. */
    method EmbedBatch(reply: Provider -> Reply<seq<Vector>>) returns (r: Result<seq<Vector>>)
      modifies this`lastPrimaryDim
      ensures EmbedOutcome(providers, reply, FirstLength, old(lastPrimaryDim), r, lastPrimaryDim)
      ensures old(lastPrimaryDim).Some? ==> lastPrimaryDim == old(lastPrimaryDim)
    {
      var lastError: Option<string> := None;
      for i := 0 to |providers|
        invariant lastPrimaryDim == old(lastPrimaryDim)
        invariant AllPassedOver(providers[..i], reply, FirstLength, lastPrimaryDim)
        invariant lastError == LastError(providers[..i], reply)
      {
        NextProvider(providers, i, reply, FirstLength, lastPrimaryDim);
        match reply(providers[i]) {
          case Answer(vs) =>
            if vs != [] {
              if lastPrimaryDim.None? {
                lastPrimaryDim := Some(|vs[0]|);
                return Success(vs);
              }
              if |vs[0]| != lastPrimaryDim.value {
                lastError := Some(MISMATCH);
                continue;
              }
            }
            return Success(vs);
          case GiveUp(e) => lastError := Some(e);
          case Crash(e) => return Failure(Some(e));
        }
      }
      assert providers[..|providers|] == providers;
      r := Failure(lastError);
    }
  }

  // ----- the configured order -----

  const PROVIDER_ORDER: seq<string> := ["deepseek", "grok", "mimo", "groq", "openrouter", "openai",
    "gemini", "mistral", "cloudflare", "anthropic", "custom"]

  function Without(names: seq<string>, name: string): seq<string> {
    if names == [] then []
    else (if names[0] == name then [] else [names[0]]) + Without(names[1..], name)
  }

  function ProviderOrder(primary: string): seq<string> { [primary] + Without(PROVIDER_ORDER, primary) }

  lemma {:induction false} WithoutKeeps(names: seq<string>, name: string)
    requires Distinct(names)
    ensures Distinct(Without(names, name))
    ensures forall n :: n in Without(names, name) <==> n in names && n != name
  {
    if names == [] {
    } else {
      WithoutKeeps(names[1..], name);
      assert forall i :: 0 <= i < |names[1..]| ==> names[1..][i] == names[i + 1] != names[0];
      assert names[0] !in Without(names[1..], name);
    }
  }

  lemma KnownOnce()
    ensures Distinct(PROVIDER_ORDER)
  {
  }

  /** The chain starts with the user's provider and offers every known provider exactly once. */
  lemma ChainIsComplete(primary: string)
    ensures ProviderOrder(primary)[0] == primary
    ensures Distinct(ProviderOrder(primary))
    ensures forall n :: n in ProviderOrder(primary) <==> n == primary || n in PROVIDER_ORDER
  {
    KnownOnce();
    WithoutKeeps(PROVIDER_ORDER, primary);
    var rest := Without(PROVIDER_ORDER, primary);
    assert primary !in rest;
    assert forall i :: 0 <= i < |rest| ==> ProviderOrder(primary)[i + 1] == rest[i];
  }
}
