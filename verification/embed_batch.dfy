/** Cache-aside batch embeddings, in one API call or in chunks of 100. */
module EmbedBatch {
  import opened Options

  type Text = string
  type Vector = seq<real>

  const CHUNK_SIZE: nat := 100

  datatype Reply = Vectors(vectors: seq<Vector>) | ApiError(error: string)

  /** The third-party call; nothing says it returns one vector per text. */
  type Api = seq<Text> -> Reply

  datatype Result = Done(vectors: seq<Option<Vector>>) | NotConfigured | ApiFailed(error: string) | LengthMismatch

  type Cache = map<Text, Vector>

  ghost predicate Agrees(cache: Cache, embed: Text -> Vector) {
    forall t :: t in cache ==> cache[t] == embed(t)
  }

  /** One vector per text, the right one, in order. */
  ghost predicate Embeds(vectors: seq<Vector>, texts: seq<Text>, embed: Text -> Vector) {
    && |vectors| == |texts|
    && forall i :: 0 <= i < |texts| ==> vectors[i] == embed(texts[i])
  }

  /** The API does its job. */
  ghost predicate Faithful(api: Api, embed: Text -> Vector) {
    forall texts :: texts != [] ==> api(texts).Vectors? && Embeds(api(texts).vectors, texts, embed)
  }

  // ----- what a call does -----

  function Misses(texts: seq<Text>, cache: Cache): seq<Text> {
    if texts == [] then []
    else Misses(texts[..|texts| - 1], cache)
         + (if texts[|texts| - 1] in cache then [] else [texts[|texts| - 1]])
  }

  /** Where the misses stand. */
  function MissPlaces(texts: seq<Text>, cache: Cache): seq<nat> {
    if texts == [] then []
    else MissPlaces(texts[..|texts| - 1], cache)
         + (if texts[|texts| - 1] in cache then [] else [|texts| - 1])
  }

  function Chunks(texts: seq<Text>): seq<seq<Text>> {
    if |texts| == 0 then []
    else if |texts| <= CHUNK_SIZE then [texts]
    else [texts[..CHUNK_SIZE]] + Chunks(texts[CHUNK_SIZE..])
  }

  /** Several calls one after the other; the first error ends them. */
  function CallAll(api: Api, calls: seq<seq<Text>>): Reply {
    if calls == [] then Vectors([])
    else
      match CallAll(api, calls[..|calls| - 1])
      case ApiError(e) => ApiError(e)
      case Vectors(vs) =>
        match api(calls[|calls| - 1])
        case ApiError(e) => ApiError(e)
        case Vectors(more) => Vectors(vs + more)
  }

  function Min(a: nat, b: nat): nat { if a <= b then a else b }

  /** Texts and vectors are paired off and stored until either runs out. */
  function Store(cache: Cache, texts: seq<Text>, vectors: seq<Vector>, n: nat): Cache
    requires n <= |texts| && n <= |vectors|
  {
    if n == 0 then cache else Store(cache, texts, vectors, n - 1)[texts[n - 1] := vectors[n - 1]]
  }

  /** The reply to the misses decides everything else: an error leaves the cache alone; otherwise as
      many pairs as there are are stored, and the call succeeds iff none was left over. */
  ghost predicate Outcome(texts: seq<Text>, cache: Cache, reply: Reply, cache': Cache, result: Result) {
    var misses := Misses(texts, cache);
    match reply
    case ApiError(e) => cache' == cache && result == ApiFailed(e)
    case Vectors(vs) =>
      && cache' == Store(cache, misses, vs, Min(|misses|, |vs|))
      && (|vs| != |misses| <==> result == LengthMismatch)
      && (|vs| == |misses| ==> result.Done? && Filled(texts, cache, vs, result.vectors))
  }

  /** Hits come from the cache, and the k-th miss gets the k-th vector. */
  ghost predicate Filled(texts: seq<Text>, cache: Cache, vs: seq<Vector>, results: seq<Option<Vector>>) {
    var places := MissPlaces(texts, cache);
    && |results| == |texts|
    && (forall i :: 0 <= i < |texts| && texts[i] in cache ==> results[i] == Some(cache[texts[i]]))
    && (forall k :: 0 <= k < |places| ==> k < |vs| && places[k] < |texts| && results[places[k]] == Some(vs[k]))
  }

  // ----- lemmas -----

  function Join(calls: seq<seq<Text>>): seq<Text> {
    if calls == [] then [] else calls[0] + Join(calls[1..])
  }

  lemma {:induction false} ChunksCover(texts: seq<Text>)
    ensures forall c :: c in Chunks(texts) ==> 0 < |c| <= 100
    ensures forall i :: 0 <= i < |Chunks(texts)| - 1 ==> |Chunks(texts)[i]| == 100
    ensures Join(Chunks(texts)) == texts
  {
    if |texts| > CHUNK_SIZE {
      var rest := Chunks(texts[CHUNK_SIZE..]);
      ChunksCover(texts[CHUNK_SIZE..]);
      assert ([texts[..CHUNK_SIZE]] + rest)[1..] == rest;
    } else if texts != [] {
      assert [texts][1..] == [];
      assert texts + [] == texts;
    }
  }

  lemma {:induction false} JoinSnoc(calls: seq<seq<Text>>, last: seq<Text>)
    ensures Join(calls + [last]) == Join(calls) + last
  {
    if calls == [] {
      assert [last][1..] == [];
      assert last + [] == last;
    } else {
      JoinSnoc(calls[1..], last);
      assert (calls + [last])[1..] == calls[1..] + [last];
    }
  }

  /** A faithful API answers a series of calls like one call on all their texts. */
  lemma {:induction false} FaithfulCalls(api: Api, embed: Text -> Vector, calls: seq<seq<Text>>)
    requires Faithful(api, embed) && forall c :: c in calls ==> c != []
    ensures CallAll(api, calls).Vectors? && Embeds(CallAll(api, calls).vectors, Join(calls), embed)
  {
    if calls == [] {
    } else {
      var n := |calls| - 1;
      assert forall c :: c in calls[..n] ==> c in calls;
      FaithfulCalls(api, embed, calls[..n]);
      JoinSnoc(calls[..n], calls[n]);
      assert calls == calls[..n] + [calls[n]];
      assert calls[n] in calls;
      EmbedsConcat(CallAll(api, calls[..n]).vectors, Join(calls[..n]), api(calls[n]).vectors, calls[n], embed);
    }
  }

  /** The calls end with the first error, and that is the error reported. */
  lemma {:induction false} FirstErrorStops(api: Api, calls: seq<seq<Text>>, more: seq<seq<Text>>)
    requires CallAll(api, calls).Vectors? && more != [] && api(more[0]).ApiError?
    ensures CallAll(api, calls + more) == api(more[0])
  {
    if |more| == 1 {
      assert (calls + more)[..|calls + more| - 1] == calls;
    } else {
      var n := |more| - 1;
      FirstErrorStops(api, calls, more[..n]);
      assert (calls + more)[..|calls + more| - 1] == calls + more[..n];
    }
  }

  lemma EmbedsConcat(v: seq<Vector>, t: seq<Text>, w: seq<Vector>, u: seq<Text>, embed: Text -> Vector)
    requires Embeds(v, t, embed) && Embeds(w, u, embed)
    ensures Embeds(v + w, t + u, embed)
  {
  }

  /** Among the first n texts, none after i repeats it. */
  predicate LastOf(texts: seq<Text>, i: nat, n: nat)
    requires i < n <= |texts|
  {
    texts[i] !in texts[i + 1..n]
  }

  lemma LastOfFewer(texts: seq<Text>, n: nat)
    requires 0 < n <= |texts|
    ensures forall i :: 0 <= i < n - 1 && LastOf(texts, i, n) ==> LastOf(texts, i, n - 1) && texts[n - 1] != texts[i]
  {
    forall i | 0 <= i < n - 1 && LastOf(texts, i, n) ensures LastOf(texts, i, n - 1) && texts[n - 1] != texts[i] {
      assert texts[i + 1..n] == texts[i + 1..n - 1] + [texts[n - 1]];
    }
  }

  lemma {:induction false} StoreIs(cache: Cache, texts: seq<Text>, vectors: seq<Vector>, n: nat)
    requires n <= |texts| && n <= |vectors|
    ensures Store(cache, texts, vectors, n).Keys == cache.Keys + set i | 0 <= i < n :: texts[i]
    ensures forall t :: t in cache && (forall i :: 0 <= i < n ==> texts[i] != t) ==>
                        Store(cache, texts, vectors, n)[t] == cache[t]
    ensures forall i :: 0 <= i < n && LastOf(texts, i, n) ==> Store(cache, texts, vectors, n)[texts[i]] == vectors[i]
  {
    if n == 0 {
    } else {
      StoreIs(cache, texts, vectors, n - 1);
      LastOfFewer(texts, n);
      assert (set i | 0 <= i < n :: texts[i]) == (set i | 0 <= i < n - 1 :: texts[i]) + {texts[n - 1]};
    }
  }

  /** Misses and their places: in order, none left out. */
  lemma {:induction false} PlacesExact(texts: seq<Text>, cache: Cache)
    ensures var places, misses := MissPlaces(texts, cache), Misses(texts, cache);
            && |places| == |misses|
            && (forall k :: 0 <= k < |places| ==>
                  places[k] < |texts| && misses[k] == texts[places[k]] && misses[k] !in cache)
            && (forall j, k :: 0 <= j < k < |places| ==> places[j] < places[k])
            && (forall i :: 0 <= i < |texts| && texts[i] !in cache ==> i in places)
  {
    if texts == [] {
    } else {
      PlacesExact(texts[..|texts| - 1], cache);
    }
  }

  /** Of the first n vectors, the last one for each text is its own. */
  ghost predicate LastOnesRight(texts: seq<Text>, vs: seq<Vector>, n: nat, embed: Text -> Vector)
    requires n <= |texts| && n <= |vs|
  {
    forall i :: 0 <= i < n && LastOf(texts, i, n) ==> vs[i] == embed(texts[i])
  }

  lemma LastOnesStored(cache: Cache, texts: seq<Text>, vs: seq<Vector>, n: nat, embed: Text -> Vector)
    requires n <= |texts| && n <= |vs| && Agrees(cache, embed) && LastOnesRight(texts, vs, n, embed)
    ensures Agrees(Store(cache, texts, vs, n), embed)
  {
    var after := Store(cache, texts, vs, n);
    StoreIs(cache, texts, vs, n);
    forall t | t in after ensures after[t] == embed(t) {
      if k :| 0 <= k < n && texts[k] == t {
        var last := LastAt(texts, n, k);
      }
    }
  }

  /** The cache stays right iff the vector stored last for each missed text is that text's own.
      When the API returns too few or too many vectors the call fails, but what was paired off by
      then has been stored, wrong or not. */
  lemma CacheStaysRight(texts: seq<Text>, cache: Cache, vs: seq<Vector>, embed: Text -> Vector)
    requires Agrees(cache, embed)
    ensures var misses := Misses(texts, cache);
            var n := Min(|misses|, |vs|);
            Agrees(Store(cache, misses, vs, n), embed) <==> LastOnesRight(misses, vs, n, embed)
  {
    var misses := Misses(texts, cache);
    var n := Min(|misses|, |vs|);
    StoreIs(cache, misses, vs, n);
    if LastOnesRight(misses, vs, n, embed) {
      LastOnesStored(cache, misses, vs, n, embed);
    }
  }

  lemma LastAt(texts: seq<Text>, n: nat, k: nat) returns (last: nat)
    requires k < n <= |texts|
    ensures last < n && texts[last] == texts[k] && LastOf(texts, last, n)
    decreases n - k
  {
    if j :| k < j < n && texts[j] == texts[k] {
      last := LastAt(texts, n, j);
    } else {
      last := k;
    }
  }

  /** One vector short: the call raises, and the text in front of the gap has its neighbour's
      embedding for good. */
  lemma {:induction false} ShortReplyPoisons(embed: Text -> Vector)
    requires embed("a") != embed("b")
    ensures var after: Cache := map["a" := embed("b")];
            && Outcome(["a", "b"], map[], Vectors([embed("b")]), after, LengthMismatch)
            && !Agrees(after, embed)
  {
    assert ["a", "b"][..1] == ["a"] && ["a"][..0] == [];
    assert Misses(["a", "b"], map[]) == ["a", "b"];
    assert Store(map[], ["a", "b"], [embed("b")], 1) == map["a" := embed("b")];
    var after: Cache := map["a" := embed("b")];
    assert after["a"] == embed("b");
  }

  // ----- the calls -----

  class EmbeddingCache {
    var entries: Cache

    constructor ()
      ensures entries == map[]
    {
      entries := map[];
    }

    method Get(t: Text) returns (v: Option<Vector>)
      ensures v == if t in entries then Some(entries[t]) else None
    {
      v := if t in entries then Some(entries[t]) else None;
    }

    method Set(t: Text, v: Vector)
      modifies this
      ensures entries == old(entries)[t := v]
    {
      entries := entries[t := v];
    }
  }

  /** First pass: hits go to their place, misses are collected with the places they belong to. */
  method LookUp(texts: seq<Text>, cache: EmbeddingCache)
    returns (results: seq<Option<Vector>>, uncached: seq<Text>, places: seq<nat>)
    ensures uncached == Misses(texts, cache.entries) && places == MissPlaces(texts, cache.entries)
    ensures |results| == |texts|
    ensures forall i :: 0 <= i < |texts| ==>
      results[i] == if texts[i] in cache.entries then Some(cache.entries[texts[i]]) else None
  {
    results := seq(|texts|, _ => None);
    uncached, places := [], [];
    for i := 0 to |texts|
      invariant |results| == |texts|
      invariant uncached == Misses(texts[..i], cache.entries) && places == MissPlaces(texts[..i], cache.entries)
      invariant forall k :: 0 <= k < |texts| ==>
        results[k] == if k < i && texts[k] in cache.entries then Some(cache.entries[texts[k]]) else None
    {
      assert texts[..i + 1][..i] == texts[..i];
      var cached := cache.Get(texts[i]);
      if cached.Some? {
        results := results[i := cached];
      } else {
        uncached := uncached + [texts[i]];
        places := places + [i];
      }
    }
    assert texts[..|texts|] == texts;
  }

  /** The hits and the first k vectors are in place. */
  ghost predicate PlacedUpTo(
    texts: seq<Text>, before: Cache, vectors: seq<Vector>, results: seq<Option<Vector>>, k: nat)
    requires k <= |vectors| && k <= |MissPlaces(texts, before)|
  {
    var places := MissPlaces(texts, before);
    && |results| == |texts|
    && (forall i :: 0 <= i < |texts| && texts[i] in before ==> results[i] == Some(before[texts[i]]))
    && forall j :: 0 <= j < k ==> places[j] < |texts| && results[places[j]] == Some(vectors[j])
  }

  lemma PlaceNext(
    texts: seq<Text>, before: Cache, vectors: seq<Vector>, results: seq<Option<Vector>>, k: nat)
    requires k < |vectors| && k < |MissPlaces(texts, before)| && PlacedUpTo(texts, before, vectors, results, k)
    ensures var at := MissPlaces(texts, before)[k];
            && at < |texts| && k < |Misses(texts, before)| && texts[at] == Misses(texts, before)[k]
            && Store(before, Misses(texts, before), vectors, k + 1) ==
                 Store(before, Misses(texts, before), vectors, k)[texts[at] := vectors[k]]
            && PlacedUpTo(texts, before, vectors, results[at := Some(vectors[k])], k + 1)
  {
    PlacesExact(texts, before);
  }

  lemma AsManyPlaces(texts: seq<Text>, cache: Cache)
    ensures |MissPlaces(texts, cache)| == |Misses(texts, cache)|
  {
    PlacesExact(texts, cache);
  }

  /** Second pass: store and place the vectors pair by pair; a leftover raises. */
  method Place(texts: seq<Text>, cache: EmbeddingCache, hits: seq<Option<Vector>>,
               places: seq<nat>, vectors: seq<Vector>)
    returns (result: Result)
    requires |hits| == |texts| && places == MissPlaces(texts, cache.entries)
    requires forall i :: 0 <= i < |texts| && texts[i] in cache.entries ==> hits[i] == Some(cache.entries[texts[i]])
    modifies cache
    ensures Outcome(texts, old(cache.entries), Vectors(vectors), cache.entries, result)
  {
    var results := hits;
    ghost var before, misses := cache.entries, Misses(texts, cache.entries);
    AsManyPlaces(texts, before);
    for k := 0 to Min(|places|, |vectors|)
      invariant PlacedUpTo(texts, before, vectors, results, k)
      invariant cache.entries == Store(before, misses, vectors, k)
    {
      PlaceNext(texts, before, vectors, results, k);
      cache.Set(texts[places[k]], vectors[k]);
      results := results[places[k] := Some(vectors[k])];
    }
    result := if |places| == |vectors| then Done(results) else LengthMismatch;
  }

  /** OpenAI-compatible providers: all misses in one call. */
  method EmbedAtOnce(texts: seq<Text>, cache: EmbeddingCache, api: Api)
    returns (result: Result, calls: seq<seq<Text>>)
    modifies cache
    ensures calls == if Misses(texts, old(cache.entries)) == [] then [] else [Misses(texts, old(cache.entries))]
    ensures Outcome(texts, old(cache.entries), CallAll(api, calls), cache.entries, result)
  {
    calls := [];
    if texts == [] {
      return Done([]), calls;
    }
    var hits, uncached, places := LookUp(texts, cache);
    var reply := Vectors([]);
    if uncached != [] {
      calls := [uncached];
      assert calls[..0] == [];
      reply := api(uncached);
      assert reply.Vectors? ==> [] + reply.vectors == reply.vectors;
      if reply.ApiError? {
        return ApiFailed(reply.error), calls;
      }
    }
    result := Place(texts, cache, hits, places, reply.vectors);
  }

  lemma ChunkOff(texts: seq<Text>, start: nat, calls: seq<seq<Text>>)
    requires start < |texts|
    ensures var end := Min(start + CHUNK_SIZE, |texts|);
            && calls + Chunks(texts[start..]) == (calls + [texts[start..end]]) + Chunks(texts[end..])
            && (calls + [texts[start..end]])[..|calls|] == calls
  {
    var end := Min(start + CHUNK_SIZE, |texts|);
    var rest := texts[start..];
    if |rest| > CHUNK_SIZE {
      assert rest[..CHUNK_SIZE] == texts[start..end] && rest[CHUNK_SIZE..] == texts[end..];
    } else {
      assert rest == texts[start..end] && texts[end..] == [];
    }
  }

  /** An error leaves the loop at once, so `calls` ends with the failing chunk. */
  method CallInChunks(uncached: seq<Text>, api: Api) returns (reply: Reply, calls: seq<seq<Text>>)
    ensures reply == CallAll(api, calls)
    ensures calls <= Chunks(uncached) && (reply.Vectors? ==> calls == Chunks(uncached))
  {
    calls := [];
    var vectors: seq<Vector> := [];
    var start := 0;
    assert uncached[0..] == uncached && [] + Chunks(uncached) == Chunks(uncached);
    while start < |uncached|
      invariant 0 <= start && calls + Chunks(uncached[Min(start, |uncached|)..]) == Chunks(uncached)
      invariant CallAll(api, calls) == Vectors(vectors)
    {
      var end := Min(start + CHUNK_SIZE, |uncached|);
      var chunk := uncached[start..end];
      ChunkOff(uncached, start, calls);
      calls := calls + [chunk];
      match api(chunk) {
        case ApiError(e) => return ApiError(e), calls;
        case Vectors(more) => vectors := vectors + more;
      }
      start := start + CHUNK_SIZE;
    }
    assert calls + [] == calls;
    reply := Vectors(vectors);
  }

  /** Gemini: the misses in chunks of 100, all fetched before anything is stored. */
  method EmbedInChunks(texts: seq<Text>, cache: EmbeddingCache, api: Api, configured: bool)
    returns (result: Result, calls: seq<seq<Text>>)
    modifies cache
    ensures result == NotConfigured <==> texts != [] && !configured
    ensures result == NotConfigured ==> cache.entries == old(cache.entries) && calls == []
    ensures result != NotConfigured ==>
              && Outcome(texts, old(cache.entries), CallAll(api, calls), cache.entries, result)
              && calls <= Chunks(Misses(texts, old(cache.entries)))
              && (!result.ApiFailed? ==> calls == Chunks(Misses(texts, old(cache.entries))))
  {
    calls := [];
    if texts == [] {
      return Done([]), calls;
    }
    if !configured {
      return NotConfigured, calls;
    }
    var hits, uncached, places := LookUp(texts, cache);
    var reply;
    reply, calls := CallInChunks(uncached, api);
    match reply {
      case ApiError(e) =>
        result := ApiFailed(e);
      case Vectors(vectors) =>
        result := Place(texts, cache, hits, places, vectors);
    }
  }

  /** The calls either method makes for the misses: one with all of them, or the chunks in order, of
      which only an API error leaves any out. */
  ghost predicate CallsFor(calls: seq<seq<Text>>, misses: seq<Text>, result: Result) {
    || (misses != [] && calls == [misses])
    || (calls <= Chunks(misses) && (!result.ApiFailed? ==> calls == Chunks(misses)))
  }

  /** Every text's own embedding, in place. */
  ghost predicate Right(texts: seq<Text>, result: Result, embed: Text -> Vector) {
    && result.Done? && |result.vectors| == |texts|
    && forall i :: 0 <= i < |texts| ==> result.vectors[i] == Some(embed(texts[i]))
  }

  lemma PlacedCorrectly(
    texts: seq<Text>, cache: Cache, vs: seq<Vector>, cache': Cache, result: Result, embed: Text -> Vector)
    requires Agrees(cache, embed) && Embeds(vs, Misses(texts, cache), embed)
    requires Outcome(texts, cache, Vectors(vs), cache', result)
    ensures Right(texts, result, embed)
    ensures Agrees(cache', embed) && cache'.Keys == cache.Keys + set t | t in texts
  {
    FilledCorrectly(texts, cache, vs, result.vectors, embed);
    CacheCompleted(texts, cache, vs, embed);
  }

  lemma FilledCorrectly(
    texts: seq<Text>, cache: Cache, vs: seq<Vector>, results: seq<Option<Vector>>, embed: Text -> Vector)
    requires Agrees(cache, embed) && Embeds(vs, Misses(texts, cache), embed) && Filled(texts, cache, vs, results)
    ensures forall i :: 0 <= i < |texts| ==> results[i] == Some(embed(texts[i]))
  {
    var places := MissPlaces(texts, cache);
    PlacesExact(texts, cache);
    forall i | 0 <= i < |texts| ensures results[i] == Some(embed(texts[i])) {
      if texts[i] !in cache {
        var k :| 0 <= k < |places| && places[k] == i;
        assert Misses(texts, cache)[k] == texts[i];
      }
    }
  }

  lemma CacheCompleted(texts: seq<Text>, cache: Cache, vs: seq<Vector>, embed: Text -> Vector)
    requires Agrees(cache, embed) && Embeds(vs, Misses(texts, cache), embed)
    ensures var after := Store(cache, Misses(texts, cache), vs, |vs|);
            Agrees(after, embed) && after.Keys == cache.Keys + set t | t in texts
  {
    var misses := Misses(texts, cache);
    StoreIs(cache, misses, vs, |misses|);
    CacheStaysRight(texts, cache, vs, embed);
    MissesMiss(texts, cache);
    assert (set i | 0 <= i < |misses| :: misses[i]) == set t | t in misses;
  }

  lemma {:induction false} MissesMiss(texts: seq<Text>, cache: Cache)
    ensures forall t :: t in Misses(texts, cache) <==> t in texts && t !in cache
  {
    if texts == [] {
    } else {
      var n := |texts| - 1;
      MissesMiss(texts[..n], cache);
      assert forall t :: t in texts <==> t in texts[..n] || t == texts[n];
    }
  }

  lemma RepliesRight(api: Api, embed: Text -> Vector, misses: seq<Text>, calls: seq<seq<Text>>)
    requires Faithful(api, embed)
    requires calls == Chunks(misses) || (misses != [] && calls == [misses])
    ensures CallAll(api, calls).Vectors? && Embeds(CallAll(api, calls).vectors, misses, embed)
  {
    ChunksCover(misses);
    if calls == [misses] {
      JoinSnoc([], misses);
      assert [] + [misses] == [misses];
    }
    FaithfulCalls(api, embed, calls);
  }

  /** A faithful API has no errors, so no chunk is left out. */
  lemma NoCallFails(api: Api, embed: Text -> Vector, misses: seq<Text>, calls: seq<seq<Text>>, result: Result)
    requires Faithful(api, embed) && CallsFor(calls, misses, result)
    ensures CallAll(api, calls).Vectors?
  {
    ChunksCover(misses);
    assert calls <= Chunks(misses) ==> forall c :: c in calls ==> c in Chunks(misses);
    FaithfulCalls(api, embed, calls);
  }

  /** With a right cache and a faithful API either method is right, for any mix of hits, misses and
      duplicates, and leaves the cache right and complete. */
  lemma EmbedsCorrectly(
    texts: seq<Text>, cache: Cache, api: Api, calls: seq<seq<Text>>, cache': Cache, result: Result,
    embed: Text -> Vector)
    requires Agrees(cache, embed) && Faithful(api, embed)
    requires Outcome(texts, cache, CallAll(api, calls), cache', result)
    requires CallsFor(calls, Misses(texts, cache), result)
    ensures Right(texts, result, embed)
    ensures Agrees(cache', embed) && cache'.Keys == cache.Keys + set t | t in texts
  {
    NoCallFails(api, embed, Misses(texts, cache), calls, result);
    RepliesRight(api, embed, Misses(texts, cache), calls);
    PlacedCorrectly(texts, cache, CallAll(api, calls).vectors, cache', result, embed);
  }

  /** The OpenAI-compatible `embed_batch`. */
  method OpenAiEmbedBatch(texts: seq<Text>, cache: EmbeddingCache, api: Api, ghost embed: Text -> Vector)
    returns (result: Result)
    requires Agrees(cache.entries, embed) && Faithful(api, embed)
    modifies cache
    ensures Right(texts, result, embed)
    ensures Agrees(cache.entries, embed) && cache.entries.Keys == old(cache.entries.Keys) + set t | t in texts
  {
    var calls;
    result, calls := EmbedAtOnce(texts, cache, api);
    EmbedsCorrectly(texts, old(cache.entries), api, calls, cache.entries, result, embed);
  }

  /** Gemini's `embed_batch`. */
  method GeminiEmbedBatch(
    texts: seq<Text>, cache: EmbeddingCache, api: Api, configured: bool, ghost embed: Text -> Vector)
    returns (result: Result)
    requires Agrees(cache.entries, embed) && Faithful(api, embed)
    modifies cache
    ensures texts != [] && !configured ==> result == NotConfigured && cache.entries == old(cache.entries)
    ensures texts == [] || configured ==>
              && Right(texts, result, embed)
              && Agrees(cache.entries, embed) && cache.entries.Keys == old(cache.entries.Keys) + set t | t in texts
  {
    var calls;
    result, calls := EmbedInChunks(texts, cache, api, configured);
    if result != NotConfigured {
      EmbedsCorrectly(texts, old(cache.entries), api, calls, cache.entries, result, embed);
    }
  }
}
