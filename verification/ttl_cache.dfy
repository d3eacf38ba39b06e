/** The in-memory TTL cache: bounded, oldest entry evicted first, invalidated by key prefix. */
module TtlCache {
  import opened Options
  import opened Sorting

  type Key = string

  const MAX_CACHE_SIZE: nat := 2000

  datatype Entry<+V> = Entry(expiresAt: real, value: V)

  // ----- the history -----

  datatype Event<+V> =
    | Stored(key: Key, value: V, ttl: real, at: real)
    | Read(key: Key, at: real)
    | Dropped(prefix: string)  // invalidate or extract

  /** What the event makes of the entry a key is entitled to. */
  function Next<V>(earlier: Option<Entry<V>>, e: Event<V>, key: Key): Option<Entry<V>> {
    match e
    case Stored(k, v, ttl, at) => if k == key then Some(Entry(at + ttl, v)) else earlier
    case Read(_, _) => earlier
    case Dropped(prefix) => if prefix <= key then None else earlier
  }

  /** The value put last for the key with its deadline, unless a later drop covers the key. */
  function Latest<V>(history: seq<Event<V>>, key: Key): Option<Entry<V>> {
    if history == [] then None
    else Next(Latest(history[..|history| - 1], key), history[|history| - 1], key)
  }

  /** The put at i stored the key, and nothing since has stored it anew or dropped it. */
  ghost predicate LastStored<V>(history: seq<Event<V>>, key: Key, i: nat) {
    && i < |history| && history[i].Stored? && history[i].key == key
    && forall j :: i < j < |history| ==>
         !(history[j].Stored? && history[j].key == key) && !(history[j].Dropped? && history[j].prefix <= key)
  }

  /** The key is entitled to the value and deadline of the put that stored it last, if nothing has
      dropped it since, and to nothing else. */
  lemma {:induction false} LatestMeans<V>(history: seq<Event<V>>, key: Key)
    ensures forall i: nat :: LastStored(history, key, i) ==>
              Latest(history, key) == Some(Entry(history[i].at + history[i].ttl, history[i].value))
    ensures Latest(history, key).Some? ==> exists i: nat :: LastStored(history, key, i)
  {
    if history == [] {
    } else {
      var n := |history| - 1;
      LatestMeans(history[..n], key);
      forall i: nat | LastStored(history, key, i)
        ensures Latest(history, key) == Some(Entry(history[i].at + history[i].ttl, history[i].value))
      {
        assert i < n ==> LastStored(history[..n], key, i);
      }
      if Latest(history, key).Some? {
        if history[n].Stored? && history[n].key == key {
          assert LastStored(history, key, n);
        } else {
          var i: nat :| LastStored(history[..n], key, i);
          assert LastStored(history, key, i);
        }
      }
    }
  }

  function Puts<V>(history: seq<Event<V>>): nat {
    if history == [] then 0
    else Puts(history[..|history| - 1]) + (if history[|history| - 1].Stored? then 1 else 0)
  }

  /** No event comes before an earlier one, and none after the clock. */
  predicate Timed<V>(history: seq<Event<V>>, clock: real) {
    history != [] ==>
      var n := |history| - 1;
      match history[n]
      case Stored(_, _, _, at) => at <= clock && Timed(history[..n], at)
      case Read(_, at) => at <= clock && Timed(history[..n], at)
      case Dropped(_) => Timed(history[..n], clock)
  }

  // ----- the ordered dictionary: its keys in order, and their entries -----

  /** The keys of the sequence that lie in the set, in their order. */
  function Keep(order: seq<Key>, keys: set<Key>): seq<Key> {
    if order == [] then []
    else Keep(order[..|order| - 1], keys) + (if order[|order| - 1] in keys then [order[|order| - 1]] else [])
  }

  lemma {:induction false} KeepExact(order: seq<Key>, keys: set<Key>)
    requires Distinct(order)
    ensures Distinct(Keep(order, keys)) && |Keep(order, keys)| <= |order|
    ensures forall k :: k in Keep(order, keys) <==> k in order && k in keys
  {
    if order == [] {
    } else {
      var n := |order| - 1;
      KeepExact(order[..n], keys);
      assert forall k :: k in order <==> k in order[..n] || k == order[n];
      assert order[n] !in order[..n];
      DistinctConcat(Keep(order[..n], keys), [order[n]]);
    }
  }

  lemma OthersIn(order: seq<Key>)
    requires Distinct(order) && order != []
    ensures forall k :: k in order[1..] <==> k in order && k != order[0]
  {
    assert order == [order[0]] + order[1..];
    assert forall i :: 0 < i < |order| ==> order[i] != order[0];
  }

  lemma {:induction false} KeepAll(order: seq<Key>, keys: set<Key>)
    requires forall k :: k in order ==> k in keys
    ensures Keep(order, keys) == order
  {
    if order == [] {
    } else {
      KeepAll(order[..|order| - 1], keys);
    }
  }

  lemma {:induction false} KeepNone(order: seq<Key>)
    ensures Keep(order, {}) == []
  {
    if order == [] {
    } else {
      KeepNone(order[..|order| - 1]);
    }
  }

  datatype Dict<+V> = Dict(order: seq<Key>, entries: map<Key, Entry<V>>)

  ghost predicate Listed<V>(d: Dict<V>) {
    Distinct(d.order) && forall k :: k in d.order <==> k in d.entries
  }

  function Assigned(order: seq<Key>, key: Key): seq<Key> {
    if key in order then order else order + [key]
  }

  /** The keys under a prefix. */
  function Under<V>(entries: map<Key, Entry<V>>, prefix: string): set<Key> {
    set k | k in entries && prefix <= k
  }

  // ----- what the calls make of it -----

  function Left<V>(d: Dict<V>, keys: set<Key>): Dict<V> {
    var left := d.entries - keys;
    Dict(Keep(d.order, left.Keys), left)
  }

  /** An expired entry is taken out when its key is read. */
  function AfterRead<V>(d: Dict<V>, key: Key, at: real): Dict<V> {
    if key in d.entries && d.entries[key].expiresAt <= at then Left(d, {key}) else d
  }

  function AfterDrop<V>(d: Dict<V>, prefix: string): Dict<V> { Left(d, Under(d.entries, prefix)) }

  /** At capacity the oldest entry goes, before anybody looks whether the key is there already. */
  function WithRoom<V>(d: Dict<V>): Dict<V> {
    if |d.order| >= MAX_CACHE_SIZE then Dict(d.order[1..], d.entries - {d.order[0]}) else d
  }

  function AfterPut<V>(d: Dict<V>, key: Key, entry: Entry<V>): Dict<V> {
    Dict(Assigned(WithRoom(d).order, key), WithRoom(d).entries[key := entry])
  }

  function After<V>(d: Dict<V>, e: Event<V>): Dict<V> {
    match e
    case Stored(key, value, ttl, at) => AfterPut(d, key, Entry(at + ttl, value))
    case Read(key, at) => AfterRead(d, key, at)
    case Dropped(prefix) => AfterDrop(d, prefix)
  }

  function Replay<V>(history: seq<Event<V>>): Dict<V> {
    if history == [] then Dict([], map[]) else After(Replay(history[..|history| - 1]), history[|history| - 1])
  }

  /** How many puts were made before the one that created the slot of each key. */
  function Born<V>(history: seq<Event<V>>): map<Key, nat> {
    if history == [] then map[]
    else
      var earlier, e := history[..|history| - 1], history[|history| - 1];
      if e.Stored? && e.key !in WithRoom(Replay(earlier)).order then Born(earlier)[e.key := Puts(earlier)]
      else Born(earlier)
  }

  lemma ReplayNext<V>(history: seq<Event<V>>, e: Event<V>)
    ensures Replay(history + [e]) == After(Replay(history), e)
  {
    assert (history + [e])[..|history|] == history;
  }

  lemma TimedNext<V>(history: seq<Event<V>>, clock: real, e: Event<V>, at: real)
    requires Timed(history, clock) && clock <= at
    requires e.Stored? || e.Read? ==> e.at == at
    ensures Timed(history + [e], at)
  {
    assert (history + [e])[..|history|] == history;
    TimedLater(history, clock, at);
  }

  lemma {:induction false} TimedLater<V>(history: seq<Event<V>>, clock: real, later: real)
    requires Timed(history, clock) && clock <= later
    ensures Timed(history, later)
  {
    if history != [] && history[|history| - 1].Dropped? {
      TimedLater(history[..|history| - 1], clock, later);
    }
  }

  // ----- keys and entries stay together, and bounded -----

  ghost predicate Bounded<V>(d: Dict<V>) { Listed(d) && |d.order| <= MAX_CACHE_SIZE }

  lemma LeftBounded<V>(d: Dict<V>, keys: set<Key>)
    requires Bounded(d)
    ensures Bounded(Left(d, keys))
  {
    KeepExact(d.order, (d.entries - keys).Keys);
  }

  lemma RoomBounded<V>(d: Dict<V>)
    requires Bounded(d)
    ensures Bounded(WithRoom(d)) && |WithRoom(d).order| < MAX_CACHE_SIZE
  {
    if |d.order| >= MAX_CACHE_SIZE {
      OthersIn(d.order);
    }
  }

  lemma PutBounded<V>(d: Dict<V>, key: Key, entry: Entry<V>)
    requires Bounded(d)
    ensures Bounded(AfterPut(d, key, entry))
  {
    RoomBounded(d);
    var order := WithRoom(d).order;
    if key !in order {
      DistinctConcat(order, [key]);
    }
  }

  lemma {:induction false} AlwaysBounded<V>(history: seq<Event<V>>)
    ensures Bounded(Replay(history))
  {
    if history == [] {
    } else {
      var d := Replay(history[..|history| - 1]);
      AlwaysBounded(history[..|history| - 1]);
      match history[|history| - 1]
      case Stored(key, value, ttl, at) => PutBounded(d, key, Entry(at + ttl, value));
      case Read(key, at) => LeftBounded(d, {key});
      case Dropped(prefix) => LeftBounded(d, Under(d.entries, prefix));
    }
  }

  // ----- the slots stand in the order in which they were created -----

  ghost predicate Aged(order: seq<Key>, born: map<Key, nat>, puts: nat) {
    && (forall k :: k in order ==> k in born && born[k] < puts)
    && forall i, j :: 0 <= i < j < |order| ==> born[order[i]] < born[order[j]]
  }

  /** Behind the oldest slot of n slots stand at least n - 1 later puts. */
  lemma {:induction false} OldestAge(order: seq<Key>, born: map<Key, nat>, puts: nat)
    requires order != [] && Aged(order, born, puts)
    ensures order[0] in born && puts - born[order[0]] >= |order|
  {
    if |order| <= 1 {
    } else {
      var shorter := order[..|order| - 1];
      assert forall k :: k in shorter ==> k in order;
      OldestAge(shorter, born, born[order[|order| - 1]]);
    }
  }

  lemma {:induction false} KeepAged(order: seq<Key>, keys: set<Key>, born: map<Key, nat>, puts: nat)
    requires Aged(order, born, puts)
    ensures Aged(Keep(order, keys), born, puts)
  {
    if order == [] {
    } else {
      var n := |order| - 1;
      FrontAged(order, born, puts);
      KeepAged(order[..n], keys, born, born[order[n]]);
      LastAged(Keep(order[..n], keys), born, order[n], puts);
    }
  }

  lemma FrontAged(order: seq<Key>, born: map<Key, nat>, puts: nat)
    requires order != [] && Aged(order, born, puts)
    ensures var n := |order| - 1; order[n] in born && born[order[n]] < puts && Aged(order[..n], born, born[order[n]])
  {
    var n := |order| - 1;
    assert order[n] in order;
    forall k | k in order[..n] ensures k in born && born[k] < born[order[n]] {
      var i :| 0 <= i < n && order[..n][i] == k;
      assert order[i] in order;
    }
  }

  /** Slots older than the one of `key` may stand before it. */
  lemma LastAged(order: seq<Key>, born: map<Key, nat>, key: Key, puts: nat)
    requires key in born && born[key] < puts && Aged(order, born, born[key])
    ensures Aged(order + [key], born, puts) && Aged(order, born, puts)
  {
    forall i | 0 <= i < |order| ensures (order + [key])[i] == order[i] && born[order[i]] < born[key] {
      assert order[i] in order;
    }
  }

  lemma RestAged(order: seq<Key>, born: map<Key, nat>, puts: nat)
    requires order != [] && Aged(order, born, puts)
    ensures Aged(order[1..], born, puts)
  {
    assert forall k :: k in order[1..] ==> k in order;
  }

  lemma RebornAged(order: seq<Key>, born: map<Key, nat>, puts: nat, key: Key)
    requires Aged(order, born, puts) && key !in order
    ensures Aged(order, born[key := puts], puts)
  {
    assert forall i :: 0 <= i < |order| ==> order[i] in order;
  }

  lemma {:induction false} AlwaysAged<V>(history: seq<Event<V>>)
    ensures Aged(Replay(history).order, Born(history), Puts(history))
  {
    if history == [] {
    } else {
      var earlier, e := history[..|history| - 1], history[|history| - 1];
      var d := Replay(earlier);
      AlwaysAged(earlier);
      match e
      case Stored(key, value, ttl, at) => PutAged(d, Born(earlier), Puts(earlier), key);
      case Read(key, at) => KeepAged(d.order, (d.entries - {key}).Keys, Born(history), Puts(history));
      case Dropped(prefix) =>
        KeepAged(d.order, (d.entries - Under(d.entries, prefix)).Keys, Born(history), Puts(history));
    }
  }

  lemma {:induction false} PutAged<V>(d: Dict<V>, born: map<Key, nat>, puts: nat, key: Key)
    requires Aged(d.order, born, puts)
    ensures var order := WithRoom(d).order;
            Aged(Assigned(order, key), if key in order then born else born[key := puts], puts + 1)
  {
    var order := WithRoom(d).order;
    if |d.order| >= MAX_CACHE_SIZE {
      RestAged(d.order, born, puts);
    }
    if key !in order {
      RebornAged(order, born, puts, key);
      LastAged(order, born[key := puts], key, puts + 1);
    }
  }

  // ----- what is there, and what is not -----

  /** The slot of the key was crowded out: MAX_CACHE_SIZE puts have followed the one that made it. */
  ghost predicate CrowdedOut(born: map<Key, nat>, puts: nat, key: Key) {
    key in born && puts - born[key] - 1 >= MAX_CACHE_SIZE
  }

  /** Every entry is what the history entitles its key to; and what the history entitles to and has
      not expired is there, unless its slot was crowded out. */
  ghost predicate Explained<V>(
    entries: map<Key, Entry<V>>, history: seq<Event<V>>, clock: real, born: map<Key, nat>)
  {
    && (forall k :: k in entries ==> Latest(history, k) == Some(entries[k]))
    && forall k :: Latest(history, k).Some? && clock < Latest(history, k).value.expiresAt && k !in entries ==>
         CrowdedOut(born, Puts(history), k)
  }

  /** In every history what is there is the latest value put, and an unexpired value is missing only
      if its slot was crowded out. */
  lemma {:induction false} AlwaysExplained<V>(history: seq<Event<V>>, clock: real)
    requires Timed(history, clock)
    ensures Explained(Replay(history).entries, history, clock, Born(history))
  {
    if history == [] {
    } else {
      var earlier, e := history[..|history| - 1], history[|history| - 1];
      assert history == earlier + [e];
      AlwaysExplained(earlier, if e.Dropped? then clock else e.at);
      match e
      case Stored(key, value, ttl, at) => PutExplained(earlier, key, value, ttl, at, clock);
      case Read(key, at) => ReadExplained(earlier, key, at, clock);
      case Dropped(prefix) => DropExplained(earlier, prefix, clock);
    }
  }

  lemma {:induction false} LatestNext<V>(history: seq<Event<V>>, e: Event<V>)
    ensures forall k :: Latest(history + [e], k) == Next(Latest(history, k), e, k)
    ensures Puts(history + [e]) == Puts(history) + (if e.Stored? then 1 else 0)
  {
    assert (history + [e])[..|history + [e]| - 1] == history;
  }

  /** Evicting what is crowded out by the new put and assigning the key. */
  lemma {:induction false} AssignExplained<V>(
    entries: map<Key, Entry<V>>, kept: map<Key, Entry<V>>, history: seq<Event<V>>, born: map<Key, nat>,
    born': map<Key, nat>, key: Key, value: V, ttl: real, at: real, clock: real)
    requires Explained(entries, history, at, born) && at <= clock
    requires forall k :: k in kept ==> k in entries && kept[k] == entries[k]
    requires forall k :: k in entries && k !in kept ==> CrowdedOut(born, Puts(history) + 1, k)
    requires forall k :: k != key && k in born ==> k in born' && born'[k] == born[k]
    ensures Explained(kept[key := Entry(at + ttl, value)], history + [Stored(key, value, ttl, at)], clock, born')
  {
    LatestNext(history, Stored(key, value, ttl, at));
  }

  lemma {:induction false} EvictedCrowdedOut<V>(history: seq<Event<V>>, k: Key)
    requires k in Replay(history).entries && k !in WithRoom(Replay(history)).entries
    ensures CrowdedOut(Born(history), Puts(history) + 1, k)
  {
    AlwaysBounded(history);
    AlwaysAged(history);
    OldestAge(Replay(history).order, Born(history), Puts(history));
  }

  lemma {:induction false} PutExplained<V>(
    earlier: seq<Event<V>>, key: Key, value: V, ttl: real, at: real, clock: real)
    requires Explained(Replay(earlier).entries, earlier, at, Born(earlier)) && at <= clock
    ensures var history := earlier + [Stored(key, value, ttl, at)];
            Explained(Replay(history).entries, history, clock, Born(history))
  {
    var d := Replay(earlier);
    var history := earlier + [Stored(key, value, ttl, at)];
    assert history[..|history| - 1] == earlier;
    forall k | k in d.entries && k !in WithRoom(d).entries
      ensures CrowdedOut(Born(earlier), Puts(earlier) + 1, k)
    {
      EvictedCrowdedOut(earlier, k);
    }
    AssignExplained(d.entries, WithRoom(d).entries, earlier, Born(earlier), Born(history), key, value, ttl, at, clock);
  }

  /** Reading may take out an expired entry. */
  lemma {:induction false} ReadExplained<V>(earlier: seq<Event<V>>, key: Key, at: real, clock: real)
    requires Explained(Replay(earlier).entries, earlier, at, Born(earlier)) && at <= clock
    ensures var history := earlier + [Read(key, at)];
            Explained(Replay(history).entries, history, clock, Born(history))
  {
    var history := earlier + [Read(key, at)];
    assert history[..|history| - 1] == earlier;
  }

  lemma {:induction false} DropExplained<V>(earlier: seq<Event<V>>, prefix: string, clock: real)
    requires Explained(Replay(earlier).entries, earlier, clock, Born(earlier))
    ensures var history := earlier + [Dropped(prefix)];
            Explained(Replay(history).entries, history, clock, Born(history))
  {
    var history := earlier + [Dropped(prefix)];
    assert history[..|history| - 1] == earlier;
  }

  /** A value that comes out is the latest one put for the key, not dropped since and within its TTL;
      and every such value comes out, unless its slot was crowded out. */
  ghost predicate Answers<V>(history: seq<Event<V>>, key: Key, at: real, result: Option<V>) {
    var l := Latest(history, key);
    match result
    case Some(v) => l.Some? && l.value.value == v && at < l.value.expiresAt
    case None => l.None? || l.value.expiresAt <= at || CrowdedOut(Born(history), Puts(history), key)
  }

  lemma {:induction false} ReplayAnswers<V>(history: seq<Event<V>>, clock: real, key: Key, at: real)
    requires Timed(history, clock) && clock <= at
    ensures var entries := Replay(history).entries;
            Answers(history, key, at,
                    if key in entries && at < entries[key].expiresAt then Some(entries[key].value) else None)
  {
    AlwaysExplained(history, clock);
  }

  lemma EverythingGoes<V>(d: Dict<V>)
    ensures AfterDrop(d, "") == Dict([], map[])
  {
    assert (d.entries - Under(d.entries, "")).Keys == {};
    KeepNone(d.order);
  }

  lemma {:induction false} OrderSize(order: seq<Key>, keys: set<Key>)
    requires Distinct(order) && forall k :: k in order <==> k in keys
    ensures |order| == |keys|
  {
    if order == [] {
      assert keys == {};
    } else {
      var n := |order| - 1;
      assert forall k :: k in order <==> k in order[..n] || k == order[n];
      OrderSize(order[..n], keys - {order[n]});
    }
  }

  /** The cache never holds more than MAX_CACHE_SIZE entries. */
  lemma SizeBounded<V>(history: seq<Event<V>>)
    ensures var d := Replay(history); |d.entries| == |d.order| <= MAX_CACHE_SIZE
  {
    AlwaysBounded(history);
    OrderSize(Replay(history).order, Replay(history).entries.Keys);
  }

  /** A put stores the entry and, if there are 2000 already, loses the oldest; all others stay. */
  lemma PutMeans<V>(d: Dict<V>, key: Key, entry: Entry<V>, k: Key)
    requires Listed(d)
    ensures var after := AfterPut(d, key, entry).entries;
            if k == key then k in after && after[k] == entry
            else
              && (k in after <==> k in d.entries && !(|d.order| >= 2000 && k == d.order[0]))
              && (k in after ==> after[k] == d.entries[k])
  {
  }

  // ----- putting a key that is there already -----

  ghost predicate LosesAnother<V>(before: Dict<V>, after: Dict<V>) {
    exists k :: k in before.entries && k !in after.entries
  }

  /** Nothing would have to go to overwrite an entry; yet one is lost exactly if the cache is full
      and the entry is not the oldest. */
  lemma OverwriteLoses<V>(d: Dict<V>, key: Key, entry: Entry<V>)
    requires Listed(d) && key in d.entries
    ensures LosesAnother(d, AfterPut(d, key, entry)) <==> |d.order| >= MAX_CACHE_SIZE && d.order[0] != key
  {
    if |d.order| >= MAX_CACHE_SIZE {
      assert d.order[0] in d.order;
    }
  }

  function KeyNo(n: nat): (k: Key)
    ensures |k| == n
  {
    seq(n, _ => 'k')
  }

  function FirstKeys(n: nat): (order: seq<Key>)
    ensures |order| == n && forall i :: 0 <= i < n ==> order[i] == KeyNo(i)
  {
    seq(n, i requires 0 <= i < n => KeyNo(i))
  }

  /** In a cache of 2000 keys, overwriting the newest loses the oldest. */
  lemma {:induction false} OverwriteNewest(n: nat, entry: Entry<int>)
    requires n == MAX_CACHE_SIZE
    ensures var order := FirstKeys(n);
            var d := Dict(order, map k | k in order :: entry);
            && Listed(d) && KeyNo(n - 1) in d.entries && KeyNo(0) in d.entries
            && KeyNo(0) !in AfterPut(d, KeyNo(n - 1), entry).entries
  {
    var order := FirstKeys(n);
    assert order[0] == KeyNo(0) && order[n - 1] == KeyNo(n - 1);
    forall i, j | 0 <= i < j < n ensures order[i] != order[j] {
      assert |order[i]| == i && |order[j]| == j;
    }
  }

  // ----- the cache -----

  class Cache<V(!new)> {
    var order: seq<Key>
    var entries: map<Key, Entry<V>>
    ghost var history: seq<Event<V>>
    ghost var clock: real  // the time of the last call

    function Contents(): Dict<V>
      reads this
    {
      Dict(order, entries)
    }

    ghost predicate Valid()
      reads this
    {
      Timed(history, clock) && Contents() == Replay(history)
    }

    constructor (ghost start: real)
      ensures Valid() && order == [] && entries == map[] && history == [] && clock == start
    {
      order, entries, history, clock := [], map[], [], start;
    }

    method Get(key: Key, now: real) returns (result: Option<V>)
      requires Valid() && clock <= now
      modifies this
      ensures Valid() && clock == now && history == old(history) + [Read(key, now)]
      ensures Contents() == AfterRead(old(Contents()), key, now)
      ensures Answers(old(history), key, now, result)
      ensures result == if key in old(entries) && now < old(entries)[key].expiresAt then Some(old(entries)[key].value)
                        else None
    {
      ReplayAnswers(history, clock, key, now);
      Record(Read(key, now), now);
      result := None;
      if key in entries {
        if now < entries[key].expiresAt {
          result := Some(entries[key].value);
        } else {
          RemoveKeys({key});
        }
      }
    }

    ghost method Record(e: Event<V>, now: real)
      requires Timed(history, clock) && clock <= now
      requires e.Stored? || e.Read? ==> e.at == now
      modifies this`history, this`clock
      ensures history == old(history) + [e] && clock == now && Timed(history, clock)
      ensures Replay(history) == After(Replay(old(history)), e)
    {
      TimedNext(history, clock, e, now);
      ReplayNext(history, e);
      history, clock := history + [e], now;
    }

    method RemoveKeys(keys: set<Key>)
      modifies this`order, this`entries
      ensures Contents() == Left(old(Contents()), keys)
    {
      entries := entries - keys;
      order := Keep(order, entries.Keys);
    }

    method Put(key: Key, value: V, ttl: real, now: real)
      requires Valid() && clock <= now
      modifies this
      ensures Valid() && clock == now && history == old(history) + [Stored(key, value, ttl, now)]
      ensures Contents() == AfterPut(old(Contents()), key, Entry(now + ttl, value))
      ensures |order| == |entries| <= 2000
      ensures key in entries && entries[key] == Entry(now + ttl, value)
    {
      Record(Stored(key, value, ttl, now), now);
      if |order| >= MAX_CACHE_SIZE {
        PopOldest();
      }
      entries := entries[key := Entry(now + ttl, value)];
      if key !in order {
        order := order + [key];
      }
      SizeBounded(history);
    }

    method PopOldest()
      requires |order| >= MAX_CACHE_SIZE
      modifies this`order, this`entries
      ensures Contents() == WithRoom(old(Contents()))
    {
      entries := entries - {order[0]};
      order := order[1..];
    }

    /** With an empty prefix everything goes. */
    method Invalidate(prefix: string)
      requires Valid()
      modifies this
      ensures Valid() && clock == old(clock) && history == old(history) + [Dropped(prefix)]
      ensures Contents() == AfterDrop(old(Contents()), prefix)
      ensures prefix == "" ==> order == [] && entries == map[]
      ensures forall k :: k in entries <==> k in old(entries) && !(prefix <= k)
    {
      AlwaysBounded(history);
      Record(Dropped(prefix), clock);
      EverythingGoes(Contents());
      if prefix == "" {
        order, entries := [], map[];
      } else {
        var keys := KeysUnder(prefix);
        RemoveKeys(set k | k in keys);
      }
    }

    /** Removes exactly the keys with the prefix and returns exactly their values, oldest first. */
    method Extract(prefix: string) returns (values: seq<V>)
      requires Valid()
      modifies this
      ensures Valid() && clock == old(clock) && history == old(history) + [Dropped(prefix)]
      ensures Contents() == AfterDrop(old(Contents()), prefix)
      ensures forall k :: k in entries <==> k in old(entries) && !(prefix <= k)
      ensures var keys := Keep(old(order), Under(old(entries), prefix));
              && |values| == |keys|
              && forall i :: 0 <= i < |keys| ==>
                   keys[i] in old(entries) && values[i] == old(entries)[keys[i]].value
    {
      AlwaysBounded(history);
      Record(Dropped(prefix), clock);
      var keys := KeysUnder(prefix);
      values := ValuesOf(keys);
      RemoveKeys(set k | k in keys);
    }

    method ValuesOf(keys: seq<Key>) returns (values: seq<V>)
      requires forall k :: k in keys ==> k in entries
      ensures |values| == |keys|
      ensures forall i :: 0 <= i < |keys| ==> keys[i] in entries && values[i] == entries[keys[i]].value
    {
      values := [];
      for i := 0 to |keys|
        invariant |values| == i && forall j :: 0 <= j < i ==> values[j] == entries[keys[j]].value
      {
        values := values + [entries[keys[i]].value];
      }
    }

    /** The keys to delete, listed before any is deleted. */
    method KeysUnder(prefix: string) returns (keys: seq<Key>)
      requires Listed(Contents())
      ensures keys == Keep(order, Under(entries, prefix))
      ensures (set k | k in keys) == Under(entries, prefix)
      ensures forall k :: k in keys ==> k in entries
    {
      keys := [];
      for i := 0 to |order|
        invariant keys == Keep(order[..i], Under(entries, prefix))
      {
        assert order[..i + 1][..i] == order[..i];
        if prefix <= order[i] {
          keys := keys + [order[i]];
        }
      }
      assert order[..|order|] == order;
      KeepExact(order, Under(entries, prefix));
    }
  }
}
