/** At most one auto-reply per peer: a table of per-peer locks with cleanup. */
module PeerLocks {

  type Handler = nat
  type Peer = int

  const CLEANUP_THRESHOLD: nat := 200

  datatype Event = Message(handler: Handler, peer: Peer) | Finished(handler: Handler)

  // ----- the rule -----

  /** Who is inside `_handle_event`, and for which peer, if a message is dropped exactly when its
      peer is being served. */
  function Serve(inside: map<Handler, Peer>, e: Event): map<Handler, Peer> {
    match e
    case Message(h, p) => if h in inside || p in inside.Values then inside else inside[h := p]
    case Finished(h) => inside - {h}
  }

  ghost predicate OnePerPeer(inside: map<Handler, Peer>) {
    forall g, h :: g in inside && h in inside && inside[g] == inside[h] ==> g == h
  }

  /** A run of the rule: trace[i] is who is inside after the first i events. */
  ghost predicate Follows(events: seq<Event>, trace: seq<map<Handler, Peer>>) {
    && |trace| == |events| + 1 && trace[0] == map[]
    && forall i {:trigger events[i]} :: 0 <= i < |events| ==> trace[i + 1] == Serve(trace[i], events[i])
  }

  lemma {:induction false} AlwaysOnePerPeer(events: seq<Event>, trace: seq<map<Handler, Peer>>, i: nat)
    requires Follows(events, trace) && i < |trace|
    ensures OnePerPeer(trace[i])
  {
    if i == 0 {
    } else {
      AlwaysOnePerPeer(events, trace, i - 1);
      assert trace[i - 1 + 1] == Serve(trace[i - 1], events[i - 1]);
    }
  }

  // ----- what a schedule shows -----

  /** The i-th event is a message that got in, and its handler has not finished before event n. */
  predicate Busy(events: seq<Event>, entered: seq<bool>, i: nat, n: nat)
    requires |entered| == |events| && n <= |events|
  {
    && i < n && entered[i] && events[i].Message?
    && forall k :: i < k < n ==> events[k] != Finished(events[i].handler)
  }

  /** `entered` tells which messages got in along the trace. */
  ghost predicate Shows(events: seq<Event>, trace: seq<map<Handler, Peer>>, entered: seq<bool>) {
    && Follows(events, trace) && |entered| == |events|
    && forall i {:trigger events[i]} :: 0 <= i < |events| ==>
         (entered[i] <==> events[i].Message? && events[i].handler !in trace[i] && events[i].peer !in trace[i].Values)
  }

  /** Inside are exactly the handlers that got in and have not finished since, each for its peer. */
  lemma {:induction false} InsideAreBusy(events: seq<Event>, trace: seq<map<Handler, Peer>>, entered: seq<bool>, n: nat)
    requires Shows(events, trace, entered) && n <= |events|
    ensures forall i: nat :: Busy(events, entered, i, n) ==>
              events[i].handler in trace[n] && trace[n][events[i].handler] == events[i].peer
    ensures forall h :: h in trace[n] ==> exists i: nat :: Busy(events, entered, i, n) && events[i].handler == h
  {
    if n == 0 {
    } else {
      InsideAreBusy(events, trace, entered, n - 1);
      var e := events[n - 1];
      assert trace[n] == Serve(trace[n - 1], e);
      forall i: nat | Busy(events, entered, i, n)
        ensures events[i].handler in trace[n] && trace[n][events[i].handler] == events[i].peer
      {
        assert i < n - 1 ==> Busy(events, entered, i, n - 1);
      }
      forall h | h in trace[n] ensures exists i: nat :: Busy(events, entered, i, n) && events[i].handler == h {
        if entered[n - 1] && e.handler == h {
          assert Busy(events, entered, n - 1, n);
        } else {
          var i: nat :| Busy(events, entered, i, n - 1) && events[i].handler == h;
          assert Busy(events, entered, i, n);
        }
      }
    }
  }

  /** A message gets in iff every earlier one for its peer, or of its handler, that got in has been
      followed by the end of its handler. */
  lemma {:induction false} EntersIffFree(
    events: seq<Event>, trace: seq<map<Handler, Peer>>, entered: seq<bool>, i: nat)
    requires Shows(events, trace, entered) && i < |events| && events[i].Message?
    ensures entered[i] <==>
            forall j :: 0 <= j < i && entered[j] && events[j].Message?
                        && (events[j].peer == events[i].peer || events[j].handler == events[i].handler) ==>
              exists k :: j < k < i && events[k] == Finished(events[j].handler)
  {
    InsideAreBusy(events, trace, entered, i);
    var h, p := events[i].handler, events[i].peer;
    if entered[i] {
      forall j | 0 <= j < i && entered[j] && events[j].Message? && (events[j].peer == p || events[j].handler == h)
        ensures exists k :: j < k < i && events[k] == Finished(events[j].handler)
      {
        assert !Busy(events, entered, j, i);
      }
    } else if h in trace[i] {
      var j: nat :| Busy(events, entered, j, i) && events[j].handler == h;
    } else {
      var g :| g in trace[i] && trace[i][g] == p;
      var j: nat :| Busy(events, entered, j, i) && events[j].handler == g;
    }
  }

  // ----- the lock table -----

  class Lock {
    var locked: bool

    constructor ()
      ensures !locked
    {
      locked := false;
    }
  }

  ghost predicate Inverse(inside: map<Handler, Peer>, server: map<Peer, Handler>) {
    && (forall h :: h in inside ==> inside[h] in server && server[inside[h]] == h)
    && (forall p :: p in server ==> server[p] in inside && inside[server[p]] == p)
  }

  lemma ServedPeers(inside: map<Handler, Peer>, server: map<Peer, Handler>)
    requires Inverse(inside, server)
    ensures inside.Values == server.Keys
  {
    forall p | p in server ensures p in inside.Values {
      assert inside[server[p]] == p;
    }
  }

  lemma ServersAtMostInside(inside: map<Handler, Peer>, server: map<Peer, Handler>)
    requires Inverse(inside, server)
    ensures |server.Keys| <= |inside.Keys|
  {
    ServedPeers(inside, server);
    ValuesAtMostKeys(inside);
  }

  lemma {:induction false} ValuesAtMostKeys(m: map<Handler, Peer>)
    ensures |m.Values| <= |m.Keys|
    decreases m.Keys
  {
    if m.Keys == {} {
    } else {
      var h :| h in m;
      var rest := m - {h};
      ValuesAtMostKeys(rest);
      assert m.Values == rest.Values + {m[h]};
      assert m.Keys == rest.Keys + {h};
    }
  }

  /** The table and the handlers in flight, each with the lock it acquired. Looking the lock up,
      testing it and acquiring it is one step: nothing in between suspends the coroutine. */
  class LockTable {
    var locks: map<Peer, Lock>
    var running: map<Handler, (Peer, Lock)>
    ghost var inside: map<Handler, Peer>
    ghost var server: map<Peer, Handler>  // who holds the lock of a peer

    static ghost predicate Injective(m: map<Peer, Lock>) {
      forall p, q {:trigger m[p], m[q]} :: p in m && q in m && m[p] == m[q] ==> p == q
    }

    /** A handler in flight keeps its lock in the table, and only such locks are locked. */
    ghost predicate Valid()
      reads this, locks.Values
    {
      && Injective(locks)
      && running.Keys == inside.Keys
      && (forall h :: h in running ==> inside[h] == running[h].0)
      && (forall h :: h in inside ==> inside[h] in server && server[inside[h]] == h)
      && (forall p :: p in server ==>
            server[p] in running && p in locks && running[server[p]] == (p, locks[p]))
      && (forall p :: p in locks ==> (locks[p].locked <==> p in server))
    }

    /** Locks stay mapped to their peers, but a cleanup may drop those of peers not being served. */
    static ghost predicate Kept(before: map<Peer, Lock>, after: map<Peer, Lock>, cleanup: bool, served: set<Peer>) {
      forall p :: p in before && (cleanup ==> p in served) ==> p in after && after[p] == before[p]
    }

    constructor ()
      ensures Valid() && locks == map[] && inside == map[]
    {
      locks, running, inside, server := map[], map[], map[], map[];
    }

    /** Keeps only the locks that are held. */
    method DropUnlocked()
      requires Valid()
      modifies this`locks
      ensures Valid() && locks.Keys == server.Keys && locks.Values <= old(locks.Values)
      ensures locks.Keys <= old(locks.Keys) && Kept(old(locks), locks, true, server.Keys)
    {
      ghost var before := locks;
      locks := map p | p in locks && locks[p].locked :: locks[p];
      assert forall p :: p in locks ==> locks[p] == before[p] && p in server;
      forall p | p in server ensures p in locks {
        assert before[p].locked;
      }
    }

    method AddLock(peer: Peer, created: Lock)
      requires Valid() && peer !in locks && created !in locks.Values && !created.locked
      modifies this`locks
      ensures Valid() && locks == old(locks)[peer := created] && |locks| == |old(locks)| + 1
    {
      locks := locks[peer := created];
    }

    method GetPeerLock(peer: Peer) returns (lock: Lock)
      requires Valid()
      modifies this`locks
      ensures Valid() && peer in locks && locks[peer] == lock
      ensures fresh(locks.Values - old(locks.Values))
      ensures |locks| <= CLEANUP_THRESHOLD + 1 || |locks| <= |inside| + 1
      ensures Kept(old(locks), locks, |old(locks)| > CLEANUP_THRESHOLD, server.Keys)
      ensures locks.Keys <= old(locks.Keys) + {peer}
    {
      if |locks| > CLEANUP_THRESHOLD {
        DropUnlocked();
        ServersAtMostInside(inside, server);
      }
      if peer !in locks {
        var created := new Lock();
        AddLock(peer, created);
      }
      lock := locks[peer];
    }

    method Acquire(h: Handler, peer: Peer, lock: Lock)
      requires Valid() && h !in running && peer in locks && locks[peer] == lock && !lock.locked
      modifies this`running, this`inside, this`server, lock
      ensures Valid() && inside == old(inside)[h := peer]
    {
      lock.locked := true;
      running, inside, server := running[h := (peer, lock)], inside[h := peer], server[peer := h];
    }

    method Arrive(h: Handler, peer: Peer) returns (entered: bool)
      requires Valid() && h !in running
      modifies this, locks.Values
      ensures Valid() && inside == if entered then old(inside)[h := peer] else old(inside)
      ensures entered <==> peer !in old(inside).Values
      ensures |locks| <= CLEANUP_THRESHOLD + 1 || |locks| <= |old(inside)| + 1
      ensures fresh(locks.Values - old(locks.Values))
    {
      var lock := GetPeerLock(peer);
      ServedPeers(inside, server);
      entered := !lock.locked;
      if entered {
        Acquire(h, peer, lock);
      }
    }

    method Leave(h: Handler)
      requires Valid()
      modifies this`running, this`inside, this`server, locks.Values
      ensures Valid() && inside == old(inside) - {h}
      ensures locks == old(locks)
    {
      if h in running {
        var (peer, lock) := running[h];
        lock.locked := false;
        running, inside, server := running - {h}, inside - {h}, server - {peer};
      }
    }
  }

  method HandleEvent(table: LockTable, e: Event) returns (entered: bool)
    requires table.Valid()
    modifies table, table.locks.Values
    ensures table.Valid() && table.inside == Serve(old(table.inside), e)
    ensures fresh(table.locks.Values - old(table.locks.Values))
    ensures entered <==> e.Message? && e.handler !in old(table.inside) && e.peer !in old(table.inside).Values
  {
    entered := false;
    match e {
      case Message(h, p) =>
        if h !in table.running {
          entered := table.Arrive(h, p);
        }
      case Finished(h) =>
        table.Leave(h);
    }
  }

  lemma {:induction false} ShowsNext(
    events: seq<Event>, n: nat, trace: seq<map<Handler, Peer>>, entered: seq<bool>, ok: bool,
    inside: map<Handler, Peer>)
    requires n < |events| && Shows(events[..n], trace, entered) && inside == Serve(trace[n], events[n])
    requires ok <==> events[n].Message? && events[n].handler !in trace[n] && events[n].peer !in trace[n].Values
    ensures Shows(events[..n + 1], trace + [inside], entered + [ok])
  {
    assert events[..n + 1] == events[..n] + [events[n]];
  }

  method Schedule(events: seq<Event>) returns (entered: seq<bool>, ghost trace: seq<map<Handler, Peer>>)
    ensures Shows(events, trace, entered)
  {
    var table := new LockTable();
    trace, entered := [map[]], [];
    for n := 0 to |events|
      invariant fresh(table) && fresh(table.locks.Values) && table.Valid()
      invariant Shows(events[..n], trace, entered) && table.inside == trace[n]
    {
      var ok := HandleEvent(table, events[n]);
      ShowsNext(events, n, trace, entered, ok, table.inside);
      entered := entered + [ok];
      trace := trace + [table.inside];
    }
    assert events[..|events|] == events;
  }

  /** Every interleaving of messages and finishing handlers, cleanups included: a message gets in iff
      its peer and its handler are free, so never two handlers are inside for one peer. */
  method RunSchedule(events: seq<Event>) returns (entered: seq<bool>, ghost trace: seq<map<Handler, Peer>>)
    ensures Follows(events, trace)
    ensures forall i :: 0 <= i < |trace| ==> OnePerPeer(trace[i])
    ensures |entered| == |events|
    ensures forall i :: 0 <= i < |events| && events[i].Finished? ==> !entered[i]
    ensures forall i :: 0 <= i < |events| && events[i].Message? ==>
              (entered[i] <==>
               forall j :: 0 <= j < i && entered[j] && events[j].Message?
                           && (events[j].peer == events[i].peer || events[j].handler == events[i].handler) ==>
                 exists k :: j < k < i && events[k] == Finished(events[j].handler))
  {
    entered, trace := Schedule(events);
    forall i | 0 <= i < |trace| ensures OnePerPeer(trace[i]) {
      AlwaysOnePerPeer(events, trace, i);
    }
    forall i | 0 <= i < |events| && events[i].Message?
      ensures entered[i] <==>
              forall j :: 0 <= j < i && entered[j] && events[j].Message?
                          && (events[j].peer == events[i].peer || events[j].handler == events[i].handler) ==>
                exists k :: j < k < i && events[k] == Finished(events[j].handler)
    {
      EntersIffFree(events, trace, entered, i);
    }
  }
}
