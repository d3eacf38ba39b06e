/** Any number of calls rotating over their keys, interleaved with everything else that changes the
    registry of breakers: when an operation may start. */
module CallsAndBreakers {
  import opened KeyBreaker
  import opened BreakerRegistry

  type Task = nat

  const MAX_OPERATIONS: nat := 3

  /** What a call is about to do with the entry it stands at. `check`: the event that let it through. */
  datatype Phase =
    | Looking
    | Working(check: nat, started: nat)  // operations started on this entry so far
    | Over

  /** A call on a provider: the breaker keys of its entries, the reserved start, the attempt. The
      plain call at the end of a stream is a call of its own. */
  datatype Call = Call(keys: seq<Key>, start: nat, streaming: bool, attempt: nat, phase: Phase) {
    predicate Going() { attempt < |keys| && phase != Over }

    /** Operations per entry: a stream is tried once. */
    function Limit(): nat { if streaming then 1 else MAX_OPERATIONS }

    /** The entry the attempt stands at. */
    function Current(): Key
      requires attempt < |keys|
    {
      keys[(start + attempt) % |keys|]
    }

    function NextEntry(): Call {
      var next := this.(attempt := attempt + 1, phase := Looking);
      if next.attempt < |keys| then next else next.(phase := Over)
    }
  }

  /** One operation on a key, and the check it started from. */
  datatype Operation = Operation(task: Task, key: Key, check: nat)

  /** The calls, the registry with its whole past, and all operations started so far. */
  datatype System = System(
    calls: map<Task, Call>, registries: seq<Registry>, events: seq<Event>, operations: seq<Operation>)

  datatype Act =
    | Begin(keys: seq<Key>, start: nat, streaming: bool)
    | Look(at: real, allowed: bool)                            // ask the breaker of the entry
    | PassOver                                                 // no raw provider, or it cannot stream
    | Operate                                                  // start an operation, or retry it
    | Answer(at: real)                                         // it succeeded
    | Rotate(at: real, victims: set<Key>, cooldown: int)       // it failed for now, as often as tried
    | Abort                                                    // its error goes to the caller
    | Outside(e: Event)                                        // cleanup, restore or clearing

  /** The registry event that an act amounts to, if any. */
  function EventOf(c: Call, a: Act): seq<Event>
    requires c.Going()
  {
    match a
    case Look(at, allowed) => [Check(c.Current(), at, allowed)]
    case Answer(at) => [Success(c.Current(), at)]
    case Rotate(at, victims, cooldown) => [Failure(c.Current(), at, victims, cooldown)]
    case _ => []
  }

  /** What becomes of the call. `n`: how many registry events there were before. */
  function Moved(c: Call, a: Act, n: nat): (r: seq<Call>)
    requires c.Going()
    ensures |r| <= 1
  {
    match (a, c.phase)
    case (Look(_, allowed), Looking) => [if allowed then c.(phase := Working(n, 0)) else c.NextEntry()]
    case (PassOver, Working(_, started)) => if started == 0 || c.streaming then [c.NextEntry()] else []
    case (Operate, Working(check, started)) =>
      if started < c.Limit() then [c.(phase := Working(check, started + 1))] else []
    case (Answer(_), Working(_, started)) => if started > 0 then [c.(phase := Over)] else []
    case (Rotate(_, _, _), Working(_, started)) =>
      if started == c.Limit() || c.streaming then [c.NextEntry()] else []
    case (Abort, _) => [c.(phase := Over)]
    case _ => []
  }

  ghost predicate Appends(s: System, more: seq<Event>, s': System) {
    && |s.registries| == |s.events| + 1 && |more| <= 1
    && s'.events == s.events + more
    && if more == [] then s'.registries == s.registries
       else
         && |s'.registries| == |s.registries| + 1
         && s'.registries == s.registries + [s'.registries[|s.registries|]]
         && Step(s.registries[|s.events|], more[0], s'.registries[|s.registries|])
         && (Timely(more[0]) ==> forall i :: 0 <= i < |s.events| ==> s.events[i].at <= more[0].at)
  }

  ghost predicate SystemStep(s: System, t: Task, a: Act, s': System) {
    match a
    case Begin(keys, start, streaming) =>
      && t !in s.calls && start < |keys|
      && s' == s.(calls := s.calls[t := Call(keys, start, streaming, 0, Looking)])
    case Outside(e) =>
      && !Timely(e) && Appends(s, [e], s')
      && s'.calls == s.calls && s'.operations == s.operations
    case _ =>
      && t in s.calls && s.calls[t].Going()
      && var c := s.calls[t];
         var r := Moved(c, a, |s.events|);
      && |r| == 1 && s'.calls == s.calls[t := r[0]]
      && Appends(s, EventOf(c, a), s')
      && s'.operations == if a.Operate? && c.phase.Working?
                          then s.operations + [Operation(t, c.Current(), c.phase.check)] else s.operations
  }

  /** Every call that works was let through by its own check of the entry it stands at. */
  ghost predicate LetThrough(events: seq<Event>, key: Key, check: nat) {
    check < |events| && events[check].Check? && events[check].key == key && events[check].allowed
  }

  ghost predicate Proper(s: System) {
    && Run(s.registries, s.events) && s.registries[0] == map[]
    && (forall t :: t in s.calls ==> CallProper(s, s.calls[t]))
    && forall o :: o in s.operations ==> LetThrough(s.events, o.key, o.check)
  }

  ghost predicate CallProper(s: System, c: Call) {
    c.phase.Working? ==> c.attempt < |c.keys| && LetThrough(s.events, c.Current(), c.phase.check)
  }

  lemma {:induction false} AppendsRun(s: System, more: seq<Event>, s': System)
    requires Run(s.registries, s.events) && Appends(s, more, s')
    ensures Run(s'.registries, s'.events) && s'.registries[0] == s.registries[0]
    ensures forall key, check :: LetThrough(s.events, key, check) ==> LetThrough(s'.events, key, check)
  {
  }

  lemma {:induction false} StepProper(s: System, t: Task, a: Act, s': System)
    requires Proper(s) && SystemStep(s, t, a, s')
    ensures Proper(s')
  {
    if a.Begin? {
    } else {
      var more := if a.Outside? then [a.e] else EventOf(s.calls[t], a);
      AppendsRun(s, more, s');
      forall u | u in s'.calls ensures CallProper(s', s'.calls[u]) {
        assert u in s.calls && CallProper(s, s.calls[u]);
      }
    }
  }

  ghost predicate Reaches(systems: seq<System>, acts: seq<(Task, Act)>) {
    && |systems| == |acts| + 1
    && if acts == [] then systems[0] == System(map[], [map[]], [], [])
       else
         var n := |acts| - 1;
         && Reaches(systems[..n + 1], acts[..n])
         && SystemStep(systems[n], acts[n].0, acts[n].1, systems[n + 1])
  }

  lemma {:induction false} AlwaysProper(systems: seq<System>, acts: seq<(Task, Act)>)
    requires Reaches(systems, acts)
    ensures Proper(systems[|acts|])
  {
    if acts == [] {
    } else {
      var n := |acts| - 1;
      AlwaysProper(systems[..n + 1], acts[..n]);
      StepProper(systems[n], acts[n].0, acts[n].1, systems[n + 1]);
    }
  }

  /** In every interleaving: if a failure, of whichever call, leaves a key OPEN, no operation on that
      key starts from a check made before the blackout is over, unless in between the key had a
      success or was trimmed away, or the map was cleared. */
  lemma {:induction false} NoOperationInBlackout(systems: seq<System>, acts: seq<(Task, Act)>, o: Operation, i: nat)
    requires Reaches(systems, acts)
    requires var s := systems[|acts|];
             && o in s.operations && i < o.check < |s.events|
             && s.events[i].Failure? && s.events[i].key == o.key && |s.registries| == |s.events| + 1
             && o.key in s.registries[i + 1] && s.registries[i + 1][o.key].state == Open
             && forall n :: i < n < o.check ==> Leaves(s.events[n], o.key)
    ensures var s := systems[|acts|];
            s.events[o.check].at >=
            s.events[i].at + Horizon(CleanedBetween(s.events, i + 1, o.check), s.registries[i + 1][o.key].trippedCount)
  {
    var s := systems[|acts|];
    AlwaysProper(systems, acts);
    Blackout(s.registries, s.events, i, o.check);
  }

  // ----- how many operations one check is good for -----

  function StartedFrom(operations: seq<Operation>, check: nat): nat {
    if operations == [] then 0
    else
      var n := |operations| - 1;
      StartedFrom(operations[..n], check) + (if operations[n].check == check then 1 else 0)
  }

  lemma {:induction false} NoneStarted(operations: seq<Operation>, check: nat)
    requires forall o :: o in operations ==> o.check != check
    ensures StartedFrom(operations, check) == 0
  {
    if operations == [] {
    } else {
      NoneStarted(operations[..|operations| - 1], check);
    }
  }

  lemma {:induction false} OneMore(operations: seq<Operation>, o: Operation)
    ensures forall check: nat ::
      StartedFrom(operations + [o], check) == StartedFrom(operations, check) + (if o.check == check then 1 else 0)
  {
    assert (operations + [o])[..|operations|] == operations;
  }

  ghost predicate WorksOn(calls: map<Task, Call>, t: Task, check: nat) {
    t in calls && calls[t].phase.Working? && calls[t].phase.check == check
  }

  /** No check is shared: not by working calls, and not by calls that have worked. */
  ghost predicate Unshared(calls: map<Task, Call>, operations: seq<Operation>) {
    && (forall t, u, check :: WorksOn(calls, t, check) && WorksOn(calls, u, check) ==> t == u)
    && (forall t, o :: o in operations && WorksOn(calls, t, o.check) ==> o.task == t)
    && forall o, q :: o in operations && q in operations && o.check == q.check ==> o.task == q.task
  }

  /** A working call has started as many operations as it thinks. */
  ghost predicate Counted(calls: map<Task, Call>, operations: seq<Operation>) {
    && (forall check: nat :: StartedFrom(operations, check) <= MAX_OPERATIONS)
    && forall t, check :: WorksOn(calls, t, check) ==> StartedFrom(operations, check) == calls[t].phase.started
  }

  /** The calls that work on a check, and on which, are at most those before and one newcomer. */
  lemma {:induction false} StillUnshared(
    calls: map<Task, Call>, now: map<Task, Call>, operations: seq<Operation>, t: Task, check: nat)
    requires Unshared(calls, operations)
    requires forall u: Task, n: nat :: WorksOn(now, u, n) ==> WorksOn(calls, u, n) || (u == t && n == check)
    requires forall u :: WorksOn(calls, u, check) ==> u == t
    requires forall o :: o in operations && o.check == check ==> o.task == t
    ensures Unshared(now, operations)
  {
    forall u, v, n | WorksOn(now, u, n) && WorksOn(now, v, n) ensures u == v {
      assert WorksOn(calls, u, n) || u == t;
      assert WorksOn(calls, v, n) || v == t;
    }
    forall u, o | o in operations && WorksOn(now, u, o.check) ensures o.task == u {
      assert WorksOn(calls, u, o.check) || u == t;
    }
  }

  lemma {:induction false} StopsWorking(calls: map<Task, Call>, operations: seq<Operation>, t: Task, c: Call)
    requires Unshared(calls, operations) && Counted(calls, operations) && !c.phase.Working?
    ensures Unshared(calls[t := c], operations) && Counted(calls[t := c], operations)
  {
    var now := calls[t := c];
    assert forall u: Task, n: nat :: WorksOn(now, u, n) ==> WorksOn(calls, u, n);
    forall u, v, n | WorksOn(now, u, n) && WorksOn(now, v, n) ensures u == v {
      assert WorksOn(calls, u, n) && WorksOn(calls, v, n);
    }
    forall u, o | o in operations && WorksOn(now, u, o.check) ensures o.task == u {
      assert WorksOn(calls, u, o.check);
    }
  }

  lemma {:induction false} StartsWorking(
    calls: map<Task, Call>, operations: seq<Operation>, t: Task, c: Call, check: nat)
    requires Unshared(calls, operations) && Counted(calls, operations) && c.phase == Working(check, 0)
    requires forall u :: !WorksOn(calls, u, check)
    requires forall o :: o in operations ==> o.check != check
    ensures Unshared(calls[t := c], operations) && Counted(calls[t := c], operations)
  {
    NoneStarted(operations, check);
    StillUnshared(calls, calls[t := c], operations, t, check);
  }

  lemma {:induction false} WorksOnMore(
    calls: map<Task, Call>, operations: seq<Operation>, t: Task, c: Call, key: Key, check: nat)
    requires Unshared(calls, operations) && Counted(calls, operations) && WorksOn(calls, t, check)
    requires calls[t].phase.started < MAX_OPERATIONS && c.phase == Working(check, calls[t].phase.started + 1)
    ensures Unshared(calls[t := c], operations + [Operation(t, key, check)])
    ensures Counted(calls[t := c], operations + [Operation(t, key, check)])
  {
    var now, more := calls[t := c], operations + [Operation(t, key, check)];
    OneMore(operations, Operation(t, key, check));
    StillUnshared(calls, now, operations, t, check);
    assert forall o :: o in more <==> o in operations || o == Operation(t, key, check);
    forall u, o | o in more && WorksOn(now, u, o.check) ensures o.task == u {
      assert WorksOn(now, t, check);
    }
  }

  lemma {:induction false} NewCheck(s: System)
    requires Proper(s)
    ensures forall t :: !WorksOn(s.calls, t, |s.events|)
    ensures forall o :: o in s.operations ==> o.check != |s.events|
  {
    assert forall t :: t in s.calls ==> CallProper(s, s.calls[t]);
  }

  lemma {:induction false} StepCounted(s: System, t: Task, a: Act, s': System)
    requires Proper(s) && SystemStep(s, t, a, s')
    requires Unshared(s.calls, s.operations) && Counted(s.calls, s.operations)
    ensures Unshared(s'.calls, s'.operations) && Counted(s'.calls, s'.operations)
  {
    if a.Outside? {
    } else if !s'.calls[t].phase.Working? {
      StopsWorking(s.calls, s.operations, t, s'.calls[t]);
    } else if a.Look? {
      NewCheck(s);
      StartsWorking(s.calls, s.operations, t, s'.calls[t], |s.events|);
    } else {
      var c := s.calls[t];
      WorksOnMore(s.calls, s.operations, t, s'.calls[t], c.Current(), c.phase.check);
    }
  }

  lemma {:induction false} AlwaysCounted(systems: seq<System>, acts: seq<(Task, Act)>)
    requires Reaches(systems, acts)
    ensures var s := systems[|acts|]; Unshared(s.calls, s.operations) && Counted(s.calls, s.operations)
  {
    if acts == [] {
    } else {
      var n := |acts| - 1;
      AlwaysCounted(systems[..n + 1], acts[..n]);
      AlwaysProper(systems[..n + 1], acts[..n]);
      StepCounted(systems[n], acts[n].0, acts[n].1, systems[n + 1]);
    }
  }

  /** In every interleaving one check is good for three operations at most, all of the call that made
      it. */
  lemma {:induction false} ThreeOperationsPerCheck(systems: seq<System>, acts: seq<(Task, Act)>, check: nat)
    requires Reaches(systems, acts)
    ensures var operations := systems[|acts|].operations;
            && StartedFrom(operations, check) <= 3
            && forall o, q :: o in operations && q in operations && o.check == q.check ==> o.task == q.task
  {
    AlwaysCounted(systems, acts);
  }
}
