/** The two levels of semaphores around an LLM call, as steps of arbitrarily many tasks. */
module DispatchSlots {

  type Task = nat

  /** A purpose semaphore, or the key semaphore of one MultiKeyProvider. */
  datatype Sem = Purpose(name: string) | Keys(provider: nat)

  const FALLBACK: Sem := Purpose("fallback")

  /** chat, chat_with_tools, embed and embed_batch differ only in the purpose they ask for;
      chat_stream may fall back to a plain call while it holds both slots. */
  datatype Call = Call(purpose: string, provider: nat, streaming: bool)

  datatype Phase =
    | Idle
    | WaitPurpose
    | WaitFallback             // after the 120 s timeout
    | WaitKey(slot: Sem)       // holds `slot`
    | Streaming(slot: Sem)     // holds `slot` and a key permit
    | Working(slot: Sem)       // holds `slot` and a key permit
    | KeyReleased(slot: Sem)   // holds `slot`

  /** The calls a task still has to make (a fallback chain makes one per provider); all phases but
      Idle belong to the first of them. */
  datatype TaskState = TaskState(calls: seq<Call>, phase: Phase) {
    predicate Finished() { phase == Idle && calls == [] }

    function Holds(): set<Sem> {
      match phase
      case WaitKey(s) => {s}
      case KeyReleased(s) => {s}
      case Streaming(s) => if calls == [] then {s} else {s, Keys(calls[0].provider)}
      case Working(s) => if calls == [] then {s} else {s, Keys(calls[0].provider)}
      case _ => {}
    }

    /** Steps this task can still make. */
    function Rank(): nat {
      var done := match phase
        case Idle => 0
        case WaitPurpose => 1
        case WaitFallback => 2
        case WaitKey(_) => 3
        case Streaming(_) => 4
        case Working(_) => 5
        case KeyReleased(_) => 6;
      if calls == [] then 0 else 7 * |calls| - done
    }
  }

  datatype Move =
    | Begin
    | TakePurpose
    | TimeOut
    | TakeFallback
    | TakeKey
    | StreamFallsBack
    | ReleaseKey
    | ReleasePurpose(more: bool)  // whether the caller goes on to its next provider
    | Cancel                      // cancelled while waiting for a slot

  datatype State = State(permits: map<Sem, nat>, tasks: map<Task, TaskState>)

  /** An unknown purpose uses the fallback semaphore. */
  function PurposeSem(caps: map<Sem, nat>, purpose: string): Sem {
    if Purpose(purpose) in caps then Purpose(purpose) else FALLBACK
  }

  /** The semaphore the move takes or gives back, if any. */
  function Takes(caps: map<Sem, nat>, ts: TaskState, m: Move): set<Sem> {
    if ts.calls == [] then {}
    else
      match (m, ts.phase)
      case (TakePurpose, WaitPurpose) => {PurposeSem(caps, ts.calls[0].purpose)}
      case (TakeFallback, WaitFallback) => {FALLBACK}
      case (TakeKey, WaitKey(_)) => {Keys(ts.calls[0].provider)}
      case _ => {}
  }

  /** What the move makes of the task; empty if it is not in a phase for the move. */
  function Moved(caps: map<Sem, nat>, ts: TaskState, m: Move): (r: seq<TaskState>)
    ensures |r| <= 1
  {
    if ts.calls == [] then []
    else
      match (m, ts.phase)
      case (Begin, Idle) => [ts.(phase := WaitPurpose)]
      case (TakePurpose, WaitPurpose) => [ts.(phase := WaitKey(PurposeSem(caps, ts.calls[0].purpose)))]
      case (TimeOut, WaitPurpose) => [ts.(phase := WaitFallback)]
      case (TakeFallback, WaitFallback) => [ts.(phase := WaitKey(FALLBACK))]
      case (TakeKey, WaitKey(s)) => [ts.(phase := if ts.calls[0].streaming then Streaming(s) else Working(s))]
      case (StreamFallsBack, Streaming(s)) => [ts.(phase := Working(s))]
      case (ReleaseKey, Streaming(s)) => [ts.(phase := KeyReleased(s))]
      case (ReleaseKey, Working(s)) => [ts.(phase := KeyReleased(s))]
      case (ReleasePurpose(more), KeyReleased(s)) => [TaskState(if more then ts.calls[1..] else [], Idle)]
      case (Cancel, WaitPurpose) => [TaskState([], Idle)]
      case (Cancel, WaitFallback) => [TaskState([], Idle)]
      case (Cancel, WaitKey(s)) => [TaskState([], Idle)]
      case _ => []
  }

  /** The `finally` blocks: the key permit first, then the purpose permit. */
  predicate Gives(ts: TaskState, m: Move, x: Sem) {
    match (m, ts.phase)
    case (ReleaseKey, Streaming(_)) => ts.calls != [] && x == Keys(ts.calls[0].provider)
    case (ReleaseKey, Working(_)) => ts.calls != [] && x == Keys(ts.calls[0].provider)
    case (ReleasePurpose(_), KeyReleased(s)) => x == s
    case (Cancel, WaitKey(s)) => x == s
    case _ => false
  }

  /** A permit is needed to take a semaphore; the permits follow what the task gains and gives up. */
  ghost predicate Step(caps: map<Sem, nat>, s: State, t: Task, m: Move, s': State) {
    && t in s.tasks
    && var r := Moved(caps, s.tasks[t], m);
    && |r| == 1
    && s'.tasks == s.tasks[t := r[0]]
    && s'.permits.Keys == s.permits.Keys
    && (forall x :: x in Takes(caps, s.tasks[t], m) ==> x in s.permits && s.permits[x] > 0)
    && forall x :: x in s.permits ==>
         s'.permits[x] == (if x in Takes(caps, s.tasks[t], m) then s.permits[x] - 1
                           else if Gives(s.tasks[t], m, x) then s.permits[x] + 1
                           else s.permits[x])
  }

  ghost predicate Enabled(caps: map<Sem, nat>, s: State, t: Task, m: Move) {
    && t in s.tasks
    && |Moved(caps, s.tasks[t], m)| == 1
    && forall x :: x in Takes(caps, s.tasks[t], m) ==> x in s.permits && s.permits[x] > 0
  }

  /** What is enabled can be done. */
  lemma EnabledHasStep(caps: map<Sem, nat>, s: State, t: Task, m: Move) returns (s': State)
    requires Enabled(caps, s, t, m)
    ensures Step(caps, s, t, m, s')
  {
    var taken := Takes(caps, s.tasks[t], m);
    s' := State(
      map x | x in s.permits ::
        if x in taken then s.permits[x] - 1
        else if Gives(s.tasks[t], m, x) then s.permits[x] + 1 else s.permits[x],
      s.tasks[t := Moved(caps, s.tasks[t], m)[0]]);
  }

  // ----- the invariant -----

  /** Every semaphore a call can need exists and has a permit; purpose slots are purpose semaphores. */
  ghost predicate Sensible(caps: map<Sem, nat>, ts: TaskState) {
    && (forall c :: c in ts.calls ==> Keys(c.provider) in caps)
    && (ts.phase != Idle ==> ts.calls != [])
    && (forall x :: x in ts.Holds() ==> x in caps)
    && (ts.phase.WaitKey? || ts.phase.Streaming? || ts.phase.Working? || ts.phase.KeyReleased? ==>
          ts.phase.slot.Purpose?)
  }

  ghost predicate Config(caps: map<Sem, nat>) {
    && FALLBACK in caps
    && forall x :: x in caps ==> caps[x] > 0
  }

  function Holders(s: State, x: Sem): set<Task> {
    set t | t in s.tasks && x in s.tasks[t].Holds()
  }

  /** Permits plus holders make up the capacity of every semaphore. */
  ghost predicate Conserved(caps: map<Sem, nat>, s: State) {
    && s.permits.Keys == caps.Keys
    && (forall x :: x in caps ==> s.permits[x] + |Holders(s, x)| == caps[x])
    && (forall t :: t in s.tasks ==> Sensible(caps, s.tasks[t]))
  }

  /** A move takes only what the task lacks, gives only what it has, and ends with the difference. */
  ghost predicate SameBalance(caps: map<Sem, nat>, ts: TaskState, m: Move, ts': TaskState) {
    forall x ::
      && (x in ts'.Holds() <==> x in Takes(caps, ts, m) || (x in ts.Holds() && !Gives(ts, m, x)))
      && (x in Takes(caps, ts, m) ==> x !in ts.Holds())
      && (Gives(ts, m, x) ==> x in ts.Holds() && x !in Takes(caps, ts, m))
  }

  lemma MoveKeepsSense(caps: map<Sem, nat>, ts: TaskState, m: Move)
    requires Config(caps) && Sensible(caps, ts) && |Moved(caps, ts, m)| == 1
    ensures Sensible(caps, Moved(caps, ts, m)[0])
    ensures SameBalance(caps, ts, m, Moved(caps, ts, m)[0])
  {
    assert ts.calls[0] in ts.calls;
  }

  lemma HoldersChange(s: State, s': State, t: Task, x: Sem)
    requires t in s.tasks && t in s'.tasks && s'.tasks == s.tasks[t := s'.tasks[t]]
    ensures |Holders(s', x)| == |Holders(s, x)| - (if x in s.tasks[t].Holds() then 1 else 0)
                                                + (if x in s'.tasks[t].Holds() then 1 else 0)
  {
    var others := Holders(s, x) - {t};
    assert Holders(s, x) == if x in s.tasks[t].Holds() then others + {t} else others;
    assert Holders(s', x) == if x in s'.tasks[t].Holds() then others + {t} else others;
  }

  lemma StepConserves(caps: map<Sem, nat>, s: State, t: Task, m: Move, s': State)
    requires Config(caps) && Conserved(caps, s) && Step(caps, s, t, m, s')
    ensures Conserved(caps, s')
  {
    var ts, ts' := s.tasks[t], s'.tasks[t];
    assert Sensible(caps, ts') && SameBalance(caps, ts, m, ts') by {
      MoveKeepsSense(caps, ts, m);
    }
    forall u | u in s'.tasks ensures Sensible(caps, s'.tasks[u]) {
      assert u != t ==> s'.tasks[u] == s.tasks[u];
    }
    forall x | x in caps ensures s'.permits[x] + |Holders(s', x)| == caps[x] {
      HoldersChange(s, s', t, x);
    }
  }

  // ----- progress -----

  predicate ByItself(m: Move) { m != TimeOut && m != Cancel }

  lemma FreeIfUnheld(caps: map<Sem, nat>, s: State, x: Sem)
    requires Config(caps) && Conserved(caps, s) && x in caps
    requires forall t :: t in s.tasks ==> x !in s.tasks[t].Holds()
    ensures s.permits[x] > 0
  {
    assert Holders(s, x) == {};
  }

  predicate HoldsKey(ts: TaskState) { ts.phase.Streaming? || ts.phase.Working? }

  lemma HolderMoves(caps: map<Sem, nat>, s: State, t: Task) returns (m: Move)
    requires Conserved(caps, s) && t in s.tasks
    requires HoldsKey(s.tasks[t]) || s.tasks[t].phase.KeyReleased?
    ensures Enabled(caps, s, t, m) && ByItself(m)
  {
    assert Sensible(caps, s.tasks[t]);
    m := if HoldsKey(s.tasks[t]) then ReleaseKey else ReleasePurpose(false);
  }

  lemma KeyWaiterMoves(caps: map<Sem, nat>, s: State, t: Task)
    requires Config(caps) && Conserved(caps, s) && t in s.tasks && s.tasks[t].phase.WaitKey?
    requires forall u :: u in s.tasks ==> !HoldsKey(s.tasks[u])
    ensures Enabled(caps, s, t, TakeKey)
  {
    var ts := s.tasks[t];
    assert Sensible(caps, ts) && ts.calls[0] in ts.calls;
    forall u | u in s.tasks ensures Keys(ts.calls[0].provider) !in s.tasks[u].Holds() {
      assert Sensible(caps, s.tasks[u]);
    }
    FreeIfUnheld(caps, s, Keys(ts.calls[0].provider));
  }

  lemma PurposeWaiterMoves(caps: map<Sem, nat>, s: State, t: Task) returns (m: Move)
    requires Config(caps) && Conserved(caps, s) && t in s.tasks && !s.tasks[t].Finished()
    requires forall u :: u in s.tasks ==> s.tasks[u].Holds() == {}
    ensures Enabled(caps, s, t, m) && ByItself(m)
  {
    var ts := s.tasks[t];
    assert Sensible(caps, ts) && ts.Holds() == {};
    match ts.phase {
      case Idle =>
        m := Begin;
      case WaitPurpose =>
        m := TakePurpose;
        FreeIfUnheld(caps, s, PurposeSem(caps, ts.calls[0].purpose));
      case _ =>
        m := TakeFallback;
        FreeIfUnheld(caps, s, FALLBACK);
    }
  }

  lemma SomebodyMoves(caps: map<Sem, nat>, s: State, unfinished: Task) returns (t: Task, m: Move)
    requires Config(caps) && Conserved(caps, s)
    requires unfinished in s.tasks && !s.tasks[unfinished].Finished()
    ensures Enabled(caps, s, t, m) && ByItself(m)
  {
    if u :| u in s.tasks && (HoldsKey(s.tasks[u]) || s.tasks[u].phase.KeyReleased?) {
      t := u;
      m := HolderMoves(caps, s, t);
    } else if u :| u in s.tasks && s.tasks[u].phase.WaitKey? {
      KeyWaiterMoves(caps, s, u);
      t, m := u, TakeKey;
    } else {
      t := unfinished;
      m := PurposeWaiterMoves(caps, s, t);
    }
  }

  /** No deadlock: as long as some task is unfinished, there is a step in which a task moves on
      without a timeout and without being cancelled. */
  lemma NeverDeadlocked(caps: map<Sem, nat>, s: State, unfinished: Task)
    returns (t: Task, m: Move, s': State)
    requires Config(caps) && Conserved(caps, s)
    requires unfinished in s.tasks && !s.tasks[unfinished].Finished()
    ensures Step(caps, s, t, m, s') && ByItself(m)
  {
    t, m := SomebodyMoves(caps, s, unfinished);
    s' := EnabledHasStep(caps, s, t, m);
  }

  ghost function TotalRank(tasks: map<Task, TaskState>): nat
    decreases |tasks|
  {
    if tasks == map[] then 0
    else
      var t :| t in tasks;
      tasks[t].Rank() + TotalRank(tasks - {t})
  }

  lemma {:induction false} TotalRankPick(tasks: map<Task, TaskState>, t: Task)
    requires t in tasks
    ensures TotalRank(tasks) == tasks[t].Rank() + TotalRank(tasks - {t})
    decreases |tasks|
  {
    var u :| u in tasks && TotalRank(tasks) == tasks[u].Rank() + TotalRank(tasks - {u});
    if u == t {
    } else {
      TotalRankPick(tasks - {u}, t);
      TotalRankPick(tasks - {t}, u);
      assert tasks - {u} - {t} == tasks - {t} - {u};
    }
  }

  lemma StepLowersRank(caps: map<Sem, nat>, s: State, t: Task, m: Move, s': State)
    requires Step(caps, s, t, m, s')
    ensures TotalRank(s'.tasks) < TotalRank(s.tasks)
  {
    TotalRankPick(s.tasks, t);
    TotalRankPick(s'.tasks, t);
    assert s'.tasks - {t} == s.tasks - {t};
  }

  /** A run: each step names the task that moves and the move it makes. */
  ghost predicate Run(caps: map<Sem, nat>, states: seq<State>, steps: seq<(Task, Move)>) {
    && |states| == |steps| + 1
    && (steps != [] ==>
          var n := |steps| - 1;
          Run(caps, states[..n + 1], steps[..n]) && Step(caps, states[n], steps[n].0, steps[n].1, states[n + 1]))
  }

  /** Nobody has called anything yet. */
  ghost predicate Start(caps: map<Sem, nat>, s: State) {
    && Config(caps) && s.permits == caps
    && forall t :: t in s.tasks ==> s.tasks[t].phase == Idle && Sensible(caps, s.tasks[t])
  }

  lemma StartConserved(caps: map<Sem, nat>, s: State)
    requires Start(caps, s)
    ensures Conserved(caps, s)
  {
    forall x | x in caps ensures |Holders(s, x)| == 0 {
      assert Holders(s, x) == {};
    }
  }

  /** In every reachable state permits + holders = capacity for each semaphore. */
  lemma {:induction false} AlwaysConserved(caps: map<Sem, nat>, states: seq<State>, steps: seq<(Task, Move)>)
    requires Run(caps, states, steps) && Start(caps, states[0])
    ensures Conserved(caps, states[|steps|])
  {
    if steps == [] {
      StartConserved(caps, states[0]);
    } else {
      var n := |steps| - 1;
      AlwaysConserved(caps, states[..n + 1], steps[..n]);
      StepConserves(caps, states[n], steps[n].0, steps[n].1, states[n + 1]);
    }
  }

  lemma {:induction false} RunsEnd(caps: map<Sem, nat>, states: seq<State>, steps: seq<(Task, Move)>)
    requires Run(caps, states, steps)
    ensures |steps| + TotalRank(states[|steps|].tasks) <= TotalRank(states[0].tasks)
  {
    if steps == [] {
    } else {
      var n := |steps| - 1;
      RunsEnd(caps, states[..n + 1], steps[..n]);
      StepLowersRank(caps, states[n], steps[n].0, steps[n].1, states[n + 1]);
    }
  }

  /** No task can take a step without a timeout or a cancellation. */
  ghost predicate Stopped(caps: map<Sem, nat>, s: State) {
    forall t, m, s' :: Step(caps, s, t, m, s') ==> !ByItself(m)
  }

  /** Whatever the tasks, the interleaving, the timeouts and the cancellations: every run is finite,
      it can only stop when all tasks are finished, and then every permit is back. */
  lemma EveryRunDrains(caps: map<Sem, nat>, states: seq<State>, steps: seq<(Task, Move)>)
    requires Run(caps, states, steps) && Start(caps, states[0])
    ensures |steps| <= TotalRank(states[0].tasks)
    ensures var last := states[|steps|];
            Stopped(caps, last) ==>
            && (forall t :: t in last.tasks ==> last.tasks[t].Finished())
            && last.permits == caps
  {
    RunsEnd(caps, states, steps);
    var last := states[|steps|];
    AlwaysConserved(caps, states, steps);
    if Stopped(caps, last) {
      forall t | t in last.tasks ensures last.tasks[t].Finished() {
        if !last.tasks[t].Finished() {
          var u, m, next := NeverDeadlocked(caps, last, t);
        }
      }
      forall x | x in caps ensures last.permits[x] == caps[x] {
        assert Holders(last, x) == {};
      }
    }
  }

  // ----- what a task holds, told from its moves -----

  /** The last move of the task among the first n steps. */
  function LastMove(steps: seq<(Task, Move)>, t: Task): seq<Move> {
    if steps == [] then []
    else
      var n := |steps| - 1;
      if steps[n].0 == t then [steps[n].1] else LastMove(steps[..n], t)
  }

  /** What the last move says about where the task stands. */
  ghost predicate StandsWhere(caps: map<Sem, nat>, ts: TaskState, last: seq<Move>) {
    if last == [] then ts.phase == Idle
    else
      && |last| == 1
      && match last[0]
         case Begin => ts.phase == WaitPurpose
         case TimeOut => ts.phase == WaitFallback
         case TakePurpose =>
           ts.calls != [] && ts.phase == WaitKey(
             if Purpose(ts.calls[0].purpose) in caps then Purpose(ts.calls[0].purpose) else Purpose("fallback"))
         case TakeFallback => ts.phase == WaitKey(Purpose("fallback"))
         case TakeKey => ts.calls != [] && if ts.calls[0].streaming then ts.phase.Streaming? else ts.phase.Working?
         case StreamFallsBack => ts.phase.Working?
         case ReleaseKey => ts.phase.KeyReleased?
         case ReleasePurpose(_) => ts.phase == Idle
         case Cancel => ts.phase == Idle && ts.calls == []
  }

  /** Along every run: a task waits for its own purpose after it has begun, for the fallback slot after
      a time-out, and for its provider's key only with a slot in hand. */
  lemma {:induction false} MovesTellPhase(
    caps: map<Sem, nat>, states: seq<State>, steps: seq<(Task, Move)>, t: Task)
    requires Run(caps, states, steps) && Start(caps, states[0]) && t in states[0].tasks
    ensures t in states[|steps|].tasks && StandsWhere(caps, states[|steps|].tasks[t], LastMove(steps, t))
  {
    if steps == [] {
    } else {
      var n := |steps| - 1;
      MovesTellPhase(caps, states[..n + 1], steps[..n], t);
    }
  }

  /** The purpose slot in the hands of a task is that of its call, or the fallback slot. */
  ghost predicate RightSlot(caps: map<Sem, nat>, ts: TaskState) {
    ts.phase.WaitKey? || ts.phase.Streaming? || ts.phase.Working? ==>
      && ts.calls != []
      && (ts.phase.slot == Purpose("fallback") ||
          (Purpose(ts.calls[0].purpose) in caps && ts.phase.slot == Purpose(ts.calls[0].purpose)))
  }

  lemma {:induction false} AlwaysRightSlot(
    caps: map<Sem, nat>, states: seq<State>, steps: seq<(Task, Move)>, t: Task)
    requires Run(caps, states, steps) && Start(caps, states[0]) && t in states[0].tasks
    ensures t in states[|steps|].tasks && RightSlot(caps, states[|steps|].tasks[t])
  {
    if steps == [] {
    } else {
      var n := |steps| - 1;
      AlwaysRightSlot(caps, states[..n + 1], steps[..n], t);
    }
  }

  /** A step leaves the calls of a task alone, except that releasing the slot ends the first of them,
      with or without going on to the next, and a cancellation ends them all. */
  lemma {:induction false} CallsLeft(caps: map<Sem, nat>, s: State, t: Task, m: Move, s': State, u: Task)
    requires Step(caps, s, t, m, s') && u in s.tasks
    ensures u in s'.tasks
    ensures s'.tasks[u].calls ==
            if u == t && (m == Cancel || m == ReleasePurpose(false)) then []
            else if u == t && m == ReleasePurpose(true) then s.tasks[u].calls[1..]
            else s.tasks[u].calls
  {
  }

  /** The tasks that call the provider right now, with a stream or without. */
  function AtWork(s: State, provider: nat): set<Task> {
    set t | t in s.tasks && (s.tasks[t].phase.Working? || s.tasks[t].phase.Streaming?)
            && s.tasks[t].calls != [] && s.tasks[t].calls[0].provider == provider
  }

  /** The tasks with a purpose slot in hand. */
  function WithSlot(s: State, x: Sem): set<Task> {
    set t | t in s.tasks && (s.tasks[t].phase.WaitKey? || s.tasks[t].phase.Streaming?
                             || s.tasks[t].phase.Working? || s.tasks[t].phase.KeyReleased?)
            && s.tasks[t].phase.slot == x
  }

  lemma {:induction false} HoldersBounded(caps: map<Sem, nat>, s: State, x: Sem, some: set<Task>)
    requires Conserved(caps, s) && x in caps && some <= Holders(s, x)
    ensures |some| <= caps[x]
  {
    assert Holders(s, x) == some + (Holders(s, x) - some);
    assert s.permits[x] + |Holders(s, x)| == caps[x];
  }

  lemma {:induction false} NotTooManyNow(caps: map<Sem, nat>, s: State, provider: nat, x: Sem)
    requires Conserved(caps, s)
    ensures Keys(provider) in caps ==> |AtWork(s, provider)| <= caps[Keys(provider)]
    ensures x in caps ==> |WithSlot(s, x)| <= caps[x]
  {
    if Keys(provider) in caps {
      HoldersBounded(caps, s, Keys(provider), AtWork(s, provider));
    }
    if x in caps {
      HoldersBounded(caps, s, x, WithSlot(s, x));
    }
  }

  /** Along every run: never more tasks at work on a provider than its key semaphore allows, and never
      more with a slot of a purpose than the purpose has. */
  lemma {:induction false} NeverTooMany(
    caps: map<Sem, nat>, states: seq<State>, steps: seq<(Task, Move)>, provider: nat, x: Sem)
    requires Run(caps, states, steps) && Start(caps, states[0])
    ensures Keys(provider) in caps ==> |AtWork(states[|steps|], provider)| <= caps[Keys(provider)]
    ensures x in caps ==> |WithSlot(states[|steps|], x)| <= caps[x]
  {
    AlwaysConserved(caps, states, steps);
    NotTooManyNow(caps, states[|steps|], provider, x);
  }
}
