/** Many tasks writing through their sessions: what the committed tables hold in the end. */
module SessionData {
  import Sessions
  import opened SessionOwnership

  type Db = Sessions.Db
  type Log = seq<(string, int)>

  // ----- the machine -----

  /** The uncommitted writes of a session in order, and the log length at each savepoint. */
  datatype Conn = Conn(log: Log, marks: seq<nat>)

  datatype Machine = Machine(own: State, conns: map<SessionId, Conn>, committed: Db)

  datatype Act =
    | Fork(child: Task)
    | Open(id: SessionId)            // get_session(): a savepoint, or a session under this id
    | Write(key: string, value: int)
    | Close(raised: bool)            // the innermost block ends

  function OwnMove(a: Act): Move
    requires !a.Write?
  {
    match a
    case Fork(child) => Spawn(child)
    case Open(id) => Enter(id)
    case Close(_) => Exit
  }

  function Top(s: State, t: Task): Frame
    requires t in s.tasks && s.tasks[t].frames != []
  {
    var frames := s.tasks[t].frames;
    frames[|frames| - 1]
  }

  /** The session that the act of the task works on: the one a block is opened or closed on, or that
      is written through. */
  function Target(s: State, t: Task, a: Act): SessionId
    requires t in s.tasks && !a.Fork? && (a.Open? || s.tasks[t].frames != [])
  {
    if a.Open? then (if Owns(s.tasks[t].context, t) then s.tasks[t].context.session else a.id)
    else Top(s, t).session
  }

  /** The act is possible: a write needs an open block, everything else is up to the contexts. */
  ghost predicate OwnStep(s: State, t: Task, a: Act, s': State) {
    && t in s.tasks
    && (a.Write? || a.Close? ==> s.tasks[t].frames != [])
    && (if a.Write? then s' == s else Step(s, t, OwnMove(a), s'))
  }

  ghost predicate MachineStep(m: Machine, t: Task, a: Act, m': Machine) {
    && OwnStep(m.own, t, a, m'.own)
    && if a.Fork? then m'.conns == m.conns && m'.committed == m.committed
       else
         var x := Target(m.own, t, a);
         match a
         case Open(id) =>
           && m'.committed == m.committed
           && if Owns(m.own.tasks[t].context, t) then
                x in m.conns && m'.conns == m.conns[x := Conn(m.conns[x].log, m.conns[x].marks + [|m.conns[x].log|])]
              else m'.conns == m.conns[x := Conn([], [])]
         case Write(key, value) =>
           && m'.committed == m.committed
           && x in m.conns && m'.conns == m.conns[x := Conn(m.conns[x].log + [(key, value)], m.conns[x].marks)]
         case Close(raised) =>
           && x in m.conns
           && if Top(m.own, t).Opened? then
                && m'.conns == m.conns - {x}
                && m'.committed == if raised then m.committed else Sessions.Replay(m.committed, m.conns[x].log)
              else
                && m'.committed == m.committed
                && m.conns[x].marks != [] && m'.conns == m.conns[x := Popped(m.conns[x], raised)]
  }

  /** Rolling back to the last savepoint, or releasing it. */
  function Popped(c: Conn, raised: bool): Conn
    requires c.marks != []
  {
    var n := |c.marks| - 1;
    Conn(if raised && c.marks[n] <= |c.log| then c.log[..c.marks[n]] else c.log, c.marks[..n])
  }

  // ----- what was meant -----

  /** The content of a block: writes, and the blocks inside it that have ended. */
  datatype Node = Wrote(key: string, value: int) | Ended(nodes: seq<Node>, normally: bool)

  /** The writes that lie only in blocks that ended normally. */
  function Surviving(nodes: seq<Node>): Log {
    if nodes == [] then [] else Surviving(nodes[..|nodes| - 1]) + SurvivingOf(nodes[|nodes| - 1])
  }

  function SurvivingOf(node: Node): Log {
    match node
    case Wrote(key, value) => [(key, value)]
    case Ended(nodes, normally) => if normally then Surviving(nodes) else []
  }

  /** The surviving writes of several blocks one after the other. */
  function SurvivingAll(blocks: seq<seq<Node>>): Log {
    if blocks == [] then [] else SurvivingAll(blocks[..|blocks| - 1]) + Surviving(blocks[|blocks| - 1])
  }

  /** What survives of a block depends on how it ended, and of everything else on its own. */
  lemma {:induction false} SurvivingMeans(a: seq<Node>, b: seq<Node>, key: string, value: int)
    ensures Surviving(a + b) == Surviving(a) + Surviving(b)
    ensures Surviving([Wrote(key, value)]) == [(key, value)]
    ensures Surviving([Ended(a, true)]) == Surviving(a) && Surviving([Ended(a, false)]) == []
  {
    assert [Wrote(key, value)][..0] == [] && [Ended(a, true)][..0] == [] && [Ended(a, false)][..0] == [];
    if b == [] {
      assert a + b == a;
    } else {
      var n := |b| - 1;
      SurvivingMeans(a, b[..n], key, value);
      assert (a + b)[..|a + b| - 1] == a + b[..n];
    }
  }

  /** For each open session what its open blocks hold so far, outermost first; and the outermost
      blocks that ended normally, in the order in which they were committed. */
  datatype History = History(open: map<SessionId, seq<seq<Node>>>, commits: seq<seq<Node>>)

  function Added(stack: seq<seq<Node>>, node: Node): seq<seq<Node>>
    requires stack != []
  {
    var n := |stack| - 1;
    stack[..n] + [stack[n] + [node]]
  }

  ghost predicate HistoryStep(s: State, h: History, t: Task, a: Act, h': History)
    requires t in s.tasks && (a.Write? || a.Close? ==> s.tasks[t].frames != [])
  {
    if a.Fork? then h' == h
    else
      var x := Target(s, t, a);
      match a
      case Open(id) =>
        if Owns(s.tasks[t].context, t) then
          x in h.open && h' == h.(open := h.open[x := h.open[x] + [[]]])
        else h' == h.(open := h.open[x := [[]]])
      case Write(key, value) =>
        x in h.open && h.open[x] != [] && h' == h.(open := h.open[x := Added(h.open[x], Wrote(key, value))])
      case Close(raised) =>
        && x in h.open && h.open[x] != []
        && var n := |h.open[x]| - 1;
           if Top(s, t).Opened? then
             h' == History(h.open - {x}, if raised then h.commits else h.commits + [h.open[x][n]])
           else
             n > 0 && h' == h.(open := h.open[x := Added(h.open[x][..n], Ended(h.open[x][n], !raised))])
  }

  // ----- the machine does what was meant -----

  /** The log of a session is what survives of its open blocks, and each savepoint stands where its
      block began. */
  ghost predicate Matches(c: Conn, stack: seq<seq<Node>>) {
    && stack != [] && |c.marks| == |stack| - 1
    && c.log == SurvivingAll(stack)
    && forall k :: 0 < k < |stack| ==> c.marks[k - 1] == |SurvivingAll(stack[..k])|
  }

  lemma NextBlock(stack: seq<seq<Node>>, block: seq<Node>)
    ensures SurvivingAll(stack + [block]) == SurvivingAll(stack) + Surviving(block)
  {
    assert (stack + [block])[..|stack|] == stack;
  }

  lemma OneBlock(block: seq<Node>)
    ensures SurvivingAll([block]) == Surviving(block)
  {
    assert [block][..0] == [];
  }

  lemma NextNode(nodes: seq<Node>, node: Node)
    ensures Surviving(nodes + [node]) == Surviving(nodes) + SurvivingOf(node)
  {
    assert (nodes + [node])[..|nodes|] == nodes;
  }

  lemma {:induction false} AddedSurvives(stack: seq<seq<Node>>, node: Node)
    requires stack != []
    ensures SurvivingAll(Added(stack, node)) == SurvivingAll(stack) + SurvivingOf(node)
    ensures |Added(stack, node)| == |stack|
    ensures forall k :: 0 < k < |stack| ==> Added(stack, node)[..k] == stack[..k]
  {
    var n := |stack| - 1;
    NextBlock(stack[..n], stack[n] + [node]);
    NextNode(stack[n], node);
    forall k | 0 < k < |stack| ensures Added(stack, node)[..k] == stack[..k] {
    }
  }

  lemma {:induction false} WriteMatches(c: Conn, stack: seq<seq<Node>>, key: string, value: int)
    requires Matches(c, stack)
    ensures Matches(Conn(c.log + [(key, value)], c.marks), Added(stack, Wrote(key, value)))
  {
    AddedSurvives(stack, Wrote(key, value));
  }

  lemma {:induction false} OpenMatches(c: Conn, stack: seq<seq<Node>>)
    requires Matches(c, stack)
    ensures Matches(Conn(c.log, c.marks + [|c.log|]), stack + [[]])
  {
    NextBlock(stack, []);
    assert forall k :: 0 < k < |stack| ==> (stack + [[]])[..k] == stack[..k];
    assert (stack + [[]])[..|stack|] == stack;
  }

  lemma {:induction false} CloseMatches(c: Conn, stack: seq<seq<Node>>, raised: bool)
    requires Matches(c, stack) && |stack| > 1
    ensures var n := |stack| - 1;
            Matches(Popped(c, raised), Added(stack[..n], Ended(stack[n], !raised)))
  {
    var n := |stack| - 1;
    var outer := stack[..n];
    AddedSurvives(outer, Ended(stack[n], !raised));
    assert stack == outer + [stack[n]];
    NextBlock(outer, stack[n]);
    assert c.marks[n - 1] == |SurvivingAll(stack[..n])|;
    assert forall k :: 0 < k < n ==> outer[..k] == stack[..k];
    assert c.log[..|SurvivingAll(outer)|] == SurvivingAll(outer);
  }

  ghost predicate Agree(m: Machine, h: History, initial: Db) {
    && AllOk(m.own)
    && m.committed == Sessions.Replay(initial, SurvivingAll(h.commits))
    && forall x :: x in m.own.open ==> SessionAgrees(m, h, x)
  }

  ghost predicate SessionAgrees(m: Machine, h: History, x: SessionId)
    requires AllOk(m.own) && x in m.own.open
  {
    && x in m.conns && x in h.open && Matches(m.conns[x], h.open[x])
    && |h.open[x]| == |m.own.tasks[m.own.opener[x]].frames|
  }

  lemma {:induction false} TargetIsOwn(s: State, t: Task, a: Act)
    requires AllOk(s) && t in s.tasks && !a.Fork? && (a.Write? || a.Close? ==> s.tasks[t].frames != [])
    ensures var x := Target(s, t, a);
            (a.Open? ==> Owns(s.tasks[t].context, t)) ==>
            && x in s.open && s.opener[x] == t
            && (a.Close? ==> (Top(s, t).Opened? <==> |s.tasks[t].frames| == 1))
  {
    assert TaskOk(s, t, s.tasks[t]);
  }

  /** Nobody else's session is touched. */
  lemma {:induction false} OthersAgree(
    m: Machine, h: History, t: Task, a: Act, m': Machine, h': History, initial: Db, y: SessionId)
    requires Agree(m, h, initial) && MachineStep(m, t, a, m') && HistoryStep(m.own, h, t, a, h')
    requires AllOk(m'.own) && y in m'.own.open && (a.Fork? || y != Target(m.own, t, a))
    ensures SessionAgrees(m', h', y)
  {
    if !a.Fork? {
      TargetIsOwn(m.own, t, a);
    }
    assert TaskOk(m.own, t, m.own.tasks[t]);
    assert y in m.own.open;
    assert SessionAgrees(m, h, y);
    var u := m.own.opener[y];
    assert TaskOk(m.own, u, m.own.tasks[u]);
    assert u != t ==> m'.own.tasks[u] == m.own.tasks[u];
  }

  lemma {:induction false} TargetAgrees(
    m: Machine, h: History, t: Task, a: Act, m': Machine, h': History, initial: Db)
    requires Agree(m, h, initial) && MachineStep(m, t, a, m') && HistoryStep(m.own, h, t, a, h')
    requires AllOk(m'.own) && !a.Fork? && Target(m.own, t, a) in m'.own.open
    ensures SessionAgrees(m', h', Target(m.own, t, a))
  {
    var x := Target(m.own, t, a);
    TargetIsOwn(m.own, t, a);
    assert TaskOk(m.own, t, m.own.tasks[t]);
    match a
    case Open(id) =>
      if Owns(m.own.tasks[t].context, t) {
        assert SessionAgrees(m, h, x);
        OpenMatches(m.conns[x], h.open[x]);
      } else {
        OneBlock([]);
      }
    case Write(key, value) =>
      assert SessionAgrees(m, h, x);
      WriteMatches(m.conns[x], h.open[x], key, value);
    case Close(raised) =>
      assert SessionAgrees(m, h, x);
      if !Top(m.own, t).Opened? {
        CloseMatches(m.conns[x], h.open[x], raised);
      }
  }

  lemma {:induction false} CommitAgrees(
    m: Machine, h: History, t: Task, a: Act, m': Machine, h': History, initial: Db)
    requires Agree(m, h, initial) && MachineStep(m, t, a, m') && HistoryStep(m.own, h, t, a, h')
    ensures m'.committed == Sessions.Replay(initial, SurvivingAll(h'.commits))
  {
    if a.Close? && Top(m.own, t).Opened? && !a.raised {
      var x := Target(m.own, t, a);
      TargetIsOwn(m.own, t, a);
      assert SessionAgrees(m, h, x);
      var block := h.open[x][0];
      assert h.open[x] == [block];
      OneBlock(block);
      NextBlock(h.commits, block);
      Sessions.ReplayConcat(initial, SurvivingAll(h.commits), Surviving(block));
    }
  }

  lemma {:induction false} StepAgrees(
    m: Machine, h: History, t: Task, a: Act, m': Machine, h': History, initial: Db)
    requires Agree(m, h, initial) && MachineStep(m, t, a, m') && HistoryStep(m.own, h, t, a, h')
    ensures Agree(m', h', initial)
  {
    if !a.Write? {
      StepKeepsOk(m.own, t, OwnMove(a), m'.own);
    }
    CommitAgrees(m, h, t, a, m', h', initial);
    forall y | y in m'.own.open ensures SessionAgrees(m', h', y) {
      if !a.Fork? && y == Target(m.own, t, a) {
        TargetAgrees(m, h, t, a, m', h', initial);
      } else {
        OthersAgree(m, h, t, a, m', h', initial, y);
      }
    }
  }

  // ----- whole runs -----

  ghost predicate Start(m: Machine, h: History, initial: Db) {
    && (exists t :: m.own == State(map[t := TaskState(Unset, [])], map[], {}))
    && m.conns == map[] && m.committed == initial && h == History(map[], [])
  }

  ghost predicate Run(ms: seq<Machine>, hs: seq<History>, acts: seq<(Task, Act)>, initial: Db) {
    && |ms| == |hs| == |acts| + 1
    && if acts == [] then Start(ms[0], hs[0], initial)
       else
         var n := |acts| - 1;
         && Run(ms[..n + 1], hs[..n + 1], acts[..n], initial)
         && MachineStep(ms[n], acts[n].0, acts[n].1, ms[n + 1])
         && HistoryStep(ms[n].own, hs[n], acts[n].0, acts[n].1, hs[n + 1])
  }

  lemma {:induction false} AlwaysAgree(ms: seq<Machine>, hs: seq<History>, acts: seq<(Task, Act)>, initial: Db)
    requires Run(ms, hs, acts, initial)
    ensures Agree(ms[|acts|], hs[|acts|], initial)
  {
    if acts == [] {
    } else {
      var n := |acts| - 1;
      AlwaysAgree(ms[..n + 1], hs[..n + 1], acts[..n], initial);
      StepAgrees(ms[n], hs[n], acts[n].0, acts[n].1, ms[n + 1], hs[n + 1], initial);
    }
  }

  /** In every interleaving of any number of tasks, the committed tables hold the surviving writes of
      the outermost blocks that ended normally, applied block by block in commit order. */
  lemma {:induction false} CommittedAreSurvivors(
    ms: seq<Machine>, hs: seq<History>, acts: seq<(Task, Act)>, initial: Db)
    requires Run(ms, hs, acts, initial)
    ensures ms[|acts|].committed == Sessions.Replay(initial, SurvivingAll(hs[|acts|].commits))
  {
    AlwaysAgree(ms, hs, acts, initial);
  }

  /** The history never gets in the way: whatever a task may do next, the machine can do, and the
      history records it. */
  lemma {:induction false} NothingIsExcluded(m: Machine, h: History, initial: Db, t: Task, a: Act, own': State)
    returns (m': Machine, h': History)
    requires Agree(m, h, initial) && OwnStep(m.own, t, a, own')
    ensures MachineStep(m, t, a, m') && HistoryStep(m.own, h, t, a, h') && m'.own == own'
  {
    if a.Fork? {
      return m.(own := own'), h;
    }
    var x := Target(m.own, t, a);
    TargetIsOwn(m.own, t, a);
    assert (a.Open? ==> Owns(m.own.tasks[t].context, t)) ==> SessionAgrees(m, h, x);
    match a {
      case Open(id) =>
        if Owns(m.own.tasks[t].context, t) {
          var c := m.conns[x];
          m' := Machine(own', m.conns[x := Conn(c.log, c.marks + [|c.log|])], m.committed);
          h' := h.(open := h.open[x := h.open[x] + [[]]]);
        } else {
          m' := Machine(own', m.conns[x := Conn([], [])], m.committed);
          h' := h.(open := h.open[x := [[]]]);
        }
      case Write(key, value) =>
        var c := m.conns[x];
        m' := Machine(own', m.conns[x := Conn(c.log + [(key, value)], c.marks)], m.committed);
        h' := h.(open := h.open[x := Added(h.open[x], Wrote(key, value))]);
      case Close(raised) =>
        var c, stack := m.conns[x], h.open[x];
        var n := |stack| - 1;
        if Top(m.own, t).Opened? {
          m' := Machine(own', m.conns - {x}, if raised then m.committed else Sessions.Replay(m.committed, c.log));
          h' := History(h.open - {x}, if raised then h.commits else h.commits + [stack[n]]);
        } else {
          m' := Machine(own', m.conns[x := Popped(c, raised)], m.committed);
          h' := h.(open := h.open[x := Added(stack[..n], Ended(stack[n], !raised))]);
        }
    }
  }
}
