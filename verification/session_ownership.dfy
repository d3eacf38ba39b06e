/** Many tasks and their inherited context variables: who uses which session. */
module SessionOwnership {

  type Task = nat
  type SessionId = nat

  datatype Context = Unset | Set(task: Task, session: SessionId)

  /** One open `get_session` block: the session it yields, and, if it opened that session itself,
      the context to restore at its end. */
  datatype Frame = Nested(session: SessionId) | Opened(session: SessionId, token: Context)

  datatype TaskState = TaskState(context: Context, frames: seq<Frame>)

  /** `opener` remembers every session ever made; a task's entry stays when the task has ended, so
      task ids are not used twice. */
  datatype State = State(tasks: map<Task, TaskState>, opener: map<SessionId, Task>, open: set<SessionId>)

  datatype Move =
    | Spawn(child: Task)          // create_task copies the parent's context
    | Enter(session: SessionId)   // the id a new session would get
    | Exit                        // normally or by an exception

  predicate Owns(c: Context, t: Task) { c.Set? && c.task == t }

  ghost predicate Step(s: State, t: Task, m: Move, s': State) {
    && t in s.tasks
    && var ts := s.tasks[t];
    match m
    case Spawn(child) =>
      && child !in s.tasks
      && s' == s.(tasks := s.tasks[child := TaskState(ts.context, [])])
    case Enter(id) =>
      if Owns(ts.context, t) then
        s' == s.(tasks := s.tasks[t := ts.(frames := ts.frames + [Nested(ts.context.session)])])
      else
        && id !in s.opener
        && s' == State(
             s.tasks[t := TaskState(Set(t, id), ts.frames + [Opened(id, ts.context)])],
             s.opener[id := t], s.open + {id})
    case Exit =>
      && ts.frames != []
      && var rest, last := ts.frames[..|ts.frames| - 1], ts.frames[|ts.frames| - 1];
         if last.Opened? then
           s' == State(s.tasks[t := TaskState(last.token, rest)], s.opener, s.open - {last.session})
         else
           s' == s.(tasks := s.tasks[t := ts.(frames := rest)])
  }

  ghost predicate Reaches(states: seq<State>, moves: seq<(Task, Move)>) {
    && |states| == |moves| + 1
    && if moves == [] then
         exists t :: states[0] == State(map[t := TaskState(Unset, [])], map[], {})
       else
         var n := |moves| - 1;
         && Reaches(states[..n + 1], moves[..n])
         && Step(states[n], moves[n].0, moves[n].1, states[n + 1])
  }

  ghost predicate Known(s: State, c: Context) { c.Set? ==> c.task in s.tasks }

  /** Inside blocks the context names the one open session of the task, opened by its outermost
      block; outside it names nothing of the task's own. */
  ghost predicate TaskOk(s: State, t: Task, ts: TaskState) {
    && Known(s, ts.context)
    && if ts.frames == [] then !Owns(ts.context, t)
       else
         var f := ts.frames[0];
         && f.Opened? && Known(s, f.token) && !Owns(f.token, t)
         && ts.context == Set(t, f.session)
         && f.session in s.opener && s.opener[f.session] == t && f.session in s.open
         && forall i :: 0 < i < |ts.frames| ==> ts.frames[i] == Nested(f.session)
  }

  ghost predicate AllOk(s: State) {
    && s.open <= s.opener.Keys
    && (forall t :: t in s.tasks ==> TaskOk(s, t, s.tasks[t]))
    && forall x :: x in s.open ==> s.opener[x] in s.tasks && s.tasks[s.opener[x]].frames != []
                                   && s.tasks[s.opener[x]].frames[0].session == x
  }

  lemma StepKeepsOk(s: State, t: Task, m: Move, s': State)
    requires AllOk(s) && Step(s, t, m, s')
    ensures AllOk(s')
  {
    assert TaskOk(s, t, s.tasks[t]);
    forall u | u in s'.tasks ensures TaskOk(s', u, s'.tasks[u]) {
      assert u in s.tasks ==> TaskOk(s, u, s.tasks[u]);
    }
  }

  lemma {:induction false} ReachableOk(states: seq<State>, moves: seq<(Task, Move)>)
    requires Reaches(states, moves)
    ensures AllOk(states[|moves|])
  {
    if moves == [] {
    } else {
      var n := |moves| - 1;
      ReachableOk(states[..n + 1], moves[..n]);
      StepKeepsOk(states[n], moves[n].0, moves[n].1, states[n + 1]);
    }
  }

  /** In every interleaving: a block yields a session that its own task opened and has not closed,
      all blocks of one task share one session, and no two tasks share any. */
  lemma {:induction false} NoSessionIsShared(
    states: seq<State>, moves: seq<(Task, Move)>, t: Task, i: nat, u: Task, j: nat)
    requires Reaches(states, moves)
    requires var s := states[|moves|];
             && t in s.tasks && i < |s.tasks[t].frames| && u in s.tasks && j < |s.tasks[u].frames|
    ensures var s := states[|moves|];
            var x, y := s.tasks[t].frames[i].session, s.tasks[u].frames[j].session;
            && x in s.open && x in s.opener && s.opener[x] == t
            && (x == y <==> t == u)
  {
    ReachableOk(states, moves);
    var s := states[|moves|];
    assert TaskOk(s, t, s.tasks[t]) && TaskOk(s, u, s.tasks[u]);
  }

  /** Sessions are not leaked: exactly the tasks that are inside a block have one open. */
  lemma OpenSessionsAreInUse(states: seq<State>, moves: seq<(Task, Move)>, x: SessionId)
    requires Reaches(states, moves)
    ensures var s := states[|moves|];
            x in s.open <==>
            exists t :: t in s.tasks && s.tasks[t].frames != [] && s.tasks[t].frames[0].session == x
  {
    ReachableOk(states, moves);
    var s := states[|moves|];
    if t :| t in s.tasks && s.tasks[t].frames != [] && s.tasks[t].frames[0].session == x {
      assert TaskOk(s, t, s.tasks[t]);
    }
  }
}
