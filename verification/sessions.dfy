/** get_session(): nested blocks become savepoints of the session their own task opened. */
module Sessions {

  type Db = map<string, int>

  /** The body of a `get_session` block, or a task's whole program. */
  datatype Stmt =
    | Write(key: string, value: int)
    | Raise
    | Try(body: seq<Stmt>)    // try: body; except Exception: pass
    | Block(body: seq<Stmt>)  // async with get_session() as s: body

  // ----- the simple meaning -----

  /** The tables after the statements, and whether an exception leaves them. A block's writes
      survive iff it ends normally. */
  function Meaning(body: seq<Stmt>, db: Db): (Db, bool)
  {
    if body == [] then (db, false)
    else
      var (db1, raised) := MeaningOf(body[0], db);
      if raised then (db1, true) else Meaning(body[1..], db1)
  }

  function MeaningOf(stmt: Stmt, db: Db): (Db, bool)
  {
    match stmt
    case Write(k, v) => (db[k := v], false)
    case Raise => (db, true)
    case Try(body) => (Meaning(body, db).0, false)
    case Block(body) =>
      var (inner, raised) := Meaning(body, db);
      (if raised then db else inner, raised)
  }

  /** A block that an exception leaves changes nothing and lets the exception through; one that ends
      normally has done all that is in it; and catching an exception undoes nothing. */
  lemma BlocksMean(inner: seq<Stmt>, db: Db)
    ensures Meaning(inner, db).1 ==> Meaning([Block(inner)], db) == (db, true)
    ensures !Meaning(inner, db).1 ==> Meaning([Block(inner)], db) == Meaning(inner, db)
    ensures Meaning([Try(inner)], db) == (Meaning(inner, db).0, false)
    ensures forall k, v :: Meaning([Write(k, v)] + inner, db) == Meaning(inner, db[k := v])
    ensures Meaning([Raise] + inner, db) == (db, true)
  {
    assert [Block(inner)][1..] == [] && [Try(inner)][1..] == [];
    assert Meaning([], db) == (db, false);
    assert Meaning([Block(inner)], db) == if Meaning(inner, db).1 then (db, true) else Meaning(inner, db);
    forall k, v ensures Meaning([Write(k, v)] + inner, db) == Meaning(inner, db[k := v]) {
      assert ([Write(k, v)] + inner)[1..] == inner;
    }
  }

  predicate Raises(body: seq<Stmt>)
  {
    body != [] && (RaisesOf(body[0]) || Raises(body[1..]))
  }

  predicate RaisesOf(stmt: Stmt)
  {
    match stmt
    case Write(_, _) => false
    case Raise => true
    case Try(_) => false
    case Block(inner) => Raises(inner)
  }

  /** The writes that are reached and lie only in blocks that end normally, in program order. */
  function Survivors(body: seq<Stmt>): seq<(string, int)>
  {
    if body == [] then []
    else SurvivorsOf(body[0]) + (if RaisesOf(body[0]) then [] else Survivors(body[1..]))
  }

  function SurvivorsOf(stmt: Stmt): seq<(string, int)>
  {
    match stmt
    case Write(k, v) => [(k, v)]
    case Raise => []
    case Try(inner) => Survivors(inner)
    case Block(inner) => if Raises(inner) then [] else Survivors(inner)
  }

  /** The log applied to the committed tables. */
  function Replay(db: Db, log: seq<(string, int)>): Db {
    if log == [] then db
    else Replay(db, log[..|log| - 1])[log[|log| - 1].0 := log[|log| - 1].1]
  }

  lemma {:induction false} ReplayConcat(db: Db, a: seq<(string, int)>, b: seq<(string, int)>)
    ensures Replay(db, a + b) == Replay(Replay(db, a), b)
  {
    if b == [] {
      assert a + b == a;
    } else {
      var n := |b| - 1;
      assert (a + b)[..|a + b| - 1] == a + b[..n];
      ReplayConcat(db, a, b[..n]);
    }
  }

  /** A write survives iff its block and every block around it end normally: the meaning is the
      surviving writes, applied in order. */
  lemma {:induction false} MeaningIsSurvivors(body: seq<Stmt>, db: Db)
    ensures Meaning(body, db) == (Replay(db, Survivors(body)), Raises(body))
    decreases body, 0
  {
    if body == [] {
    } else {
      MeaningOfIsSurvivors(body[0], db);
      if RaisesOf(body[0]) {
        assert SurvivorsOf(body[0]) + [] == SurvivorsOf(body[0]);
      } else {
        MeaningIsSurvivors(body[1..], MeaningOf(body[0], db).0);
        ReplayConcat(db, SurvivorsOf(body[0]), Survivors(body[1..]));
      }
    }
  }

  lemma {:induction false} MeaningOfIsSurvivors(stmt: Stmt, db: Db)
    ensures MeaningOf(stmt, db) == (Replay(db, SurvivorsOf(stmt)), RaisesOf(stmt))
    decreases stmt, 1
  {
    match stmt
    case Write(k, v) =>
      var w := [(k, v)];
      assert w[..0] == [];
    case Raise =>
    case Try(inner) => MeaningIsSurvivors(inner, db);
    case Block(inner) => MeaningIsSurvivors(inner, db);
  }

  /** Outside every block there is no session to write through. */
  predicate WritesInBlocks(body: seq<Stmt>)
  {
    body != [] ==>
      && (match body[0]
          case Write(_, _) => false
          case Raise => true
          case Try(inner) => WritesInBlocks(inner)
          case Block(_) => true)
      && WritesInBlocks(body[1..])
  }

  // ----- the machine: a write log with savepoints -----

  /** One database connection: uncommitted writes in order, and the log length at each savepoint. */
  class Session {
    var log: seq<(string, int)>
    var savepoints: seq<nat>

    ghost predicate Valid()
      reads this
    {
      && (forall i :: 0 <= i < |savepoints| ==> savepoints[i] <= |log|)
      && forall i, j :: 0 <= i < j < |savepoints| ==> savepoints[i] <= savepoints[j]
    }

    constructor ()
      ensures Valid() && log == [] && savepoints == []
    {
      log, savepoints := [], [];
    }

    method Execute(key: string, value: int)
      requires Valid()
      modifies this`log
      ensures Valid() && log == old(log) + [(key, value)]
    {
      log := log + [(key, value)];
    }

    method BeginNested()
      requires Valid()
      modifies this`savepoints
      ensures Valid() && savepoints == old(savepoints) + [|log|]
    {
      savepoints := savepoints + [|log|];
    }

    method Release()
      requires Valid() && savepoints != []
      modifies this`savepoints
      ensures Valid() && savepoints == old(savepoints)[..|old(savepoints)| - 1]
    {
      savepoints := savepoints[..|savepoints| - 1];
    }

    method RollbackToSavepoint()
      requires Valid() && savepoints != []
      modifies this
      ensures Valid() && savepoints == old(savepoints)[..|old(savepoints)| - 1]
      ensures log == old(log)[..old(savepoints)[|old(savepoints)| - 1]]
    {
      log := log[..savepoints[|savepoints| - 1]];
      savepoints := savepoints[..|savepoints| - 1];
    }
  }

  /** The value of the context variable: who opened which session. */
  datatype Outer = NoOuter | Outer(task: nat, session: Session)

  /** One task with its copy of the context variable, and the committed tables. */
  class TaskRun {
    const task: nat
    var outer: Outer
    var committed: Db

    constructor (task: nat, outer: Outer, committed: Db)
      requires outer.Outer? ==> outer.task != task
      ensures Valid() && !Inside() && this.task == task && this.outer == outer && this.committed == committed
    {
      this.task, this.outer, this.committed := task, outer, committed;
    }

    predicate Inside()
      reads this
    {
      outer.Outer? && outer.task == task
    }

    ghost predicate Valid()
      reads this, if outer.Outer? then {outer.session} else {}
    {
      Inside() ==> outer.session.Valid()
    }

    /** What the task sees: the committed tables, and inside a block its own uncommitted writes. */
    function Seen(): Db
      reads this, if outer.Outer? then {outer.session} else {}
    {
      if Inside() then Replay(committed, outer.session.log) else committed
    }

    method Run(body: seq<Stmt>) returns (raised: bool)
      requires Valid() && (Inside() || WritesInBlocks(body))
      modifies this, if Inside() then {outer.session} else {}
      ensures Valid() && outer == old(outer)
      ensures Inside() ==> Grown(old(outer.session.log), outer.session.log) && committed == old(committed)
      ensures Inside() ==> outer.session.savepoints == old(outer.session.savepoints)
      ensures (Seen(), raised) == Meaning(body, old(Seen()))
      decreases body, 0
    {
      raised := false;
      if body == [] {
        return;
      }
      match body[0] {
        case Write(k, v) =>
          outer.session.Execute(k, v);
        case Raise =>
          return true;
        case Try(inner) =>
          var _ := Run(inner);
        case Block(inner) =>
          raised := RunBlock(inner);
      }
      if !raised {
        raised := Run(body[1..]);
      }
    }

    static predicate Grown(before: seq<(string, int)>, after: seq<(string, int)>) { before <= after }

    method RunBlock(inner: seq<Stmt>) returns (raised: bool)
      requires Valid()
      modifies this, if Inside() then {outer.session} else {}
      ensures Valid() && outer == old(outer)
      ensures Inside() ==> Grown(old(outer.session.log), outer.session.log) && committed == old(committed)
      ensures Inside() ==> outer.session.savepoints == old(outer.session.savepoints)
      ensures (Seen(), raised) == MeaningOf(Block(inner), old(Seen()))
      decreases inner, 1
    {
      if outer.Outer? && outer.task == task {
        var session := outer.session;
        session.BeginNested();
        raised := Run(inner);
        if raised {
          session.RollbackToSavepoint();
          assert session.log == old(outer.session.log);
        } else {
          session.Release();
        }
      } else {
        var session := new Session();
        var token := outer;
        outer := Outer(task, session);
        raised := Run(inner);
        if !raised {
          committed := Replay(committed, session.log);
        }
        outer := token;
      }
    }
  }

  /** A task's program, run from outside any block: the committed tables become its meaning. */
  method RunTask(task: nat, inherited: Outer, program: seq<Stmt>, committed: Db)
    returns (after: Db, raised: bool)
    requires inherited.Outer? ==> inherited.task != task
    requires WritesInBlocks(program)
    ensures (after, raised) == Meaning(program, committed)
    ensures after == Replay(committed, Survivors(program))
  {
    var t := new TaskRun(task, inherited, committed);
    raised := t.Run(program);
    after := t.committed;
    MeaningIsSurvivors(program, committed);
  }
}
