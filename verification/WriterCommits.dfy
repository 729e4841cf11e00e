/** particles/db.py: what the transactions written under the lock leave in the store. */
module WriterCommits {
  import opened Options
  import opened Transactions
  import opened WriterLock

  // ---- the statements of a transaction ---------------------------------------------------

  /** Rows, and the rows each open savepoint would restore. */
  datatype Sheet = Sheet(rows: Db, marks: seq<Db>)

  /** What one statement of a transaction makes of its rows. */
  function Effect(x: Sheet, stmt: Stmt): Sheet {
    match stmt
    case DmlStmt(f) => Sheet(f(x.rows), x.marks)
    case SavepointStmt => Sheet(x.rows, x.marks + [x.rows])
    case ReleaseStmt(n) => if n < |x.marks| then Sheet(x.rows, x.marks[..n]) else x
    case RollbackToStmt(n) => if n < |x.marks| then Sheet(x.marks[n], x.marks[..n + 1]) else x
  }

  function Play(x: Sheet, stmts: seq<Stmt>): Sheet {
    if stmts == [] then x else Effect(Play(x, stmts[..|stmts| - 1]), stmts[|stmts| - 1])
  }

  /** The rows a transaction of these statements leaves, begun on `rows`. */
  function Written(rows: Db, stmts: seq<Stmt>): Db { Play(Sheet(rows, []), stmts).rows }

  lemma PlayOne(x: Sheet, stmts: seq<Stmt>, stmt: Stmt)
    ensures Play(x, stmts + [stmt]) == Effect(Play(x, stmts), stmt)
  {
    assert (stmts + [stmt])[..|stmts|] == stmts;
  }

  lemma {:induction false} PlayConcat(x: Sheet, a: seq<Stmt>, b: seq<Stmt>)
    ensures Play(x, a + b) == Play(Play(x, a), b)
    decreases |b|
  {
    if b == [] {
      assert a + b == a;
    } else {
      var n := |b| - 1;
      PlayConcat(x, a, b[..n]);
      PlayOne(x, a + b[..n], b[n]);
      assert a + b == (a + b[..n]) + [b[n]];
    }
  }

  // ---- what the moves of a run say ---------------------------------------------------------

  /** The statements `t` made since its last BEGIN, among the first `i` moves. */
  function Made(moves: seq<Move>, i: nat, t: Task): seq<Stmt>
    requires i <= |moves|
  {
    if i == 0 then []
    else if moves[i - 1].task != t then Made(moves, i - 1, t)
    else
      match moves[i - 1].action
      case BeginTxn => []
      case Exec(stmt) => Made(moves, i - 1, t) + [stmt]
      case _ => Made(moves, i - 1, t)
  }

  /** The transactions committed by the first `i` moves, each by its task and its statements. */
  function Commits(moves: seq<Move>, i: nat): seq<(Task, seq<Stmt>)>
    requires i <= |moves|
  {
    if i == 0 then []
    else
      var m := moves[i - 1];
      Commits(moves, i - 1) + if m.action.CommitTxn? then [(m.task, Made(moves, i - 1, m.task))] else []
  }

  /** Those transactions one after the other, each on what the one before it left. */
  function Replay(rows: Db, commits: seq<(Task, seq<Stmt>)>): Db {
    if commits == [] then rows
    else Written(Replay(rows, commits[..|commits| - 1]), commits[|commits| - 1].1)
  }

  function ReplayLog(rows: Db, commits: seq<(Task, seq<Stmt>)>): seq<Commitment> {
    if commits == [] then []
    else
      var n := |commits| - 1;
      var before := Replay(rows, commits[..n]);
      ReplayLog(rows, commits[..n]) + [Commitment(commits[n].0, before, Written(before, commits[n].1))]
  }

  // ---- the machine does what the moves say ----------------------------------------------------

  /** Every open transaction holds what its statements make of the rows it began on. */
  ghost predicate InStep(s: State, moves: seq<Move>, i: nat)
    requires i <= |moves|
  {
    forall t: Task :: t in s.conn ==>
      Sheet(s.conn[t].working, s.conn[t].marks) == Play(Sheet(s.conn[t].durable, []), Made(moves, i, t))
  }

  /** One statement on an open connection. */
  lemma StatementHasItsEffect(c: Conn, stmt: Stmt)
    requires Begun(c)
    ensures var c' := WriterLock.Apply(c, stmt);
      c'.durable == c.durable && Sheet(c'.working, c'.marks) == Effect(Sheet(c.working, c.marks), stmt)
  {}

  lemma StepStaysInStep(states: seq<State>, moves: seq<Move>, procOf: Task -> Proc, initial: Db, i: nat)
    requires Reached(states, moves, procOf, initial) && i < |moves| && InStep(states[i], moves, i)
    ensures InStep(states[i + 1], moves, i + 1)
  {
    ReachedKeepsInv(states, moves, procOf, initial, i);
    var s, s', m := states[i], states[i + 1], moves[i];
    assert Steps(s, s', m, procOf);
    forall t: Task | t in s'.conn
      ensures Sheet(s'.conn[t].working, s'.conn[t].marks) == Play(Sheet(s'.conn[t].durable, []), Made(moves, i + 1, t))
    {
      if m.task == t && m.action.Exec? {
        StatementHasItsEffect(s.conn[t], m.action.stmt);
        PlayOne(Sheet(s.conn[t].durable, []), Made(moves, i, t), m.action.stmt);
      }
    }
  }

  lemma {:induction false} RunStaysInStep(states: seq<State>, moves: seq<Move>, procOf: Task -> Proc, initial: Db, i: nat)
    requires Reached(states, moves, procOf, initial) && i < |states|
    ensures InStep(states[i], moves, i)
  {
    if i > 0 {
      RunStaysInStep(states, moves, procOf, initial, i - 1);
      StepStaysInStep(states, moves, procOf, initial, i - 1);
    }
  }

  /** One move of a run: a commit leaves exactly what its task's statements make of the store, and
      logs that; no other move, a rollback included, changes the store or the log. */
  lemma MoveLeaves(states: seq<State>, moves: seq<Move>, procOf: Task -> Proc, initial: Db, i: nat)
    requires Reached(states, moves, procOf, initial) && i < |moves|
    ensures var s, s', m := states[i], states[i + 1], moves[i];
      if m.action.CommitTxn? then
        var after := Written(s.store, Made(moves, i, m.task));
        s'.store == after && s'.log == s.log + [Commitment(m.task, s.store, after)]
      else s'.store == s.store && s'.log == s.log
  {
    ReachedKeepsInv(states, moves, procOf, initial, i);
    RunStaysInStep(states, moves, procOf, initial, i);
    assert Steps(states[i], states[i + 1], moves[i], procOf);
  }

  /** In every interleaving, at every moment, the store is the committed transactions' statements
      replayed one transaction after the other from the initial rows, and the log is that replay: no
      committed write is lost, and no rolled-back or open one is there. */
  lemma {:induction false} StoreIsSerialReplay(states: seq<State>, moves: seq<Move>, procOf: Task -> Proc, initial: Db, i: nat)
    requires Reached(states, moves, procOf, initial) && i < |states|
    ensures states[i].store == Replay(initial, Commits(moves, i))
    ensures states[i].log == ReplayLog(initial, Commits(moves, i))
  {
    if i > 0 {
      StoreIsSerialReplay(states, moves, procOf, initial, i - 1);
      MoveLeaves(states, moves, procOf, initial, i - 1);
      var before, all := Commits(moves, i - 1), Commits(moves, i);
      if moves[i - 1].action.CommitTxn? {
        assert all[..|all| - 1] == before;
      } else {
        assert all == before;
      }
    }
  }

  // ---- blocks ------------------------------------------------------------------------------------

  /** The statements a block makes from `x`, and whether it raises. */
  function Trace(b: Body, x: Sheet): (seq<Stmt>, bool) {
    match b
    case Write(f) => ([DmlStmt(f)], false)
    case Raise => ([], true)
    case Seq(first, second) =>
      var (a, raised) := Trace(first, x);
      if raised then (a, true) else var (rest, r) := Trace(second, Play(x, a)); (a + rest, r)
    case Choose(test, yes, no) => if test(x.rows) then Trace(yes, x) else Trace(no, x)
    case Nested(body) =>
      var (a, raised) := Trace(body, Effect(x, SavepointStmt));
      ([SavepointStmt] + a + [if raised then RollbackToStmt(|x.marks|) else ReleaseStmt(|x.marks|)], raised)
    case Guard(body) => (Trace(body, x).0, false)
    case Unit(body) => Trace(body, x)
  }

  /** A block's statements leave what the block means, with the savepoints around it in place. */
  lemma {:induction false} TraceMeans(b: Body, x: Sheet)
    ensures var (stmts, raised) := Trace(b, x); var y := Play(x, stmts);
      && (y.rows, raised) == Meaning(b, x.rows, false)
      && |x.marks| <= |y.marks| && y.marks[..|x.marks|] == x.marks
    decreases b, 0
  {
    match b
    case Write(f) =>
      PlayOne(x, [], DmlStmt(f));
      assert [] + [DmlStmt(f)] == [DmlStmt(f)];
    case Raise =>
    case Seq(first, second) =>
      TraceMeans(first, x);
      var (a, raised) := Trace(first, x);
      if !raised {
        var y := Play(x, a);
        TraceMeans(second, y);
        PlayConcat(x, a, Trace(second, y).0);
        var marks := Play(y, Trace(second, y).0).marks;
        assert marks[..|y.marks|][..|x.marks|] == marks[..|x.marks|];
      }
    case Choose(test, yes, no) =>
      TraceMeans(yes, x);
      TraceMeans(no, x);
    case Nested(body) => NestedMeans(body, x);
    case Guard(body) => TraceMeans(body, x);
    case Unit(body) => TraceMeans(body, x);
  }

  lemma {:induction false} NestedMeans(body: Body, x: Sheet)
    ensures var (stmts, raised) := Trace(Nested(body), x); var y := Play(x, stmts);
      && (y.rows, raised) == Meaning(Nested(body), x.rows, false)
      && |x.marks| <= |y.marks| && y.marks[..|x.marks|] == x.marks
    decreases body, 1
  {
    var inner := Effect(x, SavepointStmt);
    TraceMeans(body, inner);
    var (a, raised) := Trace(body, inner);
    var last := if raised then RollbackToStmt(|x.marks|) else ReleaseStmt(|x.marks|);
    WrappedPlays(x, a, last);
    Unwinds(x, Play(inner, a), raised);
  }

  lemma WrappedPlays(x: Sheet, a: seq<Stmt>, last: Stmt)
    ensures Play(x, [SavepointStmt] + a + [last]) == Effect(Play(Effect(x, SavepointStmt), a), last)
  {
    PlayOne(x, [], SavepointStmt);
    assert [] + [SavepointStmt] == [SavepointStmt];
    PlayConcat(x, [SavepointStmt], a);
    PlayOne(x, [SavepointStmt] + a, last);
  }

  /** Leaving a savepoint that is still on the stack under whatever the block left there. */
  lemma Unwinds(x: Sheet, z: Sheet, raised: bool)
    requires |x.marks| < |z.marks| && z.marks[..|x.marks| + 1] == x.marks + [x.rows]
    ensures var y := Effect(z, if raised then RollbackToStmt(|x.marks|) else ReleaseStmt(|x.marks|));
      && y.rows == (if raised then x.rows else z.rows)
      && |x.marks| <= |y.marks| && y.marks[..|x.marks|] == x.marks
  {
    var n := |x.marks|;
    assert z.marks[..n + 1][..n] == z.marks[..n] == x.marks;
    assert z.marks[n] == z.marks[..n + 1][n] == x.rows;
  }

  /** So a task that ran a whole block between its BEGIN and its COMMIT leaves in the store what the
      block means there. */
  lemma CommittedBlockMeans(states: seq<State>, moves: seq<Move>, procOf: Task -> Proc, initial: Db, i: nat, b: Body)
    requires Reached(states, moves, procOf, initial) && i < |moves| && moves[i].action.CommitTxn?
    requires Made(moves, i, moves[i].task) == Trace(b, Sheet(states[i].store, [])).0
    ensures states[i + 1].store == Meaning(b, states[i].store, false).0
  {
    MoveLeaves(states, moves, procOf, initial, i);
    TraceMeans(b, Sheet(states[i].store, []));
  }
}
