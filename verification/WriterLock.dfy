/** particles/db.py: the per-store writer lock (an asyncio lock in each process, over one
    cross-process re-entrant file lock) and the transactions written under it, as a state
    machine over the steps of any number of tasks in any number of processes. */
module WriterLock {
  import opened Options
  import opened Transactions

  type Task = nat
  type Proc = nat

  /** Where a task is in `write_transaction`. */
  datatype Pc =
    | Idle
    | WaitAsync // queued on its process's asyncio lock
    | HasAsync  // holds it, about to call `flock.acquire`
    | Acquiring // inside `flock.acquire`: its count is raised, the OS lock not yet taken
    | Inside    // in the block
    | Unlocking // the block is over, about to call `flock.release`
    | Leaving   // about to release the asyncio lock

  /** One committed write transaction. */
  datatype Commitment = Commitment(task: Task, before: Db, after: Db)

  /** `async` maps a process to the task holding its asyncio lock, `count` is each process's
      file-lock count (none is zero), `os` the process holding the OS lock, `conn` the open
      write transactions, and `log` the commits so far. */
  datatype State = State(
    pc: map<Task, Pc>,
    async: map<Proc, Task>,
    count: map<Proc, nat>,
    os: Option<Proc>,
    store: Db,
    conn: map<Task, Conn>,
    log: seq<Commitment>)

  datatype Stmt = DmlStmt(f: Db -> Db) | SavepointStmt | ReleaseStmt(depth: nat) | RollbackToStmt(depth: nat)

  datatype Action =
    | Request | TakeAsync | StartAcquire | TakeFile | TimeOut
    | BeginTxn | Exec(stmt: Stmt) | CommitTxn | RollbackTxn
    | ReleaseFile | ReleaseAsync

  function PcOf(s: State, t: Task): Pc { if t in s.pc then s.pc[t] else Idle }

  function CountOf(s: State, p: Proc): nat { if p in s.count then s.count[p] else 0 }

  function Apply(c: Conn, stmt: Stmt): Conn {
    match stmt
    case DmlStmt(f) => Dml(c, f)
    case SavepointStmt => Savepoint(c)
    case ReleaseStmt(n) => Release(c, n)
    case RollbackToStmt(n) => RollbackTo(c, n)
  }

  /** Whether `t` may take the step now. A rollback also ends a block that raised before BEGIN. */
  predicate Enabled(s: State, t: Task, p: Proc, a: Action) {
    match a
    case Request => PcOf(s, t) == Idle
    case TakeAsync => PcOf(s, t) == WaitAsync && p !in s.async
    case StartAcquire => PcOf(s, t) == HasAsync
    case TakeFile => PcOf(s, t) == Acquiring && (s.os == None || s.os == Some(p))
    case TimeOut => PcOf(s, t) == Acquiring
    case BeginTxn => PcOf(s, t) == Inside && t !in s.conn
    case Exec(_) => PcOf(s, t) == Inside && t in s.conn
    case CommitTxn => PcOf(s, t) == Inside && t in s.conn
    case RollbackTxn => PcOf(s, t) == Inside
    case ReleaseFile => PcOf(s, t) == Unlocking
    case ReleaseAsync => PcOf(s, t) == Leaving
  }

  /** `flock.release`, and the undoing of a timed-out `flock.acquire`: the count drops by one. */
  function Lowered(s: State, p: Proc): nat { if CountOf(s, p) == 0 then 0 else CountOf(s, p) - 1 }

  function Next(s: State, t: Task, p: Proc, a: Action): State
    requires Enabled(s, t, p, a)
  {
    match a
    case Request => s.(pc := s.pc[t := WaitAsync])
    case TakeAsync => s.(pc := s.pc[t := HasAsync], async := s.async[p := t])
    case StartAcquire => s.(pc := s.pc[t := Acquiring], count := s.count[p := CountOf(s, p) + 1])
    case TakeFile => s.(pc := s.pc[t := Inside], os := Some(p))
    case TimeOut => s.(pc := s.pc[t := Leaving], count := s.count[p := Lowered(s, p)])
    case BeginTxn => s.(conn := s.conn[t := Begin(Clean(s.store))])
    case Exec(stmt) => s.(conn := s.conn[t := Apply(s.conn[t], stmt)])
    case CommitTxn =>
      s.(pc := s.pc[t := Unlocking], conn := s.conn - {t}, store := s.conn[t].working,
         log := s.log + [Commitment(t, s.conn[t].durable, s.conn[t].working)])
    case RollbackTxn => s.(pc := s.pc[t := Unlocking], conn := s.conn - {t})
    case ReleaseFile =>
      s.(pc := s.pc[t := Leaving], count := s.count[p := Lowered(s, p)],
         os := if Lowered(s, p) == 0 then None else s.os)
    case ReleaseAsync => s.(pc := s.pc[t := Idle], async := s.async - {p})
  }

  // ---- the invariant ------------------------------------------------------------

  predicate HoldsAsync(pc: Pc) { pc != Idle && pc != WaitAsync }

  predicate Counted(pc: Pc) { pc == Acquiring || pc == Inside || pc == Unlocking }

  predicate HoldsFile(pc: Pc) { pc == Inside || pc == Unlocking }

  /** Process `p`'s file-lock count should be one. */
  ghost predicate CountedAt(s: State, p: Proc) { p in s.async && Counted(PcOf(s, s.async[p])) }

  /** Process `p` should hold the OS lock. */
  ghost predicate FileAt(s: State, p: Proc) { p in s.async && HoldsFile(PcOf(s, s.async[p])) }

  ghost predicate AsyncLocks(s: State, procOf: Task -> Proc) {
    && (forall t: Task :: HoldsAsync(PcOf(s, t)) ==> procOf(t) in s.async && s.async[procOf(t)] == t)
    && (forall p: Proc :: p in s.async ==> procOf(s.async[p]) == p && HoldsAsync(PcOf(s, s.async[p])))
  }

  ghost predicate FileLock(s: State) {
    && (forall p: Proc :: CountOf(s, p) == if CountedAt(s, p) then 1 else 0)
    && (forall p: Proc :: s.os == Some(p) <==> FileAt(s, p))
  }

  ghost predicate Locks(s: State, procOf: Task -> Proc) {
    AsyncLocks(s, procOf) && FileLock(s)
  }

  /** Each commit starts from the rows the one before it left. */
  ghost predicate Serial(log: seq<Commitment>, initial: Db, store: Db) {
    && (log == [] ==> store == initial)
    && (log != [] ==> log[0].before == initial && log[|log| - 1].after == store)
    && (forall i :: 0 < i < |log| ==> log[i].before == log[i - 1].after)
  }

  /** In the transaction that BEGIN opened. */
  predicate Begun(c: Conn) { c.inTxn && !c.implicit }

  /** An open write transaction is inside the lock, on the store's current rows. */
  ghost predicate Transacts(s: State) {
    forall t :: t in s.conn ==> PcOf(s, t) == Inside && Begun(s.conn[t]) && s.conn[t].durable == s.store
  }

  ghost predicate Inv(s: State, procOf: Task -> Proc, initial: Db) {
    Locks(s, procOf) && Transacts(s) && Serial(s.log, initial, s.store)
  }

  lemma OnlyOneInside(s: State, procOf: Task -> Proc, t: Task, u: Task)
    requires Locks(s, procOf) && HoldsFile(PcOf(s, t)) && HoldsFile(PcOf(s, u))
    ensures t == u
  {
    assert FileAt(s, procOf(t)) && FileAt(s, procOf(u));
  }

  /** Only the moving task's place changes, and only its process's locks. */
  ghost predicate Local(s: State, s': State, t: Task, p: Proc) {
    && (forall u: Task :: u != t ==> PcOf(s', u) == PcOf(s, u))
    && (forall q: Proc :: q != p ==> CountOf(s', q) == CountOf(s, q))
    && (forall q: Proc :: q != p ==> ((q in s'.async <==> q in s.async) && (q in s.async ==> s'.async[q] == s.async[q])))
  }

  lemma StepIsLocal(s: State, t: Task, p: Proc, a: Action)
    requires Enabled(s, t, p, a)
    ensures Local(s, Next(s, t, p, a), t, p)
  {
  }

  lemma StepKeepsAsync(s: State, t: Task, a: Action, procOf: Task -> Proc)
    requires AsyncLocks(s, procOf) && Enabled(s, t, procOf(t), a)
    ensures AsyncLocks(Next(s, t, procOf(t), a), procOf)
  {
    StepIsLocal(s, t, procOf(t), a);
  }

  lemma StepKeepsFileLock(s: State, t: Task, a: Action, procOf: Task -> Proc)
    requires Locks(s, procOf) && Enabled(s, t, procOf(t), a)
    ensures FileLock(Next(s, t, procOf(t), a))
  {
    var p, s' := procOf(t), Next(s, t, procOf(t), a);
    StepIsLocal(s, t, p, a);
    StepKeepsAsync(s, t, a, procOf);
    assert CountOf(s, p) == if CountedAt(s, p) then 1 else 0;
    assert s.os == Some(p) <==> FileAt(s, p);
    forall q: Proc
      ensures CountOf(s', q) == if CountedAt(s', q) then 1 else 0
      ensures s'.os == Some(q) <==> FileAt(s', q)
    {
      if q != p {
        assert s.os == Some(q) <==> FileAt(s, q);
        assert q in s.async ==> s.async[q] != t;
        assert CountedAt(s', q) == CountedAt(s, q) && FileAt(s', q) == FileAt(s, q);
      }
    }
  }

  lemma StepKeepsTransactions(s: State, t: Task, a: Action, procOf: Task -> Proc, initial: Db)
    requires Inv(s, procOf, initial) && Enabled(s, t, procOf(t), a)
    ensures Transacts(Next(s, t, procOf(t), a)) && Serial(Next(s, t, procOf(t), a).log, initial, Next(s, t, procOf(t), a).store)
  {
    var s' := Next(s, t, procOf(t), a);
    if a.CommitTxn? {
      forall u | u in s.conn ensures u == t { OnlyOneInside(s, procOf, t, u); }
    }
  }

  /** One step of one task. */
  datatype Move = Move(task: Task, action: Action)

  ghost predicate Steps(s: State, s': State, m: Move, procOf: Task -> Proc) {
    Enabled(s, m.task, procOf(m.task), m.action) && s' == Next(s, m.task, procOf(m.task), m.action)
  }

  lemma StepKeepsInv(s: State, s': State, m: Move, procOf: Task -> Proc, initial: Db)
    requires Inv(s, procOf, initial) && Steps(s, s', m, procOf)
    ensures Inv(s', procOf, initial)
  {
    StepKeepsAsync(s, m.task, m.action, procOf);
    StepKeepsFileLock(s, m.task, m.action, procOf);
    StepKeepsTransactions(s, m.task, m.action, procOf, initial);
  }

  /** The states some interleaving of the tasks' steps passes through. */
  ghost predicate Reached(states: seq<State>, moves: seq<Move>, procOf: Task -> Proc, initial: Db) {
    && |states| == |moves| + 1
    && states[0] == State(map[], map[], map[], None, initial, map[], [])
    && forall i :: 0 <= i < |moves| ==> Steps(states[i], states[i + 1], moves[i], procOf)
  }

  lemma {:induction false} ReachedKeepsInv(states: seq<State>, moves: seq<Move>, procOf: Task -> Proc, initial: Db, i: nat)
    requires Reached(states, moves, procOf, initial) && i < |states|
    ensures Inv(states[i], procOf, initial)
  {
    if i > 0 {
      ReachedKeepsInv(states, moves, procOf, initial, i - 1);
      assert Steps(states[i - 1], states[i - 1 + 1], moves[i - 1], procOf);
      StepKeepsInv(states[i - 1], states[i], moves[i - 1], procOf, initial);
    }
  }

  /** In every interleaving, at every moment: at most one task of all processes is inside the
      lock, no process's re-entrant count passes one, every open write transaction belongs to
      the task that is inside, and the committed transactions form a serial chain in which each
      starts from exactly what the one before it committed. */
  lemma WriterLockIsExclusive(states: seq<State>, moves: seq<Move>, procOf: Task -> Proc, initial: Db, i: nat)
    requires Reached(states, moves, procOf, initial) && i < |states|
    ensures forall t: Task, u: Task :: HoldsFile(PcOf(states[i], t)) && HoldsFile(PcOf(states[i], u)) ==> t == u
    ensures forall p: Proc :: CountOf(states[i], p) <= 1
    ensures forall t: Task :: t in states[i].conn ==>
              PcOf(states[i], t) == Inside && states[i].os == Some(procOf(t))
              && procOf(t) in states[i].async && states[i].async[procOf(t)] == t
    ensures Serial(states[i].log, initial, states[i].store)
  {
    ReachedKeepsInv(states, moves, procOf, initial, i);
    var s := states[i];
    forall t: Task, u: Task | HoldsFile(PcOf(s, t)) && HoldsFile(PcOf(s, u)) ensures t == u {
      OnlyOneInside(s, procOf, t, u);
    }
    forall t: Task | t in s.conn ensures s.os == Some(procOf(t)) {
      assert FileAt(s, procOf(t));
    }
  }

  /** Whatever path each task left by (a timeout, an exception, a commit), it released exactly
      what it had acquired: once every task is idle, every lock is free and no transaction is open. */
  lemma EveryExitReleases(states: seq<State>, moves: seq<Move>, procOf: Task -> Proc, initial: Db, i: nat)
    requires Reached(states, moves, procOf, initial) && i < |states|
    requires forall t: Task :: PcOf(states[i], t) == Idle
    ensures states[i].async == map[] && states[i].os == None && states[i].conn == map[]
    ensures forall p: Proc :: CountOf(states[i], p) == 0
  {
    ReachedKeepsInv(states, moves, procOf, initial, i);
    var s := states[i];
    assert forall p: Proc :: p !in s.async;
    assert forall p: Proc :: !FileAt(s, p) && !CountedAt(s, p);
  }

  /** And at every moment, whatever the others are doing: an idle task owns no asyncio lock and has
      no transaction open, and a process's count or its OS lock is there only for some other task
      that is not idle. */
  lemma IdleTaskHoldsNothing(states: seq<State>, moves: seq<Move>, procOf: Task -> Proc, initial: Db, i: nat, t: Task)
    requires Reached(states, moves, procOf, initial) && i < |states| && PcOf(states[i], t) == Idle
    ensures t !in states[i].conn
    ensures forall p: Proc :: p in states[i].async ==> states[i].async[p] != t
    ensures forall p: Proc :: CountOf(states[i], p) != 0 || states[i].os == Some(p) ==>
              p in states[i].async && states[i].async[p] != t && PcOf(states[i], states[i].async[p]) != Idle
  {
    ReachedKeepsInv(states, moves, procOf, initial, i);
    var s := states[i];
    forall p: Proc | CountOf(s, p) != 0 || s.os == Some(p) ensures p in s.async && PcOf(s, s.async[p]) != Idle {
      assert CountedAt(s, p) || FileAt(s, p);
    }
  }

  /** No interleaving gets stuck: while any task is not idle, some task has a step other than
      giving up. */
  lemma SomeStepIsEnabled(states: seq<State>, moves: seq<Move>, procOf: Task -> Proc, initial: Db, i: nat, t: Task)
    returns (u: Task, a: Action)
    requires Reached(states, moves, procOf, initial) && i < |states| && PcOf(states[i], t) != Idle
    ensures Enabled(states[i], u, procOf(u), a) && a != TimeOut && a != Request
  {
    ReachedKeepsInv(states, moves, procOf, initial, i);
    var s := states[i];
    u := t;
    if PcOf(s, t) == WaitAsync && procOf(t) in s.async { u := s.async[procOf(t)]; }
    if PcOf(s, u) == Acquiring && s.os.Some? {
      assert FileAt(s, s.os.value);
      u := s.async[s.os.value];
    }
    a := match PcOf(s, u)
      case WaitAsync => TakeAsync
      case HasAsync => StartAcquire
      case Acquiring => TakeFile
      case Inside => RollbackTxn
      case Unlocking => ReleaseFile
      case _ => ReleaseAsync;
  }
}
