/** particles/db.py and particles/corpus/deposit.py: write blocks, savepoints, write units and the
    captures scan, over a SQLite connection as the sqlite3 driver drives it. */
module Transactions {

  /** The rows of a store. */
  type Db = map<string, string>

  // ---- the connection -----------------------------------------------------------

  /** One connection: the committed rows, and, in a transaction, the rows it sees and the
      rows each savepoint on the stack would restore. `implicit` marks a transaction that a
      SAVEPOINT opened, with no BEGIN before it. */
  datatype Conn = Conn(durable: Db, inTxn: bool, working: Db, marks: seq<Db>, implicit: bool)

  function Clean(durable: Db): Conn { Conn(durable, false, durable, [], false) }

  /** BEGIN IMMEDIATE. */
  function Begin(c: Conn): Conn { Conn(c.durable, true, c.durable, [], false) }

  function Commit(c: Conn): Conn { Clean(if c.inTxn then c.working else c.durable) }

  function Rollback(c: Conn): Conn { Clean(c.durable) }

  /** INSERT, UPDATE or DELETE; the driver issues BEGIN first outside a transaction. */
  function Dml(c: Conn, f: Db -> Db): Conn {
    var open := if c.inTxn then c else Begin(c);
    open.(working := f(open.working))
  }

  /** SAVEPOINT; the driver issues no BEGIN before it. */
  function Savepoint(c: Conn): Conn {
    if c.inTxn then c.(marks := c.marks + [c.working]) else Conn(c.durable, true, c.durable, [c.durable], true)
  }

  /** RELEASE of the savepoint at depth `n`, and of those above it. Releasing the savepoint
      that opened the transaction commits it. */
  function Release(c: Conn, n: nat): Conn {
    if n >= |c.marks| then c
    else if n == 0 && c.implicit then Commit(c)
    else c.(marks := c.marks[..n])
  }

  /** ROLLBACK TO the savepoint at depth `n`, which stays on the stack. */
  function RollbackTo(c: Conn, n: nat): Conn {
    if n >= |c.marks| then c else c.(working := c.marks[n], marks := c.marks[..n + 1])
  }

  /** `_open_sqlite_transaction`: a real transaction unless one is open. */
  function Open(c: Conn): Conn { if c.inTxn then c else Begin(c) }

  // ---- programs -----------------------------------------------------------------

  /** What a write pass does on one session. */
  datatype Body =
    | Write(f: Db -> Db)
    | Raise
    | Seq(first: Body, second: Body)
    | Choose(test: Db -> bool, yes: Body, no: Body)
    | Nested(body: Body) // async with session.begin_nested()
    | Guard(body: Body)  // try: ... except Exception: skip
    | Unit(body: Body)   // async with _write_unit(session)

  /** The session and the context a write unit reads: whether each unit locks and commits,
      whether this task holds the store's writer lock, and how often it took it, committed,
      and asked for it while holding it (which would never return: the lock is not re-entrant). */
  datatype Env = Env(conn: Conn, lockEach: bool, held: bool, locks: nat, commits: nat, selfWaits: nat)

  function Rows(c: Conn): Db { if c.inTxn then c.working else c.durable }

  /** Run a body: the environment it leaves, and whether it raised. */
  function Run(b: Body, e: Env): (Env, bool)
    decreases b, 0
  {
    match b
    case Write(f) => (e.(conn := Dml(e.conn, f)), false)
    case Raise => (e, true)
    case Seq(first, second) =>
      var (e1, raised) := Run(first, e);
      if raised then (e1, true) else Run(second, e1)
    case Choose(test, yes, no) => if test(Rows(e.conn)) then Run(yes, e) else Run(no, e)
    case Nested(body) =>
      var n := if e.conn.inTxn then |e.conn.marks| else 0;
      var (e1, raised) := Run(body, e.(conn := Savepoint(e.conn)));
      if raised then (e1.(conn := RollbackTo(e1.conn, n)), true) else (e1.(conn := Release(e1.conn, n)), false)
    case Guard(body) => var (e1, _) := Run(body, e); (e1, false)
    case Unit(body) =>
      if !e.lockEach then Run(body, e)
      else
        var (e1, raised) := WriteTransaction(body, e.(lockEach := false));
        (e1.(lockEach := e.lockEach), raised)
  }

  /** `write_transaction`: lock, open, run, then commit (or roll back) before releasing. */
  function WriteTransaction(b: Body, e: Env): (Env, bool)
    decreases b, 1
  {
    var taken := e.(held := true, locks := e.locks + 1, selfWaits := e.selfWaits + if e.held then 1 else 0);
    var (e1, raised) := Run(b, taken.(conn := Open(taken.conn)));
    if raised then (e1.(conn := Rollback(e1.conn), held := false), true)
    else (e1.(conn := Commit(e1.conn), held := false, commits := e1.commits + 1), false)
  }

  // ---- the meaning: every block a function of the rows --------------------------

  /** The reference: a failed savepoint block, and a failed write unit of its own, leave the
      rows as they found them; nothing else undoes anything. */
  function Meaning(b: Body, d: Db, lockEach: bool): (Db, bool) {
    match b
    case Write(f) => (f(d), false)
    case Raise => (d, true)
    case Seq(first, second) =>
      var (d1, raised) := Meaning(first, d, lockEach);
      if raised then (d1, true) else Meaning(second, d1, lockEach)
    case Choose(test, yes, no) => if test(d) then Meaning(yes, d, lockEach) else Meaning(no, d, lockEach)
    case Nested(body) =>
      var (d1, raised) := Meaning(body, d, lockEach);
      (if raised then d else d1, raised)
    case Guard(body) => (Meaning(body, d, lockEach).0, false)
    case Unit(body) =>
      var (d1, raised) := Meaning(body, d, false);
      (if raised && lockEach then d else d1, raised)
  }

  /** What a connection always is: a transaction a SAVEPOINT opened has that savepoint on its stack. */
  predicate Proper(c: Conn) { c.inTxn && c.implicit ==> c.marks != [] }

  /** Inside a transaction, whichever statement opened it. A savepoint made in it is not the one
      that opened it, so releasing it commits nothing. */
  predicate Opened(c: Conn) { c.inTxn && Proper(c) }

  /** Every statement leaves a connection proper. */
  lemma StatementsKeepProper(c: Conn, f: Db -> Db, n: nat)
    requires Proper(c)
    ensures Proper(Clean(c.durable)) && Proper(Dml(c, f)) && Proper(Savepoint(c)) && Proper(Release(c, n)) && Proper(RollbackTo(c, n))
    ensures Proper(Commit(c)) && Proper(Rollback(c)) && Opened(Open(c))
  {}

  /** The savepoint stack protocol computes the functional meaning, commits nothing on the way,
      and leaves the enclosing savepoints where they were. */
  lemma {:induction false} SavepointsAreFunctional(b: Body, e: Env)
    requires Opened(e.conn) && !e.lockEach
    ensures var (e', raised) := Run(b, e);
      && e' == e.(conn := e'.conn)
      && Opened(e'.conn) && e'.conn.implicit == e.conn.implicit && e'.conn.durable == e.conn.durable
      && |e.conn.marks| <= |e'.conn.marks| && e'.conn.marks[..|e.conn.marks|] == e.conn.marks
      && (e'.conn.working, raised) == Meaning(b, e.conn.working, false)
    decreases b
  {
    match b
    case Write(f) => assert e.conn.marks[..|e.conn.marks|] == e.conn.marks;
    case Raise => assert e.conn.marks[..|e.conn.marks|] == e.conn.marks;
    case Seq(first, second) =>
      SavepointsAreFunctional(first, e);
      var (e1, raised) := Run(first, e);
      if !raised {
        SavepointsAreFunctional(second, e1);
        var marks := Run(second, e1).0.conn.marks;
        assert marks[..|e1.conn.marks|][..|e.conn.marks|] == marks[..|e.conn.marks|];
      }
    case Choose(test, yes, no) =>
      SavepointsAreFunctional(yes, e);
      SavepointsAreFunctional(no, e);
    case Nested(body) =>
      var n, inner := |e.conn.marks|, e.(conn := Savepoint(e.conn));
      SavepointsAreFunctional(body, inner);
      var marks := Run(body, inner).0.conn.marks;
      assert marks[..n + 1] == e.conn.marks + [e.conn.working];
      assert marks[..n + 1][..n] == marks[..n] == e.conn.marks;
      assert marks[n] == marks[..n + 1][n] == e.conn.working;
    case Guard(body) => SavepointsAreFunctional(body, e);
    case Unit(body) => SavepointsAreFunctional(body, e);
  }

  /** A write block over any statements and nested savepoints, a savepoint first included:
      an exception leaves the durable rows as they were at entry, and otherwise the block's
      whole effect is committed at once. A session with uncommitted writes of its own, or inside a
      savepoint that opened its transaction, has them committed or undone with the block. */
  lemma WriteBlockIsAtomic(b: Body, e: Env)
    requires !e.lockEach && Proper(e.conn)
    ensures var (e', raised) := WriteTransaction(b, e);
      && e' == e.(conn := e'.conn, held := false, locks := e.locks + 1,
                  commits := e'.commits, selfWaits := e'.selfWaits)
      && (raised <==> Meaning(b, Rows(e.conn), false).1)
      && e'.conn == Clean(if raised then e.conn.durable else Meaning(b, Rows(e.conn), false).0)
      && e'.commits == e.commits + (if raised then 0 else 1)
      && e'.selfWaits == e.selfWaits + (if e.held then 1 else 0)
  {
    var taken := e.(held := true, locks := e.locks + 1, selfWaits := e.selfWaits + if e.held then 1 else 0);
    SavepointsAreFunctional(b, taken.(conn := Open(taken.conn)));
  }

  /** Why the block opens its transaction itself: a savepoint that is the first statement of a
      session with no transaction commits on its release, and a later rollback cannot undo it. */
  lemma SavepointFirstCommits(d: Db, f: Db -> Db)
    requires f(d) != d
    ensures Rollback(Release(Dml(Savepoint(Clean(d)), f), 0)).durable == f(d)
    ensures var program := Seq(Nested(Write(f)), Raise);
      WriteTransaction(program, Env(Clean(d), false, false, 0, 0, 0)).0.conn.durable == d
  {
    WriteBlockIsAtomic(Seq(Nested(Write(f)), Raise), Env(Clean(d), false, false, 0, 0, 0));
  }

  // ---- write units --------------------------------------------------------------

  /** Every write is made inside some write unit. */
  predicate WritesInUnits(b: Body) {
    match b
    case Write(_) => false
    case Raise => true
    case Seq(first, second) => WritesInUnits(first) && WritesInUnits(second)
    case Choose(_, yes, no) => WritesInUnits(yes) && WritesInUnits(no)
    case Nested(_) => false
    case Guard(body) => WritesInUnits(body)
    case Unit(_) => true
  }

  /** How many outermost units run, and how many of them end without an exception. */
  function Units(b: Body, d: Db): (nat, nat) {
    match b
    case Seq(first, second) =>
      var (n, k) := Units(first, d);
      var (d1, raised) := Meaning(first, d, true);
      if raised then (n, k) else var (n', k') := Units(second, d1); (n + n', k + k')
    case Choose(test, yes, no) => if test(d) then Units(yes, d) else Units(no, d)
    case Guard(body) => Units(body, d)
    case Unit(body) => (1, if Meaning(body, d, false).1 then 0 else 1)
    case _ => (0, 0)
  }

  /** Under `writes_committed_under_lock`, each outermost write unit takes the lock once and
      commits once, however units nest; the task never waits on a lock it holds, holds none
      between units, and the durable rows are those of the units that succeeded. */
  lemma {:induction false} UnitsLockAndCommitOnce(b: Body, e: Env)
    requires WritesInUnits(b) && e.lockEach && !e.held && e.conn == Clean(e.conn.durable)
    ensures var (e', raised) := Run(b, e);
      && (e'.conn.durable, raised) == Meaning(b, e.conn.durable, true)
      && e'.conn == Clean(e'.conn.durable) && e'.lockEach && !e'.held
      && e'.locks == e.locks + Units(b, e.conn.durable).0
      && e'.commits == e.commits + Units(b, e.conn.durable).1
      && e'.selfWaits == e.selfWaits
    decreases b
  {
    match b
    case Raise =>
    case Seq(first, second) =>
      UnitsLockAndCommitOnce(first, e);
      if !Run(first, e).1 { UnitsLockAndCommitOnce(second, Run(first, e).0); }
    case Choose(test, yes, no) =>
      UnitsLockAndCommitOnce(yes, e);
      UnitsLockAndCommitOnce(no, e);
    case Guard(body) => UnitsLockAndCommitOnce(body, e);
    case Unit(body) => WriteBlockIsAtomic(body, e.(lockEach := false));
  }

  // ---- the captures scan --------------------------------------------------------

  function AllOf(bodies: seq<Body>): Body {
    if bodies == [] then Write(d => d) else Seq(bodies[0], AllOf(bodies[1..]))
  }

  /** The captures that do not raise, each tried on the rows the earlier ones left. */
  function Succeeding(captures: seq<Body>, d: Db): seq<Body> {
    if captures == [] then []
    else
      var (d1, raised) := Meaning(captures[0], d, false);
      if raised then Succeeding(captures[1..], d) else [captures[0]] + Succeeding(captures[1..], d1)
  }

  /** The captures that raise, each tried on the rows the earlier ones left. */
  function Failing(captures: seq<Body>, d: Db): seq<Body> {
    if captures == [] then []
    else
      var (d1, raised) := Meaning(captures[0], d, false);
      if raised then [captures[0]] + Failing(captures[1..], d) else Failing(captures[1..], d1)
  }

  /** Every capture either succeeds or fails. */
  lemma {:induction false} EachSucceedsOrFails(captures: seq<Body>, d: Db)
    ensures multiset(Succeeding(captures, d)) + multiset(Failing(captures, d)) == multiset(captures)
  {
    if captures != [] {
      var (d1, raised) := Meaning(captures[0], d, false);
      EachSucceedsOrFails(captures[1..], if raised then d else d1);
      assert captures == [captures[0]] + captures[1..];
    }
  }

  /** After the first `i` captures: `deposited` are those that succeeded, and `rows` is what
      depositing just them on `start` gives. */
  ghost predicate Scanned(captures: seq<Body>, i: nat, start: Db, rows: Db, deposited: seq<Body>, skipped: seq<Body>) {
    && i <= |captures|
    && skipped + Failing(captures[i..], rows) == Failing(captures, start)
    && deposited + Succeeding(captures[i..], rows) == Succeeding(captures, start)
    && Meaning(AllOf(deposited), start, false) == (rows, false)
  }

  lemma ScanStarts(captures: seq<Body>, start: Db)
    ensures Scanned(captures, 0, start, start, [], [])
  {
    assert captures[0..] == captures;
  }

  lemma ScanEnds(captures: seq<Body>, start: Db, rows: Db, deposited: seq<Body>, skipped: seq<Body>)
    requires Scanned(captures, |captures|, start, rows, deposited, skipped)
    ensures deposited == Succeeding(captures, start) && skipped == Failing(captures, start)
    ensures Meaning(AllOf(deposited), start, false) == (rows, false)
  {
    assert captures[|captures|..] == [];
  }

  lemma ScanNext(captures: seq<Body>, i: nat, start: Db, rows: Db, deposited: seq<Body>, skipped: seq<Body>)
    requires i < |captures| && Scanned(captures, i, start, rows, deposited, skipped)
    ensures var (rows', raised) := Meaning(Nested(captures[i]), rows, false);
      if raised then Scanned(captures, i + 1, start, rows', deposited, skipped + [captures[i]])
      else Scanned(captures, i + 1, start, rows', deposited + [captures[i]], skipped)
  {
    var rest := captures[i..];
    assert rest[0] == captures[i] && rest[1..] == captures[i + 1..];
    AllOfGrows(deposited, captures[i], start);
    var (d1, raised) := Meaning(captures[i], rows, false);
    if !raised {
      assert deposited + ([captures[i]] + Succeeding(captures[i + 1..], d1))
          == (deposited + [captures[i]]) + Succeeding(captures[i + 1..], d1);
    } else {
      assert skipped + ([captures[i]] + Failing(captures[i + 1..], rows))
          == (skipped + [captures[i]]) + Failing(captures[i + 1..], rows);
    }
  }

  /** A session, its connection changed statement by statement. */
  class Session {
    var conn: Conn

    constructor (durable: Db)
      ensures conn == Clean(durable)
    {
      conn := Clean(durable);
    }

    /** `async with session.begin_nested(): body`: whether it raised. */
    method BeginNested(body: Body) returns (raised: bool)
      requires Opened(conn)
      modifies this
      ensures var (e', r) := Run(Nested(body), Env(old(conn), false, false, 0, 0, 0));
        conn == e'.conn && raised == r
    {
      var n := |conn.marks|;
      conn := Savepoint(conn);
      var (e1, r) := Run(body, Env(conn, false, false, 0, 0, 0));
      conn := e1.conn;
      raised := r;
      if raised {
        conn := RollbackTo(conn, n);
      } else {
        conn := Release(conn, n);
      }
    }

    /** One capture: a real transaction, then the capture under a savepoint of its own. */
    method TryCapture(capture: Body) returns (raised: bool)
      requires Proper(conn)
      modifies this
      ensures Opened(conn) && conn.durable == old(conn.durable)
      ensures (Rows(conn), raised) == Meaning(Nested(capture), old(Rows(conn)), false)
    {
      conn := Open(conn);
      NestedIsFunctional(capture, conn);
      raised := BeginNested(capture);
    }

    /** The scan: every capture is tried, and one that raises is skipped with its writes undone.
        What is left, uncommitted, is exactly the rows of depositing only those that succeeded. */
    method ScanCaptures(captures: seq<Body>) returns (deposited: seq<Body>, skipped: seq<Body>)
      requires Proper(conn)
      modifies this
      ensures conn.durable == old(conn.durable) && (captures != [] ==> Opened(conn))
      ensures deposited == Succeeding(captures, old(Rows(conn))) && skipped == Failing(captures, old(Rows(conn)))
      ensures Meaning(AllOf(deposited), old(Rows(conn)), false) == (Rows(conn), false)
    {
      deposited, skipped := [], [];
      ghost var start := Rows(conn);
      ScanStarts(captures, start);
      for i := 0 to |captures|
        invariant conn.durable == old(conn.durable) && Proper(conn) && (i > 0 ==> Opened(conn))
        invariant Scanned(captures, i, start, Rows(conn), deposited, skipped)
      {
        ScanNext(captures, i, start, Rows(conn), deposited, skipped);
        var raised := TryCapture(captures[i]);
        if raised {
          skipped := skipped + [captures[i]];
        } else {
          deposited := deposited + [captures[i]];
        }
      }
      ScanEnds(captures, start, Rows(conn), deposited, skipped);
    }
  }

  lemma NestedIsFunctional(body: Body, c: Conn)
    requires Opened(c)
    ensures var (e', raised) := Run(Nested(body), Env(c, false, false, 0, 0, 0));
      && Opened(e'.conn) && e'.conn.durable == c.durable
      && (e'.conn.working, raised) == Meaning(Nested(body), c.working, false)
  {
    SavepointsAreFunctional(Nested(body), Env(c, false, false, 0, 0, 0));
  }

  lemma {:induction false} AllOfGrows(bodies: seq<Body>, last: Body, d: Db)
    requires !Meaning(AllOf(bodies), d, false).1
    ensures var (d1, raised) := Meaning(last, Meaning(AllOf(bodies), d, false).0, false);
      !raised ==> Meaning(AllOf(bodies + [last]), d, false) == (d1, false)
  {
    if bodies == [] {
      assert (bodies + [last])[1..] == [];
      assert AllOf([]) == Write(x => x);
    } else {
      assert (bodies + [last])[1..] == bodies[1..] + [last];
      AllOfGrows(bodies[1..], last, Meaning(bodies[0], d, false).0);
    }
  }
}
