/** particles/store/candidate_cache.py: a cache refreshed by statements that writes run between. */
module CacheRefresh {
  import opened ChangeJournal

  /** What a session outside the open transaction reads. */
  ghost function Committed(s: Session): Db { if s.saved == [] then s.now else s.saved[0] }

  /** `b` came after `a` with no rollback past it: what both journals hold, they hold alike, and as
      long as `b` retains everything journalled after `a`, that names every row that differs. */
  ghost predicate Continues(a: Db, b: Db) {
    && Window(a.journal) && Window(b.journal) && Newest(a.journal) <= Newest(b.journal)
    && (forall k :: k in a.journal && k in b.journal ==> a.journal[k] == b.journal[k])
    && (Retains(b, Newest(a.journal)) ==>
          forall id :: id !in ChangedSince(b, Newest(a.journal)) ==> SameAt(a.particles, b.particles, id))
  }

  /** No entry after `n` was pruned. */
  ghost predicate Retains(db: Db, n: int)
    requires Window(db.journal)
  {
    Newest(db.journal) <= n + RETENTION
  }

  /** Each savepoint's tables continue the ones outside it. */
  ghost predicate Nested(s: Session) {
    && (forall i, j :: 0 <= i <= j < |s.saved| ==> Continues(s.saved[i], s.saved[j]))
    && (forall i :: 0 <= i < |s.saved| ==> Continues(s.saved[i], s.now))
    && Continues(s.now, s.now)
  }

  ghost predicate AllContinue(a: Db, s: Session) { forall db :: Visible(s, db) ==> Continues(a, db) }

  /** A journalled change: the rest of the table stays, and nothing retained is lost. */
  lemma TouchContinues(a: Db, db: Db, id: Id, after: map<Id, Row>, token: Token)
    requires Continues(a, db) && id != "" && forall x :: x != id ==> SameAt(db.particles, after, x)
    ensures Continues(a, Touched(db, id, after, token)) && Continues(Touched(db, id, after, token), Touched(db, id, after, token))
  {
    var db' := Touched(db, id, after, token);
    var n, m := Newest(a.journal), Newest(db.journal) + 1;
    AppendWindow(db.journal, Entry(id, token));
    if Retains(db', n) {
      LaterIdsStay(db, db', n);
      forall x | x !in ChangedSince(db', n) ensures SameAt(a.particles, db'.particles, x) {
        assert db'.journal[m].id in ChangedSince(db', n);
        assert SameAt(db.particles, after, x);
      }
    }
  }

  /** Appending to a journal loses no id journalled after `n`, while all of those are retained. */
  lemma LaterIdsStay(db: Db, db': Db, n: int)
    requires Window(db.journal) && Window(db'.journal) && Retains(db', n)
    requires Newest(db'.journal) == Newest(db.journal) + 1
    requires forall k :: k in db'.journal && k != Newest(db'.journal) ==> k in db.journal && db'.journal[k] == db.journal[k]
    ensures ChangedSince(db, n) <= ChangedSince(db', n)
  {
    forall k | k in db.journal && k > n && db.journal[k].id != "" ensures db.journal[k].id in ChangedSince(db', n) {
      assert k in db'.journal && db'.journal[k] == db.journal[k];
    }
  }

  lemma WriteContinues(a: Db, s: Session, op: Op)
    requires Continues(a, s.now) && Continues(s.now, s.now) && Allowed(s, op) && (op.Insert? || op.Update? || op.Delete?)
    ensures Continues(a, Step(s, op).now) && Continues(Step(s, op).now, Step(s, op).now)
  {
    var p := s.now.particles;
    match op
    case Insert(id, row, t) =>
      if id !in p { TouchContinues(a, s.now, id, p[id := row], t); }
    case Delete(id, t) =>
      if id in p { TouchContinues(a, s.now, id, p - {id}, t); }
    case Update(id, id', row, t, t') =>
      if id in p && id == id' {
        TouchContinues(a, s.now, id, p[id := row], t');
      } else if id in p && id' !in p {
        TouchContinues(a, s.now, id, p - {id}, t);
        TouchContinues(a, Touched(s.now, id, p - {id}, t), id', (p - {id})[id' := row], t');
      }
  }

  lemma StepKeepsNested(s: Session, op: Op)
    requires Nested(s) && Allowed(s, op)
    ensures Nested(Step(s, op))
  {
    if op.Insert? || op.Update? || op.Delete? {
      WriteContinues(s.now, s, op);
      forall i | 0 <= i < |s.saved| ensures Continues(s.saved[i], Step(s, op).now) { WriteContinues(s.saved[i], s, op); }
    }
  }

  lemma StepKeepsContinuing(a: Db, s: Session, op: Op)
    requires AllContinue(a, s) && Nested(s) && Allowed(s, op)
    ensures AllContinue(a, Step(s, op))
  {
    assert Visible(s, s.now);
    if op.Insert? || op.Update? || op.Delete? { WriteContinues(a, s, op); }
    var s' := Step(s, op);
    forall db | Visible(s', db) ensures Continues(a, db) {
      if db != s'.now || op.Savepoint? || op.Release? || op.Rollback? { assert Visible(s, db); }
    }
  }

  lemma {:induction false} RunKeepsNested(states: seq<Session>, ops: seq<Op>, i: nat)
    requires Run(states, ops) && Installed(states[0]) && i < |states|
    ensures Nested(states[i])
  {
    if i == 0 {
      var particles, token :| states[0] == Session(Db(particles, Append(map[], Entry("", token))), [], {token});
      FirstEntry(Entry("", token));
    } else {
      RunKeepsNested(states, ops, i - 1);
      StepKeepsNested(states[i - 1], ops[i - 1]);
    }
  }

  /** Whatever was committed at some moment, every later visible state continues it. */
  lemma {:induction false} CommittedIsForGood(states: seq<Session>, ops: seq<Op>, i: nat, j: nat)
    requires Run(states, ops) && Installed(states[0]) && i <= j < |states|
    ensures AllContinue(Committed(states[i]), states[j])
    decreases j
  {
    if i == j {
      RunKeepsNested(states, ops, i);
    } else {
      CommittedIsForGood(states, ops, i, j - 1);
      RunKeepsNested(states, ops, j - 1);
      StepKeepsContinuing(Committed(states[i]), states[j - 1], ops[j - 1]);
    }
  }

  // ---- caches under a head ----------------------------------------------------------------

  /** The head a cache was filed under, and its rows. */
  datatype Cache = Cache(seq_: int, token: Token, byId: map<Id, Row>)

  ghost predicate TrustedIn(c: Cache, db: Db) { c.seq_ in db.journal && db.journal[c.seq_].token == c.token }

  /** Where its head is still there, a cache agrees with the table at every id not journalled since. */
  ghost predicate Agrees(c: Cache, db: Db, keep: Row -> bool) {
    TrustedIn(c, db) ==> forall id :: id !in ChangedSince(db, c.seq_) ==> SameAt(c.byId, Cached(db.particles, keep), id)
  }

  ghost predicate AllAgree(c: Cache, s: Session, keep: Row -> bool) {
    c.token in s.drawn && forall db :: Visible(s, db) ==> Agrees(c, db, keep)
  }

  lemma TouchAgrees(c: Cache, db: Db, id: Id, after: map<Id, Row>, token: Token, keep: Row -> bool)
    requires Window(db.journal) && Agrees(c, db, keep) && token != c.token && id != ""
    requires forall x :: x != id ==> SameAt(db.particles, after, x)
    ensures Agrees(c, Touched(db, id, after, token), keep) && Window(Touched(db, id, after, token).journal)
  {
    var db' := Touched(db, id, after, token);
    var m := Newest(db.journal) + 1;
    AppendWindow(db.journal, Entry(id, token));
    if TrustedIn(c, db') {
      assert c.seq_ != m && TrustedIn(c, db);
      forall x | x !in ChangedSince(db', c.seq_) ensures SameAt(c.byId, Cached(db'.particles, keep), x) {
        assert db'.journal[m].id in ChangedSince(db', c.seq_);
        LaterIdsStay(db, db', c.seq_);
        assert SameAt(db.particles, after, x);
      }
    }
  }

  lemma WriteAgrees(c: Cache, s: Session, op: Op, keep: Row -> bool)
    requires Window(s.now.journal) && c.token in s.drawn && Agrees(c, s.now, keep)
    requires Allowed(s, op) && (op.Insert? || op.Update? || op.Delete?)
    ensures Agrees(c, Step(s, op).now, keep)
  {
    var p := s.now.particles;
    match op
    case Insert(id, row, t) =>
      if id !in p { TouchAgrees(c, s.now, id, p[id := row], t, keep); }
    case Delete(id, t) =>
      if id in p { TouchAgrees(c, s.now, id, p - {id}, t, keep); }
    case Update(id, id', row, t, t') =>
      if id in p && id == id' {
        TouchAgrees(c, s.now, id, p[id := row], t', keep);
      } else if id in p && id' !in p {
        TouchAgrees(c, s.now, id, p - {id}, t, keep);
        TouchAgrees(c, Touched(s.now, id, p - {id}, t), id', (p - {id})[id' := row], t', keep);
      }
  }

  lemma StepKeepsAgreement(c: Cache, s: Session, op: Op, keep: Row -> bool)
    requires Inv(s) && Allowed(s, op) && AllAgree(c, s, keep)
    ensures AllAgree(c, Step(s, op), keep)
  {
    assert Visible(s, s.now);
    if op.Insert? || op.Update? || op.Delete? { WriteAgrees(c, s, op, keep); }
    var s' := Step(s, op);
    forall db | Visible(s', db) ensures Agrees(c, db, keep) {
      if db != s'.now || op.Savepoint? || op.Release? || op.Rollback? { assert Visible(s, db); }
    }
  }

  /** What a cache says of the table it goes on saying, over every run. */
  lemma {:induction false} AgreementIsKept(c: Cache, states: seq<Session>, ops: seq<Op>, i: nat, j: nat, keep: Row -> bool)
    requires Run(states, ops) && Installed(states[0]) && i <= j < |states| && AllAgree(c, states[i], keep)
    ensures AllAgree(c, states[j], keep)
    decreases j
  {
    if i < j {
      AgreementIsKept(c, states, ops, i, j - 1, keep);
      RunKeepsInv(states, ops, j - 1);
      StepKeepsAgreement(c, states[j - 1], ops[j - 1], keep);
    }
  }

  /** A cache whose head is the journal's newest entry is what a rebuild would give. */
  lemma CurrentCacheIsExact(c: Cache, db: Db, keep: Row -> bool)
    requires Window(db.journal) && Agrees(c, db, keep) && c.seq_ == Newest(db.journal) && TrustedIn(c, db)
    ensures c.byId == Cached(db.particles, keep) && HoldsExactly(c.byId, db.particles, keep)
  {
    assert ChangedSince(db, c.seq_) == {};
    SameEverywhere(c.byId, Cached(db.particles, keep));
  }

  // ---- reading while writes go on --------------------------------------------------------------

  /** The head as read from committed tables at moment `h`. */
  ghost function HeadAt(s: Session): Entry
    requires Window(Committed(s).journal)
  {
    Committed(s).journal[Newest(Committed(s).journal)]
  }

  /** A row read after the head was agrees with any later table at which that head is still
      trusted, unless it has been journalled since the head. */
  lemma RowReadAfterHead(states: seq<Session>, ops: seq<Op>, h: nat, r: nat, j: nat, db: Db, id: Id)
    requires Run(states, ops) && Installed(states[0]) && h <= r <= j < |states| && Visible(states[j], db)
    requires Window(Committed(states[h]).journal)
    requires var n := Newest(Committed(states[h]).journal);
      n in db.journal && db.journal[n].token == HeadAt(states[h]).token && id !in ChangedSince(db, n)
    ensures SameAt(Committed(states[r]).particles, db.particles, id)
  {
    var head, row := Committed(states[h]), Committed(states[r]);
    CommittedIsForGood(states, ops, h, r);
    CommittedIsForGood(states, ops, r, j);
    assert Visible(states[r], row);
    assert Continues(head, row) && Continues(row, db) && Retains(db, Newest(row.journal));
    assert ChangedSince(db, Newest(row.journal)) <= ChangedSince(db, Newest(head.journal));
  }

  /** `_build`: the head read at `h` and the rows at a later moment `r`, with any writes between. */
  lemma BuildAgrees(states: seq<Session>, ops: seq<Op>, h: nat, r: nat, j: nat, keep: Row -> bool)
    requires Run(states, ops) && Installed(states[0]) && h <= r <= j < |states|
    ensures Window(Committed(states[h]).journal)
    ensures var c := Cache(Newest(Committed(states[h]).journal), HeadAt(states[h]).token, Cached(Committed(states[r]).particles, keep));
      AllAgree(c, states[j], keep)
  {
    HeadIsDrawn(states, ops, h, j);
    var n := Newest(Committed(states[h]).journal);
    var c := Cache(n, HeadAt(states[h]).token, Cached(Committed(states[r]).particles, keep));
    forall db | Visible(states[j], db) ensures Agrees(c, db, keep) {
      if TrustedIn(c, db) {
        forall id | id !in ChangedSince(db, n) ensures SameAt(c.byId, Cached(db.particles, keep), id) {
          RowReadAfterHead(states, ops, h, r, j, db, id);
        }
      }
    }
  }

  lemma {:induction false} HeadIsDrawn(states: seq<Session>, ops: seq<Op>, h: nat, j: nat)
    requires Run(states, ops) && Installed(states[0]) && h <= j < |states|
    ensures Window(Committed(states[h]).journal) && HeadAt(states[h]).token in states[j].drawn
    decreases j
  {
    RunKeepsInv(states, ops, h);
    assert Visible(states[h], Committed(states[h]));
    if h < j {
      HeadIsDrawn(states, ops, h, j - 1);
      RunKeepsInv(states, ops, j - 1);
      StepKeepsInv(states[j - 1], ops[j - 1]);
    }
  }

  /** What an old cache says at the moment its token is checked still holds of the ids read later,
      if no entry after its head was pruned in between. */
  lemma CheckedThenRead(states: seq<Session>, ops: seq<Op>, old_: Cache, t: nat, c: nat, id: Id, keep: Row -> bool)
    requires Run(states, ops) && Installed(states[0]) && t <= c < |states|
    requires AllAgree(old_, states[t], keep) && TrustedIn(old_, Committed(states[t]))
    requires Window(Committed(states[c]).journal) && Retains(Committed(states[c]), old_.seq_)
    requires id !in ChangedSince(Committed(states[c]), old_.seq_)
    ensures SameAt(old_.byId, Cached(Committed(states[c]).particles, keep), id)
  {
    var checked, read := Committed(states[t]), Committed(states[c]);
    CommittedIsForGood(states, ops, t, c);
    assert Visible(states[t], checked) && Visible(states[c], read);
    assert Continues(checked, read) && old_.seq_ <= Newest(checked.journal);
    assert id !in ChangedSince(checked, old_.seq_) by {
      forall k | k in checked.journal && k > old_.seq_ && checked.journal[k].id != "" ensures checked.journal[k].id in ChangedSince(read, old_.seq_) {
        assert k in read.journal && read.journal[k] == checked.journal[k];
      }
    }
    assert ChangedSince(read, Newest(checked.journal)) <= ChangedSince(read, old_.seq_);
    assert SameAt(checked.particles, read.particles, id);
  }

  /** The rows of a refresh: the changed ones as each was read, the others as they were cached. */
  ghost predicate Refreshed(byId: map<Id, Row>, old_: Cache, changed: set<Id>, states: seq<Session>, at: Id -> nat, keep: Row -> bool)
    requires forall id :: at(id) < |states|
  {
    forall id :: SameAt(byId, if id in changed then Cached(Committed(states[at(id)]).particles, keep) else old_.byId, id)
  }

  /** A refresh whose statements interleave with writes: the head is read at `h`, the old head's token
      checked at `t`, the changed ids read at `c`, and each changed row at its own moment `at(id)`.
      If nothing after the old head was pruned by `c`, the cache filed under the new head keeps the
      agreement, for every later moment. */
  lemma RefreshKeepsAgreement(states: seq<Session>, ops: seq<Op>, old_: Cache, h: nat, t: nat, c: nat, at: Id -> nat, j: nat,
                              byId: map<Id, Row>, keep: Row -> bool)
    requires Run(states, ops) && Installed(states[0]) && h <= t <= c <= j < |states| && forall id :: c <= at(id) <= j
    requires AllAgree(old_, states[h], keep) && TrustedIn(old_, Committed(states[t]))
    requires Window(Committed(states[c]).journal) && Retains(Committed(states[c]), old_.seq_)
    requires Refreshed(byId, old_, ChangedSince(Committed(states[c]), old_.seq_), states, at, keep)
    ensures Window(Committed(states[h]).journal)
    ensures AllAgree(Cache(Newest(Committed(states[h]).journal), HeadAt(states[h]).token, byId), states[j], keep)
  {
    HeadIsDrawn(states, ops, h, j);
    AgreementIsKept(old_, states, ops, h, t, keep);
    var n := Newest(Committed(states[h]).journal);
    var new_ := Cache(n, HeadAt(states[h]).token, byId);
    forall db | Visible(states[j], db) ensures Agrees(new_, db, keep) {
      if TrustedIn(new_, db) {
        forall id | id !in ChangedSince(db, n) ensures SameAt(byId, Cached(db.particles, keep), id) {
          if id in ChangedSince(Committed(states[c]), old_.seq_) {
            RowReadAfterHead(states, ops, h, at(id), j, db, id);
          } else {
            CheckedThenRead(states, ops, old_, t, c, id, keep);
            RowReadAfterHead(states, ops, h, c, j, db, id);
          }
        }
      }
    }
  }

  // ---- exactly when --------------------------------------------------------------------------------

  /** A refresh of a cache filed under entry `s`, whose token is checked when the journal ends at `m`
      and whose changed ids are read when it ends at `n`. */
  ghost predicate IsRefresh(states: seq<Session>, ops: seq<Op>, old_: Cache, h: nat, t: nat, c: nat, at: Id -> nat, j: nat,
                            byId: map<Id, Row>, keep: Row -> bool, s: int, m: int, n: int)
  {
    && Run(states, ops) && Installed(states[0]) && h <= t <= c <= j < |states| && (forall id :: c <= at(id) <= j)
    && old_.seq_ == s && AllAgree(old_, states[h], keep) && TrustedIn(old_, Committed(states[t]))
    && EndsAt(states[t], m) && EndsAt(states[c], n)
    && Refreshed(byId, old_, ChangedSince(Committed(states[c]), s), states, at, keep)
  }

  ghost predicate EndsAt(s: Session, n: int) { Window(Committed(s).journal) && Newest(Committed(s).journal) == n }

  /** The cache the refresh files agrees with every state it can be used in. */
  ghost predicate Kept(states: seq<Session>, h: nat, j: nat, byId: map<Id, Row>, keep: Row -> bool)
    requires h < |states| && j < |states|
  {
    && Window(Committed(states[h]).journal)
    && AllAgree(Cache(Newest(Committed(states[h]).journal), HeadAt(states[h]).token, byId), states[j], keep)
  }

  /** Every refresh with those numbers keeps the agreement. */
  ghost predicate AlwaysKept(keep: Row -> bool, s: int, m: int, n: int) {
    forall states, ops, old_, h: nat, t: nat, c: nat, at, j: nat, byId ::
      IsRefresh(states, ops, old_, h, t, c, at, j, byId, keep, s, m, n) ==> Kept(states, h, j, byId, keep)
  }

  /** When even the new head is pruned by the time the ids are read, the cache is never used again. */
  lemma PrunedHeadIsNeverTrusted(states: seq<Session>, ops: seq<Op>, h: nat, t: nat, c: nat, j: nat, byId: map<Id, Row>, keep: Row -> bool)
    requires Run(states, ops) && Installed(states[0]) && h <= t <= c <= j < |states|
    requires Window(Committed(states[t]).journal) && Window(Committed(states[c]).journal)
    requires Newest(Committed(states[c]).journal) >= Newest(Committed(states[t]).journal) + RETENTION
    ensures Kept(states, h, j, byId, keep)
  {
    HeadIsDrawn(states, ops, h, j);
    CommittedIsForGood(states, ops, h, t);
    CommittedIsForGood(states, ops, c, j);
    assert Visible(states[t], Committed(states[t]));
    assert Continues(Committed(states[h]), Committed(states[t]));
    var new_ := Cache(Newest(Committed(states[h]).journal), HeadAt(states[h]).token, byId);
    forall db | Visible(states[j], db) ensures !TrustedIn(new_, db) {
      assert Continues(Committed(states[c]), db);
    }
  }

  /** The exact condition: every refresh of a cache filed under entry `s`, with its token checked while
      the journal ends at `m` and its ids read while it ends at `n`, keeps the agreement, if and only if
      no entry after `s` had been pruned by then, or everything up to `m` had, so that the new head is
      gone too. */
  lemma RefreshKeepsAgreementExactly(keep: Row -> bool, row: Row, s: int, m: int, n: int)
    requires keep(row) && 1 <= s <= m < s + RETENTION && m <= n
    ensures AlwaysKept(keep, s, m, n) <==> n <= s + RETENTION || n >= m + RETENTION
  {
    if n <= s + RETENTION || n >= m + RETENTION {
      forall states, ops, old_, h: nat, t: nat, c: nat, at, j: nat, byId
        | IsRefresh(states, ops, old_, h, t, c, at, j, byId, keep, s, m, n)
        ensures Kept(states, h, j, byId, keep)
      {
        RefreshIsKept(states, ops, old_, h, t, c, at, j, byId, keep, s, m, n);
      }
    } else {
      var states, ops, old_, h, c, byId := PrunedBetweenStatementsIsMissed(keep, row, s, m, n);
      assert IsRefresh(states, ops, old_, h, h, c, Always(c), c, byId, keep, s, m, n);
    }
  }

  lemma RefreshIsKept(states: seq<Session>, ops: seq<Op>, old_: Cache, h: nat, t: nat, c: nat, at: Id -> nat, j: nat,
                      byId: map<Id, Row>, keep: Row -> bool, s: int, m: int, n: int)
    requires IsRefresh(states, ops, old_, h, t, c, at, j, byId, keep, s, m, n)
    requires n <= s + RETENTION || n >= m + RETENTION
    ensures Kept(states, h, j, byId, keep)
  {
    if n <= s + RETENTION {
      RefreshKeepsAgreement(states, ops, old_, h, t, c, at, j, byId, keep);
    } else {
      PrunedHeadIsNeverTrusted(states, ops, h, t, c, j, byId, keep);
    }
  }

  // ---- a refresh that misses a row ------------------------------------------------------------------

  /** A store holding `b`, just installed, and a writer that rewrites `b` again and again, but whose
      change number `s` adds `a`. */
  ghost function Start(row: Row): Session { Session(Db(map["b" := row], Append(map[], Entry("", 0))), [], {0}) }

  function Rewrite(row: Row, s: nat, k: nat): Op {
    if k + 1 == s then Insert("a", row, 2 * k + 1) else Update("b", "b", row, 2 * k + 1, 2 * k + 2)
  }

  ghost function Busy(row: Row, s: nat, k: nat): Session {
    if k == 0 then Start(row) else Step(Busy(row, s, k - 1), Rewrite(row, s, k - 1))
  }

  /** What the store is after `k` of those changes. */
  ghost predicate BusyOk(x: Session, row: Row, s: nat, k: nat) {
    && x.saved == [] && x.now.particles == (if k < s then map["b" := row] else map["a" := row, "b" := row])
    && Window(x.now.journal) && Newest(x.now.journal) == 1 + k
    && (forall i :: i in x.now.journal && i > s + 1 ==> x.now.journal[i].id == "b")
    && (forall y :: y in x.drawn ==> y < 2 * k + 1)
  }

  lemma BusyStep(x: Session, row: Row, s: nat, k: nat)
    requires BusyOk(x, row, s, k) && s >= 1
    ensures Allowed(x, Rewrite(row, s, k)) && BusyOk(Step(x, Rewrite(row, s, k)), row, s, k + 1)
  {
    AppendWindow(x.now.journal, if k + 1 == s then Entry("a", 2 * k + 1) else Entry("b", 2 * k + 2));
    if k + 1 == s {
      assert "a" !in x.now.particles;
    } else {
      assert x.now.particles["b" := row] == x.now.particles;
    }
  }

  lemma {:induction false} BusyFacts(row: Row, s: nat, k: nat)
    requires s >= 1
    ensures BusyOk(Busy(row, s, k), row, s, k)
  {
    if k == 0 {
      FirstEntry(Entry("", 0));
    } else {
      BusyFacts(row, s, k - 1);
      BusyStep(Busy(row, s, k - 1), row, s, k - 1);
    }
  }

  ghost function BusyStates(row: Row, s: nat, n: nat): seq<Session> { seq(n + 1, i requires 0 <= i <= n => Busy(row, s, i)) }

  function Rewrites(row: Row, s: nat, n: nat): seq<Op> { seq(n, i requires 0 <= i < n => Rewrite(row, s, i)) }

  lemma BusyRun(row: Row, s: nat, n: nat)
    requires s >= 1
    ensures Run(BusyStates(row, s, n), Rewrites(row, s, n)) && Installed(BusyStates(row, s, n)[0])
  {
    var states, ops := BusyStates(row, s, n), Rewrites(row, s, n);
    forall i | 0 <= i < n ensures Allowed(states[i], ops[i]) {
      BusyFacts(row, s, i);
      BusyStep(Busy(row, s, i), row, s, i);
    }
    assert states[0] == Session(Db(map["b" := row], Append(map[], Entry("", 0))), [], {0});
  }

  function Always(n: nat): Id -> nat { _ => n }

  /** The ids read from a journal that has lost the entry for `a`, and what the refresh makes of them. */
  lemma MissedRow(head: Db, db: Db, keep: Row -> bool, row: Row, s: int, m: int, n: int)
    requires Continues(head, db) && Newest(head.journal) == m && Newest(db.journal) == n
    requires 1 <= s && s + RETENTION < n < m + RETENTION
    requires db.particles == map["a" := row, "b" := row] && keep(row)
    requires forall i :: i in db.journal && i > s + 1 ==> db.journal[i].id == "b"
    ensures var stale := map["b" := row];
      && (forall id :: SameAt(stale, if id in ChangedSince(db, s) then Cached(db.particles, keep) else stale, id))
      && !Agrees(Cache(m, head.journal[m].token, stale), db, keep)
  {
    assert ChangedSince(db, s) <= {"b"};
    assert "a" !in ChangedSince(db, m);
    assert !SameAt(map["b" := row], Cached(db.particles, keep), "a");
    assert m in db.journal && m in head.journal;
  }

  /** For all numbers outside that condition a refresh can miss a row for good: the reader is far
      behind, checks its token, and the changes up to its id read prune the one entry that named `a`.
      The cache filed under the new head lacks `a`, with nothing in the journal to say so. */
  lemma PrunedBetweenStatementsIsMissed(keep: Row -> bool, row: Row, s: int, m: int, n: int)
    returns (states: seq<Session>, ops: seq<Op>, old_: Cache, h: nat, c: nat, byId: map<Id, Row>)
    requires keep(row) && 1 <= s <= m < s + RETENTION && m <= n && s + RETENTION < n < m + RETENTION
    ensures IsRefresh(states, ops, old_, h, h, c, Always(c), c, byId, keep, s, m, n)
    ensures !Kept(states, h, c, byId, keep)
  {
    h, c := m - 1, n - 1;
    states, ops := BusyStates(row, s, c), Rewrites(row, s, c);
    byId := map["b" := row];
    old_ := EdgeReader(states, ops, h, keep, row, s);
    BusyRun(row, s, c);
    BusyFacts(row, s, h);
    BusyFacts(row, s, c);
    CommittedIsForGood(states, ops, h, c);
    assert states[h] == Busy(row, s, h) && states[c] == Busy(row, s, c);
    assert Visible(states[c], states[c].now);
    MissedRow(states[h].now, states[c].now, keep, row, s, m, n);
  }

  /** The cache built while the journal ended at `s` is trusted as long as that entry is retained. */
  lemma EdgeReader(states: seq<Session>, ops: seq<Op>, h: nat, keep: Row -> bool, row: Row, s: nat) returns (old_: Cache)
    requires 1 <= s <= h + 1 <= |states| && h + 1 < s + RETENTION && keep(row)
    requires states == BusyStates(row, s, |states| - 1) && ops == Rewrites(row, s, |states| - 1)
    ensures old_.seq_ == s && old_.byId == map["b" := row]
    ensures AllAgree(old_, states[h], keep) && TrustedIn(old_, Committed(states[h]))
  {
    var b := s - 1;
    BusyRun(row, s, |states| - 1);
    BusyFacts(row, s, b);
    BusyFacts(row, s, h);
    BuildAgrees(states, ops, b, b, h, keep);
    assert states[b] == Busy(row, s, b) && states[h] == Busy(row, s, h);
    old_ := Cache(s, HeadAt(states[b]).token, Cached(Busy(row, s, b).now.particles, keep));
    assert old_.byId == map["b" := row];
    CommittedIsForGood(states, ops, b, h);
    assert Visible(states[h], states[h].now);
    assert Continues(states[b].now, states[h].now);
  }
}
