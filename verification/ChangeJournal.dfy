/** Migration 054 and particles/store: the particle change journal, the triggers that keep it,
    and the cache refresh that trusts it. */
module ChangeJournal {

  type Id = string
  type Row = string
  type Token = nat

  const RETENTION: int := 100_000

  /** One journal entry: a row changed. The token is random, and never drawn twice. */
  datatype Entry = Entry(id: Id, token: Token)

  /** The `particles` table and the `particle_changes` table, keyed by rowid. */
  datatype Db = Db(particles: map<Id, Row>, journal: map<int, Entry>)

  // ---- the tables ---------------------------------------------------------------

  lemma SomeKey<K>(keys: set<K>) returns (k: K)
    requires keys != {}
    ensures k in keys
  {
    k :| k in keys;
  }

  lemma {:induction false} NewestExists(keys: set<int>) returns (n: int)
    requires keys != {}
    ensures n in keys && forall k :: k in keys ==> k <= n
    decreases keys
  {
    var x := SomeKey(keys);
    n := x;
    if keys != {x} {
      var m := NewestExists(keys - {x});
      assert forall k :: k in keys ==> k == x || k in keys - {x};
      if m > x { n := m; }
    }
  }

  ghost predicate IsNewest(journal: map<int, Entry>, n: int) {
    n in journal && forall k :: k in journal ==> k <= n
  }

  ghost function Newest(journal: map<int, Entry>): (n: int)
    requires journal != map[]
    ensures IsNewest(journal, n)
  {
    assert exists n :: IsNewest(journal, n) by {
      var n := NewestExists(journal.Keys);
      assert IsNewest(journal, n);
    }
    var n :| IsNewest(journal, n); n
  }

  /** The prune trigger, fired by the insertion of `seq`. */
  function Pruned(journal: map<int, Entry>, seq_: int): map<int, Entry> {
    map k | k in journal && k > seq_ - RETENTION :: journal[k]
  }

  /** An insertion into `particle_changes`: the next rowid, then the prune trigger. */
  ghost function Append(journal: map<int, Entry>, e: Entry): map<int, Entry> {
    var next := if journal == map[] then 1 else Newest(journal) + 1;
    Pruned(journal[next := e], next)
  }

  /** One row's change: the table becomes `after`, and the row's id is journalled. */
  ghost function Touched(db: Db, id: Id, after: map<Id, Row>, token: Token): Db {
    Db(after, Append(db.journal, Entry(id, token)))
  }

  ghost function InsertRow(db: Db, id: Id, row: Row, token: Token): Db {
    if id in db.particles then db else Touched(db, id, db.particles[id := row], token)
  }

  ghost function DeleteRow(db: Db, id: Id, token: Token): Db {
    if id !in db.particles then db else Touched(db, id, db.particles - {id}, token)
  }

  /** An update of the row `id`; one that changes the id journals the old id, then the new. */
  ghost function UpdateRow(db: Db, id: Id, id': Id, row: Row, token: Token, token': Token): Db {
    if id !in db.particles || (id' != id && id' in db.particles) then db
    else if id == id' then Touched(db, id, db.particles[id := row], token')
    else Touched(Touched(db, id, db.particles - {id}, token), id', (db.particles - {id})[id' := row], token')
  }

  /** The tables and their triggers, updated in place. A statement that breaks the primary
      key, or names no row, changes nothing. */
  class JournalledStore {
    var particles: map<Id, Row>
    var journal: map<int, Entry>

    ghost function Tables(): Db reads this { Db(particles, journal) }

    constructor (particles: map<Id, Row>, token: Token)
      ensures Tables() == Db(particles, Append(map[], Entry("", token)))
    {
      this.particles := particles;
      journal := map[];
      new;
      AppendChange("", token);
    }

    /** INSERT INTO particle_changes, and `trg_particle_changes_prune`. */
    method AppendChange(id: Id, token: Token)
      modifies this`journal
      ensures journal == Append(old(journal), Entry(id, token))
    {
      var next := 1;
      if journal != map[] {
        ghost var top := Newest(journal);
        var n :| n in journal.Keys && forall k :: k in journal.Keys ==> k <= n;
        next := n + 1;
      }
      journal := journal[next := Entry(id, token)];
      journal := map k | k in journal && k > next - RETENTION :: journal[k];
    }

    method Insert(id: Id, row: Row, token: Token)
      modifies this
      ensures Tables() == InsertRow(old(Tables()), id, row, token)
      ensures id !in old(particles) ==> particles == old(particles)[id := row] && journal == Append(old(journal), Entry(id, token))
      ensures id in old(particles) ==> particles == old(particles) && journal == old(journal)
    {
      if id in particles { return; }
      particles := particles[id := row];
      AppendChange(id, token);
    }

    method Delete(id: Id, token: Token)
      modifies this
      ensures Tables() == DeleteRow(old(Tables()), id, token)
      ensures particles == old(particles) - {id}
      ensures journal == if id in old(particles) then Append(old(journal), Entry(id, token)) else old(journal)
    {
      if id !in particles { return; }
      particles := particles - {id};
      AppendChange(id, token);
    }

    method Update(id: Id, id': Id, row: Row, token: Token, token': Token)
      modifies this
      ensures Tables() == UpdateRow(old(Tables()), id, id', row, token, token')
      ensures id in old(particles) && (id' == id || id' !in old(particles)) ==> particles == (old(particles) - {id})[id' := row]
    {
      if id !in particles || (id' != id && id' in particles) { return; }
      particles := (particles - {id})[id' := row];
      assert id == id' ==> particles == old(particles)[id := row];
      if id != id' {
        AppendChange(id, token);
      }
      AppendChange(id', token');
    }
  }

  // ---- the window ---------------------------------------------------------------

  /** The journal holds exactly the newest entries: a contiguous window, `RETENTION` long
      once that many were ever written. */
  ghost predicate Window(journal: map<int, Entry>) {
    && journal != map[]
    && Newest(journal) >= 1
    && forall k :: k in journal <==> 1 <= k <= Newest(journal) && k > Newest(journal) - RETENTION
  }

  lemma FirstEntry(e: Entry)
    ensures Window(Append(map[], e)) && Newest(Append(map[], e)) == 1
  {
    var j := Append(map[], e);
    assert 1 in j;
  }

  lemma AppendWindow(journal: map<int, Entry>, e: Entry)
    requires Window(journal)
    ensures var j := Append(journal, e);
      && Window(j)
      && Newest(j) == Newest(journal) + 1
      && j[Newest(j)] == e
      && forall k :: k in j && k != Newest(j) ==> k in journal && j[k] == journal[k]
  {
    var j := Append(journal, e);
    var n := Newest(journal) + 1;
    assert n in j;
    assert IsNewest(j, n);
  }

  // ---- the reader ---------------------------------------------------------------

  /** The newest entry of `seen` is still in `now`, with its token. */
  ghost predicate Trusts(seen: Db, now: Db)
    requires Window(seen.journal)
  {
    var n := Newest(seen.journal);
    n in now.journal && now.journal[n].token == seen.journal[n].token
  }

  /** The ids journalled after entry `seq_`; the installation entry's empty id is not one. */
  function ChangedSince(now: Db, seq_: int): set<Id> {
    set k | k in now.journal && k > seq_ && now.journal[k].id != "" :: now.journal[k].id
  }

  /** The two tables hold the same row, or none, at `id`. */
  predicate SameAt(a: map<Id, Row>, b: map<Id, Row>, id: Id) {
    (id in a <==> id in b) && (id in a && id in b ==> a[id] == b[id])
  }

  /** A reader that remembers `seen` and still finds its entry knows every row that differs. */
  ghost predicate Follows(seen: Db, now: Db)
    requires Window(seen.journal)
  {
    Trusts(seen, now) ==>
      forall id :: id !in ChangedSince(now, Newest(seen.journal)) ==> SameAt(seen.particles, now.particles, id)
  }

  /** The rows a cache holds. */
  function Cached(particles: map<Id, Row>, keep: Row -> bool): map<Id, Row> {
    map id | id in particles && keep(particles[id]) :: particles[id]
  }

  /** The cache holds the rows worth caching, as they are, and no other. */
  ghost predicate HoldsExactly(byId: map<Id, Row>, particles: map<Id, Row>, keep: Row -> bool) {
    forall id :: (id in byId <==> id in particles && keep(particles[id])) && (id in byId && id in particles ==> byId[id] == particles[id])
  }

  /** Re-read only the changed rows of a cached table. */
  method ApplyChanges(cache: map<Id, Row>, changed: seq<Id>, particles: map<Id, Row>, keep: Row -> bool)
    returns (byId: map<Id, Row>)
    ensures forall id :: SameAt(byId, if id in changed then Cached(particles, keep) else cache, id)
  {
    byId := cache;
    for n := 0 to |changed|
      invariant forall id :: SameAt(byId, if id in changed[..n] then Cached(particles, keep) else cache, id)
    {
      var id := changed[n];
      assert changed[..n + 1] == changed[..n] + [id];
      if id in particles && keep(particles[id]) {
        byId := byId[id := particles[id]];
      } else {
        byId := byId - {id};
      }
    }
    assert changed[..|changed|] == changed;
  }

  /** A refresh by re-reading the changed rows gives the cache a full rebuild would give. */
  lemma RefreshEqualsRebuild(seen: Db, now: Db, byId: map<Id, Row>, changed: seq<Id>, keep: Row -> bool)
    requires Window(seen.journal) && Follows(seen, now) && Trusts(seen, now)
    requires (set id | id in changed) == ChangedSince(now, Newest(seen.journal))
    requires forall id :: SameAt(byId, if id in changed then Cached(now.particles, keep) else Cached(seen.particles, keep), id)
    ensures byId == Cached(now.particles, keep) && HoldsExactly(byId, now.particles, keep)
  {
    forall id ensures SameAt(byId, Cached(now.particles, keep), id) {
      if id !in changed {
        assert id !in (set x | x in changed);
        assert SameAt(seen.particles, now.particles, id);
      }
    }
    SameEverywhere(byId, Cached(now.particles, keep));
  }

  lemma SameEverywhere(a: map<Id, Row>, b: map<Id, Row>)
    requires forall id :: SameAt(a, b, id)
    ensures a == b
  {
    assert a.Keys == b.Keys by {
      forall id ensures id in a <==> id in b { assert SameAt(a, b, id); }
    }
    forall id | id in a ensures a[id] == b[id] { assert SameAt(a, b, id); }
  }

  // ---- runs with transactions ---------------------------------------------------

  /** A store mid-run: the tables as the open transaction sees them, the tables each enclosing
      savepoint (outermost first, so the committed tables) would restore, and every token drawn. */
  datatype Session = Session(now: Db, saved: seq<Db>, drawn: set<Token>)

  datatype Op =
    | Insert(id: Id, row: Row, token: Token)
    | Update(id: Id, id': Id, row: Row, token: Token, token': Token)
    | Delete(id: Id, token: Token)
    | Savepoint
    | Release
    | Rollback

  /** Tokens are fresh, and a particle's id is never empty. */
  ghost predicate Allowed(s: Session, op: Op) {
    match op
    case Insert(id, _, t) => id != "" && t !in s.drawn
    case Update(id, id', _, t, t') => id != "" && id' != "" && t !in s.drawn && t' !in s.drawn && t != t'
    case Delete(id, t) => id != "" && t !in s.drawn
    case _ => true
  }

  ghost function Step(s: Session, op: Op): Session {
    match op
    case Insert(id, row, t) => s.(now := InsertRow(s.now, id, row, t), drawn := s.drawn + {t})
    case Update(id, id', row, t, t') => s.(now := UpdateRow(s.now, id, id', row, t, t'), drawn := s.drawn + {t, t'})
    case Delete(id, t) => s.(now := DeleteRow(s.now, id, t), drawn := s.drawn + {t})
    case Savepoint => s.(saved := s.saved + [s.now])
    case Release => if s.saved == [] then s else s.(saved := s.saved[..|s.saved| - 1])
    case Rollback => if s.saved == [] then s else s.(now := s.saved[|s.saved| - 1], saved := s.saved[..|s.saved| - 1])
  }

  /** The states some session can read: inside the transaction, or as an enclosing savepoint
      or the last commit left them. */
  ghost predicate Visible(s: Session, db: Db) {
    db == s.now || db in s.saved
  }

  /** `b` came after `a` with no rollback past `a`. */
  ghost predicate Precedes(a: Db, b: Db)
    requires Window(a.journal) && Window(b.journal)
  {
    && Newest(a.journal) <= Newest(b.journal)
    && (Newest(a.journal) == Newest(b.journal) ==> a.particles == b.particles)
    && Follows(a, b)
  }

  ghost predicate Drawn(db: Db, drawn: set<Token>) {
    forall k :: k in db.journal ==> db.journal[k].token in drawn
  }

  ghost predicate Inv(s: Session) {
    && (forall db :: Visible(s, db) ==> Window(db.journal) && Drawn(db, s.drawn))
    && (forall i, j :: 0 <= i <= j < |s.saved| ==> Precedes(s.saved[i], s.saved[j]))
    && (forall i :: 0 <= i < |s.saved| ==> Precedes(s.saved[i], s.now))
  }

  /** Everything a reader of `s` can look at follows what `seen` remembers. */
  ghost predicate AllFollow(seen: Db, s: Session)
    requires Window(seen.journal)
  {
    forall db :: Visible(s, db) ==> Follows(seen, db)
  }

  /** One journalled change keeps every reader's knowledge complete. */
  lemma TouchFollows(seen: Db, db: Db, id: Id, after: map<Id, Row>, token: Token, drawn: set<Token>)
    requires Window(seen.journal) && Drawn(seen, drawn) && Window(db.journal) && Follows(seen, db)
    requires token !in drawn && id != "" && forall x :: x != id ==> SameAt(db.particles, after, x)
    ensures var db' := Touched(db, id, after, token);
      && Follows(seen, db') && Window(db'.journal) && Newest(db'.journal) == Newest(db.journal) + 1
  {
    var db' := Touched(db, id, after, token);
    var n, m := Newest(seen.journal), Newest(db.journal) + 1;
    AppendWindow(db.journal, Entry(id, token));
    if Trusts(seen, db') {
      assert n != m && db'.journal[n] == db.journal[n];
      forall x | x !in ChangedSince(db', n) ensures SameAt(seen.particles, db'.particles, x) {
        assert db'.journal[m].id in ChangedSince(db', n);
        assert ChangedSince(db, n) <= ChangedSince(db', n) by {
          forall k | k in db.journal && k > n && db.journal[k].id != "" ensures db.journal[k].id in ChangedSince(db', n) {
            assert k in db'.journal && db'.journal[k] == db.journal[k];
          }
        }
        assert SameAt(db.particles, after, x);
      }
    }
  }

  lemma TouchDrawn(db: Db, id: Id, after: map<Id, Row>, token: Token, drawn: set<Token>)
    requires Window(db.journal) && Drawn(db, drawn)
    ensures Drawn(Touched(db, id, after, token), drawn + {token})
  {
    AppendWindow(db.journal, Entry(id, token));
  }

  /** What one write does to the tables, seen by a reader who remembers `seen`. */
  lemma WriteFollows(seen: Db, s: Session, op: Op)
    requires Window(seen.journal) && Drawn(seen, s.drawn)
    requires Window(s.now.journal) && Drawn(s.now, s.drawn) && Follows(seen, s.now)
    requires Allowed(s, op) && (op.Insert? || op.Update? || op.Delete?)
    ensures var now' := Step(s, op).now;
      && Follows(seen, now') && Window(now'.journal) && Drawn(now', Step(s, op).drawn)
      && (now' == s.now || Newest(now'.journal) > Newest(s.now.journal))
  {
    var p := s.now.particles;
    match op
    case Insert(id, row, t) =>
      if id !in p {
        TouchFollows(seen, s.now, id, p[id := row], t, s.drawn);
        TouchDrawn(s.now, id, p[id := row], t, s.drawn);
      }
    case Delete(id, t) =>
      if id in p {
        TouchFollows(seen, s.now, id, p - {id}, t, s.drawn);
        TouchDrawn(s.now, id, p - {id}, t, s.drawn);
      }
    case Update(id, id', row, t, t') =>
      if id in p && id == id' {
        TouchFollows(seen, s.now, id, p[id := row], t', s.drawn);
        TouchDrawn(s.now, id, p[id := row], t', s.drawn);
      } else if id in p && id' !in p {
        var mid := Touched(s.now, id, p - {id}, t);
        TouchFollows(seen, s.now, id, p - {id}, t, s.drawn);
        TouchDrawn(s.now, id, p - {id}, t, s.drawn);
        TouchFollows(seen, mid, id', (p - {id})[id' := row], t', s.drawn + {t});
        TouchDrawn(mid, id', (p - {id})[id' := row], t', s.drawn + {t});
      }
  }

  lemma StepKeepsInv(s: Session, op: Op)
    requires Inv(s) && Allowed(s, op)
    ensures Inv(Step(s, op)) && s.drawn <= Step(s, op).drawn
  {
    assert Visible(s, s.now);
    assert forall i :: 0 <= i < |s.saved| ==> Visible(s, s.saved[i]);
    if op.Insert? || op.Update? || op.Delete? {
      WriteFollows(s.now, s, op);
      var s' := Step(s, op);
      forall i | 0 <= i < |s.saved| ensures Precedes(s.saved[i], s'.now) {
        WriteFollows(s.saved[i], s, op);
      }
    }
  }

  lemma StepKeepsFollowing(seen: Db, s: Session, op: Op)
    requires Inv(s) && Allowed(s, op)
    requires Window(seen.journal) && Drawn(seen, s.drawn) && AllFollow(seen, s)
    ensures AllFollow(seen, Step(s, op)) && Drawn(seen, Step(s, op).drawn)
  {
    assert Visible(s, s.now);
    if op.Insert? || op.Update? || op.Delete? {
      WriteFollows(seen, s, op);
    }
    var s' := Step(s, op);
    forall db | Visible(s', db) ensures Follows(seen, db) {
      if db != s'.now || op.Savepoint? || op.Release? || op.Rollback? { assert Visible(s, db); }
    }
  }

  /** A reader of any visible state starts out knowing everything about every other one. */
  lemma ReaderStarts(seen: Db, s: Session)
    requires Inv(s) && Visible(s, seen)
    ensures Window(seen.journal) && Drawn(seen, s.drawn) && AllFollow(seen, s)
  {
    forall db | Visible(s, db) ensures Follows(seen, db) {
      assert Precedes(seen, db) || Precedes(db, seen) || db == seen;
      if Precedes(db, seen) && Trusts(seen, db) {
        assert Newest(db.journal) == Newest(seen.journal);
      }
    }
  }

  /** A run: each state is the one before it after an allowed operation. */
  ghost predicate Run(states: seq<Session>, ops: seq<Op>) {
    && |states| == |ops| + 1
    && forall i :: 0 <= i < |ops| ==> Allowed(states[i], ops[i]) && states[i + 1] == Step(states[i], ops[i])
  }

  /** A store as the migration leaves it. */
  ghost predicate Installed(s: Session) {
    exists particles, token ::
      s == Session(Db(particles, Append(map[], Entry("", token))), [], {token})
  }

  lemma {:induction false} RunKeepsInv(states: seq<Session>, ops: seq<Op>, i: nat)
    requires Run(states, ops) && Installed(states[0]) && i < |states|
    ensures Inv(states[i])
  {
    if i == 0 {
      var particles, token :| states[0] == Session(Db(particles, Append(map[], Entry("", token))), [], {token});
      FirstEntry(Entry("", token));
    } else {
      RunKeepsInv(states, ops, i - 1);
      StepKeepsInv(states[i - 1], ops[i - 1]);
    }
  }

  lemma {:induction false} RunKeepsFollowing(states: seq<Session>, ops: seq<Op>, i: nat, j: nat, seen: Db)
    requires Run(states, ops) && Installed(states[0]) && i <= j < |states| && Visible(states[i], seen)
    ensures Window(seen.journal) && Drawn(seen, states[j].drawn) && AllFollow(seen, states[j])
    decreases j
  {
    RunKeepsInv(states, ops, i);
    ReaderStarts(seen, states[i]);
    if i < j {
      RunKeepsFollowing(states, ops, i, j - 1, seen);
      RunKeepsInv(states, ops, j - 1);
      StepKeepsFollowing(seen, states[j - 1], ops[j - 1]);
    }
  }

  /** Over every run of row changes, savepoints and rollbacks, the retained sequence numbers
      of every visible journal are a contiguous window ending at the newest. */
  lemma JournalIsAWindow(states: seq<Session>, ops: seq<Op>, i: nat, db: Db)
    requires Run(states, ops) && Installed(states[0]) && i < |states| && Visible(states[i], db)
    ensures Window(db.journal) && forall k :: k in db.journal ==> Newest(db.journal) - RETENTION < k <= Newest(db.journal)
  {
    RunKeepsInv(states, ops, i);
  }

  /** Over every such run, a cache built from any state a session could see, and refreshed at
      any later state it can see in which its remembered entry is still there with its token,
      equals a cache rebuilt from scratch: re-reading only the journalled ids loses nothing. */
  lemma RefreshIsSound(states: seq<Session>, ops: seq<Op>, i: nat, j: nat, seen: Db, now: Db,
                       byId: map<Id, Row>, changed: seq<Id>, keep: Row -> bool)
    requires Run(states, ops) && Installed(states[0]) && i <= j < |states|
    requires Visible(states[i], seen) && Visible(states[j], now)
    requires seen.journal != map[] && Newest(seen.journal) in now.journal
    requires now.journal[Newest(seen.journal)].token == seen.journal[Newest(seen.journal)].token
    requires (set id | id in changed) == ChangedSince(now, Newest(seen.journal))
    requires forall id :: SameAt(byId, if id in changed then Cached(now.particles, keep) else Cached(seen.particles, keep), id)
    ensures byId == Cached(now.particles, keep) && HoldsExactly(byId, now.particles, keep)
  {
    RunKeepsFollowing(states, ops, i, j, seen);
    RefreshEqualsRebuild(seen, now, byId, changed, keep);
  }
}
