/** particles/corpus/deposit.py: the deposit as it updates the corpus tables. */
module DepositTables {
  import opened Options
  import opened Deposits
  import opened DepositRuns
  import opened DepositRepeats

  class Tables {
    var entries: map<Id, Entry>
    var snaps: map<Id, Snap>
    var events: seq<Event>

    ghost function Now(): Corpus
      reads this
    {
      Corpus(entries, snaps, events)
    }

    constructor ()
      ensures Now() == Corpus(map[], map[], []) && WellFormed(Now())
    {
      entries, snaps, events := map[], map[], [];
    }

    /** `get_entry_by_uri`. */
    method GetEntryByUri(uri: string) returns (found: Found)
      ensures found == ByUri(Now(), uri)
    {
      found := Nobody;
      var left := entries.Keys;
      ghost var holders := Holders(Now(), uri);
      ghost var first, second := 0, 0;
      while left != {}
        invariant left <= entries.Keys
        invariant found == Nobody ==> holders <= left
        invariant found.Held? ==> found.entry in holders && found.entry !in left && holders <= left + {found.entry}
        invariant found == Several ==> first in holders && second in holders && first != second
        decreases left
      {
        var e :| e in left;
        left := left - {e};
        if entries[e].uri == Some(uri) {
          if found.Held? { first, second := found.entry, e; }
          found := if found == Nobody then Held(e) else Several;
        }
      }
      assert found.Held? ==> holders == {found.entry};
    }

    /** `get_latest_snapshot`. */
    method GetLatest(e: Id) returns (latest: Option<Id>)
      requires TimesDistinct(Now())
      ensures latest == Latest(Now(), e)
    {
      latest := None;
      var left := snaps.Keys;
      while left != {}
        invariant left <= snaps.Keys
        invariant latest.Some? ==> latest.value in snaps && snaps[latest.value].entry == e
        invariant forall y :: y in snaps && y !in left && snaps[y].entry == e ==>
                    latest.Some? && snaps[y].capturedAt <= snaps[latest.value].capturedAt
        decreases left
      {
        var x :| x in left;
        left := left - {x};
        if snaps[x].entry == e && (latest.None? || snaps[latest.value].capturedAt < snaps[x].capturedAt) {
          latest := Some(x);
        }
      }
      if latest.Some? { LatestIs(Now(), e, latest.value); }
    }

    /** The loop of `_unchanged_snapshot_id` over a chain of REVISIT records, cyclic or not. */
    method FindHolder(latest: Id) returns (holder: Id)
      ensures holder == Holder(snaps, latest)
    {
      var cur: Option<Id> := Some(latest);
      var seen: set<Id> := {};
      while cur.Some? && cur.value in snaps && snaps[cur.value].rtype == Revisit && snaps[cur.value].refersTo.Some? && cur.value !in seen
        invariant Walk(snaps, cur, seen) == Walk(snaps, Some(latest), {})
        decreases snaps.Keys - seen
      {
        seen := seen + {cur.value};
        cur := snaps[cur.value].refersTo;
      }
      holder := if cur.Some? && cur.value in snaps then cur.value else latest;
    }

    method UnchangedSnapshot(id: Id, hash: string, stype: string, date: Option<int>) returns (reused: Option<Id>)
      requires id in entries && TimesDistinct(Now())
      ensures reused == Unchanged(Now(), id, hash, stype, date)
    {
      if entries[id].stype != stype { return None; }
      var latest := GetLatest(id);
      if latest.None? || snaps[latest.value].hash != hash { return None; }
      if snaps[latest.value].rtype == Absent { return None; }
      var holder := FindHolder(latest.value);
      if date.Some? && (holder !in snaps || snaps[holder].published != date) { return None; }
      return Some(holder);
    }

    /** `_release_capture_uri`. */
    method ReleaseCaptureUri(id: Id, to: string)
      requires id in entries
      modifies this`entries, this`events
      ensures Now() == Release(old(Now()), id, to)
    {
      var released := entries[id].uri;
      entries := entries[id := entries[id].(uri := None)];
      events := events + [UriReleased(id, released, to)];
    }

    method AddTags(id: Id, tags: set<string>)
      requires id in entries
      modifies this`entries
      ensures entries == old(entries)[id := old(entries)[id].(tags := old(entries)[id].tags + tags)]
    {
      entries := entries[id := entries[id].(tags := entries[id].tags + tags)];
    }

    /** `_reconcile_project_keys`, given the entry as it was read. */
    method ReconcileProjectKeys(c: Config, id: Id, read: Entry, tags: set<string>)
      requires id in entries
      modifies this`entries, this`events
      ensures Now() == ReconcileKeys(c, old(Now()), id, read, tags)
    {
      var incoming := c.projectKeys(tags);
      if incoming == {} { return; }
      if c.isGlobal(read.tags) { return; }
      var missing := incoming - c.projectKeys(read.tags);
      if missing == {} { return; }
      AddTags(id, KeyTags(c, missing));
      events := events + [KeysAssigned(id, missing)];
    }

    method ReconcileFetchPolicy(id: Id, requested: Option<Policy>)
      requires id in entries
      modifies this`entries
      ensures Now() == ReconcilePolicy(old(Now()), id, requested)
    {
      if requested.None? || entries[id].policy == requested.value { return; }
      entries := entries[id := entries[id].(policy := requested.value)];
    }

    method ReconcileMaskedTags(id: Id, read: Entry, tags: set<string>)
      requires id in entries
      modifies this`entries
      ensures Now() == ReconcileMasked(old(Now()), id, read, tags)
    {
      var missing := REFRESH_MASKED_TAGS * tags - read.tags;
      if missing == {} {
        assert entries[id].tags + missing == entries[id].tags;
        assert entries == entries[id := entries[id]];
        return;
      }
      AddTags(id, missing);
    }

    /** The URI-R tier: the refusal comes before anything is changed. */
    method MatchUri(uri: string, depositor: string, confined: Option<string>) returns (stage: Stage, ghost was: Corpus)
      modifies this`entries, this`events
      ensures was == old(Now()) && stage == UriStage(was, uri, depositor, confined)
      ensures Now() == if stage.Go? then stage.corpus else was
    {
      was := Now();
      var found := GetEntryByUri(uri);
      ByUriExact(Now(), uri);
      if found == Several { return Raise, was; }
      if found == Nobody { return Go(Corpus(entries, snaps, events), None), was; }
      var id := found.entry;
      if Foreign(confined, entries[id]) { return Refuse, was; }
      if ForeignCapture(entries[id], depositor) {
        ReleaseCaptureUri(id, depositor);
        return Go(Corpus(entries, snaps, events), None), was;
      }
      return Go(Corpus(entries, snaps, events), Some(id)), was;
    }

    /** `write_entry_and_snapshot`. */
    method WriteEntryAndSnapshot(c: Config, confined: Option<string>, q: Request, d: Draws) returns (result: Result)
      requires WellFormed(Now()) && Fresh(Now(), d)
      modifies this
      ensures Outcome(Now(), result) == Deposit(c, confined, old(Now()), q, d)
      ensures Evolves(old(Now()), Now()) && WellFormed(Now())
    {
      DepositEvolves(c, confined, Now(), q, d);
      result := Write(c, confined, q, d);
    }

    method Write(c: Config, confined: Option<string>, q: Request, d: Draws) returns (result: Result)
      requires WellFormed(Now()) && Fresh(Now(), d)
      modifies this
      ensures Outcome(Now(), result) == Deposit(c, confined, old(Now()), q, d)
    {
      ghost var was := Now();
      var existing: Option<Id> := None;
      if Named(q.uri) {
        var stage, _ := MatchUri(q.uri.value, q.depositor, confined);
        if stage == Refuse { return Refused; }
        if stage == Raise { return Raised; }
        existing := stage.existing;
      }
      ghost var st := FirstStage(was, q, confined);
      assert st == Go(Now(), existing);
      FirstStageEvolves(was, q, confined, d);
      StageTargets(c, was, q, confined, Own(q, confined), d.hit);
      if existing.None? {
        existing := HashStage(c, Corpus(entries, snaps, events), q, Own(q, confined), d.hit);
      }
      assert Deposit(c, confined, was, q, d) == Land(c, st.corpus, existing, q, Own(q, confined), d);
      result := Place(c, existing, q, Own(q, confined), d);
    }

    /** Reconcile and reuse, append, or create. */
    method Place(c: Config, target: Option<Id>, q: Request, own: bool, d: Draws) returns (result: Result)
      requires WellFormed(Now()) && Fresh(Now(), d) && (target.Some? ==> target.value in entries)
      modifies this
      ensures Outcome(Now(), result) == Land(c, old(Now()), target, q, own, d)
    {
      if target.None? {
        entries := entries[d.newEntry := Entry(q.uri, q.stype, q.mutability, q.policy, q.depositor, q.tags)];
        snaps := snaps[d.newSnap := NewSnap(q, d.newEntry, d)];
        return Deposited(d.newEntry, d.newSnap, false);
      }
      var id := target.value;
      ReconcileProjectKeys(c, id, entries[id], q.tags);
      var reused := UnchangedSnapshot(id, q.hash, q.stype, DateGiven(q, d));
      if reused.Some? { return Deposited(id, reused.value, true); }
      snaps := snaps[d.newSnap := NewSnap(q, id, d)];
      if entries[id].stype != q.stype && !own {
        entries := entries[id := entries[id].(stype := q.stype)];
      } else {
        assert entries == entries[id := entries[id]];
      }
      return Deposited(id, d.newSnap, false);
    }

    /** `deposit_text_versioned`. */
    method DepositTextVersioned(c: Config, confined: Option<string>, q: TextRequest, d: Draws) returns (result: Result)
      requires WellFormed(Now()) && Fresh(Now(), d)
      modifies this
      ensures Outcome(Now(), result) == DepositText(c, confined, old(Now()), q, d)
      ensures Evolves(old(Now()), Now()) && WellFormed(Now())
    {
      TextEvolves(c, confined, Now(), q, d);
      result := Versioned(c, confined, q, d);
    }

    method Versioned(c: Config, confined: Option<string>, q: TextRequest, d: Draws) returns (result: Result)
      requires WellFormed(Now()) && Fresh(Now(), d)
      modifies this
      ensures Outcome(Now(), result) == DepositText(c, confined, old(Now()), q, d)
    {
      ghost var was := Now();
      var stage, _ := MatchUri(q.uri, q.depositor, confined);
      if stage == Refuse { return Refused; }
      if stage == Raise { return Raised; }
      UriStageEvolves(was, q.uri, q.depositor, confined);
      if stage.existing.Some? {
        ByUriExact(was, q.uri);
        var id := stage.existing.value;
        var latest := Reconcile(c, id, q, d);
        if latest.Some? && snaps[latest.value].hash == q.hash { return Deposited(id, latest.value, true); }
      }
      result := Write(c, confined, AsRequest(q), d);
    }

    /** The reconciles an existing entry gets, and then its latest snapshot. */
    method Reconcile(c: Config, id: Id, q: TextRequest, ghost d: Draws) returns (latest: Option<Id>)
      requires WellFormed(Now()) && Fresh(Now(), d) && id in entries
      modifies this`entries, this`events
      ensures Now() == ReconcileText(c, old(Now()), id, q) && latest == Latest(Now(), id)
      ensures WellFormed(Now()) && Fresh(Now(), d)
    {
      ReconcileTextEvolves(c, Now(), id, q, d);
      var read := entries[id];
      ReconcileFetchPolicy(id, q.policy);
      ReconcileProjectKeys(c, id, read, q.tags);
      if q.policy == Some(Lazy) { ReconcileMaskedTags(id, read, q.tags); }
      latest := GetLatest(id);
    }
  }
}
