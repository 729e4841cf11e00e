/** particles/corpus/deposit.py: a deposit made twice, and the REVISIT walk that answers it. */
module DepositRepeats {
  import opened Options
  import opened Deposits
  import opened DepositRuns

  // ---- the REVISIT walk -----------------------------------------------------------------

  /** The record a REVISIT refers to. */
  function Referent(snaps: map<Id, Snap>, x: Id): Option<Id>
    requires x in snaps
  {
    if snaps[x].rtype == Revisit then snaps[x].refersTo else None
  }

  /** Different stored records, each but the last a REVISIT of the next. */
  ghost predicate Chain(snaps: map<Id, Snap>, path: seq<Id>) {
    && path != []
    && (forall i :: 0 <= i < |path| ==> path[i] in snaps)
    && (forall i, j :: 0 <= i < j < |path| ==> path[i] != path[j])
    && (forall i :: 0 <= i < |path| - 1 ==> Referent(snaps, path[i]) == Some(path[i + 1]))
  }

  function Ids(path: seq<Id>): set<Id> { set i | 0 <= i < |path| :: path[i] }

  lemma {:induction false} WalkFollows(snaps: map<Id, Snap>, path: seq<Id>, i: nat)
    requires Chain(snaps, path) && i < |path|
    ensures Walk(snaps, Some(path[i]), Ids(path[..i])) == Walk(snaps, Some(path[|path| - 1]), Ids(path[..|path| - 1]))
    decreases |path| - i
  {
    if i < |path| - 1 {
      assert path[i] !in Ids(path[..i]);
      assert Ids(path[..i + 1]) == Ids(path[..i]) + {path[i]} by { assert path[..i + 1] == path[..i] + [path[i]]; }
      assert Referent(snaps, path[i]) == Some(path[i + 1]);
      WalkFollows(snaps, path, i + 1);
    }
  }

  /** How a chain goes on after its last record. */
  datatype Ending = Stops | Loses | Loops(at: nat)

  ghost predicate Ends(snaps: map<Id, Snap>, path: seq<Id>, end: Ending) {
    && Chain(snaps, path)
    && var last := Referent(snaps, path[|path| - 1]);
       match end
       case Stops => last.None?
       case Loses => last.Some? && last.value !in snaps
       case Loops(at) => at < |path| && last == Some(path[at])
  }

  /** The walk ends for every graph of references, and answers: the record a chain stops at; the
      latest itself, when a referent is missing; the first record met again, on a cycle. */
  lemma HolderOfChain(snaps: map<Id, Snap>, path: seq<Id>, end: Ending)
    requires Ends(snaps, path, end)
    ensures Holder(snaps, path[0]) == match end
      case Stops => path[|path| - 1]
      case Loses => path[0]
      case Loops(at) => path[at]
  {
    WalkFollows(snaps, path, 0);
    assert Ids(path[..0]) == {};
    var n := |path| - 1;
    var seen := Ids(path[..n]);
    assert path[n] !in seen;
    if end.Loops? {
      assert path[end.at] in seen + {path[n]} by { if end.at < n { assert path[..n][end.at] == path[end.at]; } }
    }
  }

  /** And every stored record starts a chain with one of the three endings. */
  lemma {:induction false} ChainEnds(snaps: map<Id, Snap>, path: seq<Id>) returns (full: seq<Id>, end: Ending)
    requires Chain(snaps, path)
    ensures path <= full && Ends(snaps, full, end)
    decreases snaps.Keys - Ids(path)
  {
    var last := Referent(snaps, path[|path| - 1]);
    if last.None? {
      full, end := path, Stops;
    } else if last.value !in snaps {
      full, end := path, Loses;
    } else if at :| 0 <= at < |path| && path[at] == last.value {
      full, end := path, Loops(at);
    } else {
      var longer := path + [last.value];
      assert last.value in snaps.Keys - Ids(path) && last.value !in snaps.Keys - Ids(longer) by {
        assert longer[|path|] == last.value;
      }
      assert Ids(path) <= Ids(longer) by { assert forall i :: 0 <= i < |path| ==> longer[i] == path[i]; }
      full, end := ChainEnds(snaps, longer);
    }
  }

  /** So the answer is a RESPONSE record whenever the chain leads to one. */
  lemma HolderIsResponse(snaps: map<Id, Snap>, path: seq<Id>)
    requires Chain(snaps, path) && snaps[path[|path| - 1]].rtype == Response
    ensures Holder(snaps, path[0]) == path[|path| - 1]
  {
    HolderOfChain(snaps, path, Stops);
  }

  // ---- the latest snapshot ------------------------------------------------------------------

  lemma LatestIs(s: Corpus, e: Id, x: Id)
    requires TimesDistinct(s) && IsLatest(s, e, x)
    ensures Latest(s, e) == Some(x)
  {
    assert exists y :: IsLatest(s, e, y);
    var y :| Latest(s, e) == Some(y) && IsLatest(s, e, y);
  }

  /** A snapshot just captured is its entry's latest, and holds its own bytes. */
  lemma NewSnapIsLatest(s: Corpus, t: Corpus, e: Id, q: Request, d: Draws)
    requires Fresh(s, d) && t.snaps == s.snaps[d.newSnap := NewSnap(q, e, d)] && TimesDistinct(t)
    ensures Latest(t, e) == Some(d.newSnap) && Holder(t.snaps, d.newSnap) == d.newSnap
  {
    assert IsLatest(t, e, d.newSnap);
    LatestIs(t, e, d.newSnap);
  }

  // ---- reconciling twice ----------------------------------------------------------------------

  /** The entry's keys cover the tags', or it may not be given any. */
  predicate KeysSettled(c: Config, e: Entry, tags: set<string>) { c.isGlobal(e.tags) || MissingKeys(c, e, tags) == {} }

  lemma SettledIsKept(c: Config, s: Corpus, id: Id, tags: set<string>)
    requires id in s.entries && KeysSettled(c, s.entries[id], tags)
    ensures ReconcileKeys(c, s, id, s.entries[id], tags) == s
  {}

  lemma ReconcileSettles(c: Config, s: Corpus, id: Id, read: Entry, tags: set<string>)
    requires ConfigContract(c) && id in s.entries && s.entries[id].tags == read.tags
    ensures KeysSettled(c, ReconcileKeys(c, s, id, read, tags).entries[id], tags)
    ensures !c.isGlobal(read.tags) ==> c.projectKeys(tags) <= c.projectKeys(ReconcileKeys(c, s, id, read, tags).entries[id].tags)
  {
    var missing := MissingKeys(c, read, tags);
    assert missing <= c.projectKeys(tags);
    assert c.projectKeys(read.tags) + missing <= c.projectKeys(read.tags + KeyTags(c, missing));
  }

  // ---- write_entry_and_snapshot twice --------------------------------------------------------------

  /** A returned entry that holds the request's URI was joined by it or is new. */
  lemma HolderWasJoinedOrMade(c: Config, confined: Option<string>, s: Corpus, q: Request, d: Draws)
    requires WellFormed(s) && Fresh(s, d) && Named(q.uri)
    requires var o := Deposit(c, confined, s, q, d);
      o.result.Deposited? && o.result.entry in o.corpus.entries && o.corpus.entries[o.result.entry].uri == q.uri
    ensures var st, o := FirstStage(s, q, confined), Deposit(c, confined, s, q, d);
      st.Go? && (st.existing.Some? ==> st.corpus == s && st.existing.value in s.entries)
      && o == Land(c, st.corpus, st.existing, q, Own(q, confined), d)
  {
    var st := FirstStage(s, q, confined);
    ByUriExact(s, q.uri.value);
    StageTargets(c, s, q, confined, Own(q, confined), d.hit);
    var target := Target(c, st, q, Own(q, confined), d.hit);
    if st.existing.None? && target.Some? {
      NobodyHolds(s, q.uri.value, q.depositor, confined);
      LandTouches(c, st.corpus, target.value, q, Own(q, confined), d);
    }
  }

  /** The second look-up finds the entry the first deposit returned. */
  lemma RepeatJoins(c: Config, confined: Option<string>, s: Corpus, q: Request, d: Draws)
    requires WellFormed(s) && Fresh(s, d) && Named(q.uri)
    requires confined.Some? ==> q.depositor in Owners(confined.value)
    requires var o := Deposit(c, confined, s, q, d);
      o.result.Deposited? && o.result.entry in o.corpus.entries && o.corpus.entries[o.result.entry].uri == q.uri
    ensures var o := Deposit(c, confined, s, q, d);
      UriStage(o.corpus, q.uri.value, q.depositor, confined) == Go(o.corpus, Some(o.result.entry))
  {
    var o, st := Deposit(c, confined, s, q, d), FirstStage(s, q, confined);
    HolderWasJoinedOrMade(c, confined, s, q, d);
    DepositEvolves(c, confined, s, q, d);
    ByUriExact(o.corpus, q.uri.value);
    ByUriExact(s, q.uri.value);
    if st.existing.Some? { LandTouches(c, s, st.existing.value, q, Own(q, confined), d); }
  }

  /** What `Land` leaves: keys settled, the type asked for unless it had to be kept, and the
      answer's record latest and found again. */
  lemma LandSettles(c: Config, s: Corpus, target: Option<Id>, q: Request, own: bool, d: Draws)
    requires ConfigContract(c) && WellFormed(s) && Fresh(s, d) && (target.Some? ==> target.value in s.entries)
    ensures var o := Land(c, s, target, q, own, d);
      o.result.Deposited? && o.result.entry in o.corpus.entries && KeysSettled(c, o.corpus.entries[o.result.entry], q.tags)
  {
    if target.Some? { ReconcileSettles(c, s, target.value, s.entries[target.value], q.tags); }
  }

  /** A confined deposit that joins an entry of another type, whose type it leaves. */
  ghost predicate KeepsAnotherType(s: Corpus, q: Request, confined: Option<string>) {
    && Own(q, confined) && FirstStage(s, q, confined).Go?
    && var e := FirstStage(s, q, confined).existing;
       e.Some? && e.value in s.entries && s.entries[e.value].stype != q.stype
  }

  /** An authorship date given by hand and still to come. */
  predicate FutureDate(q: Request, d: Draws) { q.dated && q.published.Some? && q.published.value > d.t1 }

  lemma DatesAgree(q: Request, d: Draws, d2: Draws)
    requires d.t1 < d2.t1
    ensures DateGiven(q, d) == DateGiven(q, d2) <==> !FutureDate(q, d)
  {}

  /** Asked again after an append, the check answers with the snapshot just written, unless the
      type was kept or the date has moved. */
  lemma UnchangedAfterWrite(s: Corpus, t: Corpus, id: Id, q: Request, d: Draws, d2: Draws)
    requires Fresh(s, d) && WellFormed(t) && id in t.entries && t.snaps == s.snaps[d.newSnap := NewSnap(q, id, d)]
    requires q.rtype != Absent && d.t1 < d2.t1
    ensures Unchanged(t, id, q.hash, q.stype, DateGiven(q, d2)) ==
      if t.entries[id].stype == q.stype && !FutureDate(q, d) then Some(d.newSnap) else None
  {
    NewSnapIsLatest(s, t, id, q, d);
    DatesAgree(q, d, d2);
  }

  /** Asked again after an unchanged answer, it gives the same one, unless the date has moved. */
  lemma UnchangedAgain(t: Corpus, id: Id, q: Request, d: Draws, d2: Draws)
    requires id in t.entries && d.t1 < d2.t1 && Unchanged(t, id, q.hash, q.stype, DateGiven(q, d)).Some?
    ensures Unchanged(t, id, q.hash, q.stype, DateGiven(q, d2)) ==
      if FutureDate(q, d) then None else Unchanged(t, id, q.hash, q.stype, DateGiven(q, d))
  {
    DatesAgree(q, d, d2);
  }

  /** The check, asked of the corpus a landing left. */
  lemma LandAgain(c: Config, s: Corpus, target: Option<Id>, q: Request, own: bool, d: Draws, d2: Draws)
    requires WellFormed(s) && Fresh(s, d) && (target.Some? ==> target.value in s.entries)
    requires WellFormed(Land(c, s, target, q, own, d).corpus) && q.rtype != Absent && d.t1 < d2.t1
    ensures var o := Land(c, s, target, q, own, d);
      && o.result.Deposited? && o.result.entry in o.corpus.entries
      && Unchanged(o.corpus, o.result.entry, q.hash, q.stype, DateGiven(q, d2)) ==
         if FutureDate(q, d) || (own && target.Some? && s.entries[target.value].stype != q.stype) then None else Some(o.result.snap)
  {
    var o := Land(c, s, target, q, own, d);
    if target.None? {
      UnchangedAfterWrite(s, o.corpus, d.newEntry, q, d, d2);
    } else {
      var s' := ReconcileKeys(c, s, target.value, s.entries[target.value], q.tags);
      if o.result.same {
        UnchangedAgain(s', target.value, q, d, d2);
      } else {
        UnchangedAfterWrite(s', o.corpus, target.value, q, d, d2);
      }
    }
  }

  /** The same deposit made twice: the repeat returns the same ids and writes nothing, exactly
      unless an explicit date lay in the future at the first call, or a confined deposit kept
      another type. The first exception re-dates on every call, the second appends on every call. */
  lemma RepeatWritesNothingExactly(c: Config, confined: Option<string>, s: Corpus, q: Request, d: Draws, d2: Draws)
    requires ConfigContract(c) && WellFormed(s) && Fresh(s, d) && Named(q.uri) && q.rtype != Absent
    requires confined.Some? ==> q.depositor in Owners(confined.value)
    requires var o := Deposit(c, confined, s, q, d);
      && o.result.Deposited? && o.result.entry in o.corpus.entries && o.corpus.entries[o.result.entry].uri == q.uri
      && Fresh(o.corpus, d2)
    requires d.t1 < d2.t1
    ensures var o := Deposit(c, confined, s, q, d);
      Deposit(c, confined, o.corpus, q, d2) == Outcome(o.corpus, Deposited(o.result.entry, o.result.snap, true))
      <==> !FutureDate(q, d) && !KeepsAnotherType(s, q, confined)
  {
    var o, st, own := Deposit(c, confined, s, q, d), FirstStage(s, q, confined), Own(q, confined);
    RepeatJoins(c, confined, s, q, d);
    HolderWasJoinedOrMade(c, confined, s, q, d);
    DepositEvolves(c, confined, s, q, d);
    FirstStageEvolves(s, q, confined, d);
    LandAgain(c, st.corpus, st.existing, q, own, d, d2);
    LandSettles(c, st.corpus, st.existing, q, own, d);
    SettledIsKept(c, o.corpus, o.result.entry, q.tags);
    assert Deposit(c, confined, o.corpus, q, d2) == Land(c, o.corpus, Some(o.result.entry), q, own, d2);
  }

  /** The first exception is real: a note dated by hand in the future is written again. */
  lemma FutureDateWritesAgain(c: Config)
    requires ConfigContract(c)
    ensures var s := Corpus(map[], map[], []);
      var q := Request(Some("u"), "t", Stable, Never, "h", "a", {}, Response, Some(10), true, false, false, false);
      var o := Deposit(c, None, s, q, Draws(1, 2, None, 0, 0));
      o.result == Deposited(0, 0, false) && Deposit(c, None, o.corpus, q, Draws(3, 4, None, 1, 1)).result == Deposited(0, 1, false)
  {
    var s := Corpus(map[], map[], []);
    var q := Request(Some("u"), "t", Stable, Never, "h", "a", {}, Response, Some(10), true, false, false, false);
    var d, d2 := Draws(1, 2, None, 0, 0), Draws(3, 4, None, 1, 1);
    ByUriExact(s, "u");
    RepeatWritesNothingExactly(c, None, s, q, d, d2);
    RepeatJoins(c, None, s, q, d);
  }

  /** So is the second: a confined deposit under another type appends each time. */
  lemma KeptTypeWritesAgain(c: Config)
    requires ConfigContract(c)
    ensures var s := Corpus(map[0 := Entry(Some("u"), "x", Stable, Never, "a", {})], map[0 := Snap(0, 0, "h", Response, None, None)], []);
      var q := Request(Some("u"), "t", Stable, Never, "h", "a", {}, Response, None, false, false, false, false);
      var o := Deposit(c, Some("a"), s, q, Draws(1, 2, None, 1, 1));
      o.result == Deposited(0, 1, false) && Deposit(c, Some("a"), o.corpus, q, Draws(3, 4, None, 1, 2)).result == Deposited(0, 2, false)
  {
    var s := Corpus(map[0 := Entry(Some("u"), "x", Stable, Never, "a", {})], map[0 := Snap(0, 0, "h", Response, None, None)], []);
    var q := Request(Some("u"), "t", Stable, Never, "h", "a", {}, Response, None, false, false, false, false);
    var d := Draws(1, 2, None, 1, 1);
    ByUriExact(s, "u");
    assert Owners("a") == {"a"} by { assert |"a"| != |"claude-code-hook"| && |"a"| != |"audit"|; }
    assert s.entries[0].uri == Some("u") && UriUnique(s);
    assert FirstStage(s, q, Some("a")) == Go(s, Some(0));
    RepeatJoins(c, Some("a"), s, q, d);
  }

  // ---- deposit_text_versioned twice ------------------------------------------------------------------

  /** What the masking tags are said not to do: change an entry's scope. */
  ghost predicate MaskContract(c: Config) {
    forall tags, mask | mask <= REFRESH_MASKED_TAGS ::
      c.projectKeys(tags + mask) == c.projectKeys(tags) && c.isGlobal(tags + mask) == c.isGlobal(tags)
  }

  /** An entry every reconcile of the request leaves alone. */
  predicate TextSettled(c: Config, e: Entry, q: TextRequest) {
    && KeysSettled(c, e, q.tags)
    && (q.policy.Some? ==> e.policy == q.policy.value)
    && (q.policy == Some(Lazy) ==> REFRESH_MASKED_TAGS * q.tags <= e.tags)
  }

  lemma TextSettledIsKept(c: Config, s: Corpus, id: Id, q: TextRequest)
    requires id in s.entries && TextSettled(c, s.entries[id], q)
    ensures ReconcileText(c, s, id, q) == s
  {
    var e := s.entries[id];
    if q.policy == Some(Lazy) { assert e.tags + (REFRESH_MASKED_TAGS * q.tags - e.tags) == e.tags; }
    assert s.entries[id := e] == s.entries;
  }

  lemma ReconcileTextSettles(c: Config, s: Corpus, id: Id, q: TextRequest)
    requires ConfigContract(c) && MaskContract(c) && id in s.entries
    ensures TextSettled(c, ReconcileText(c, s, id, q).entries[id], q)
  {
    var read := s.entries[id];
    var s1 := ReconcilePolicy(s, id, q.policy);
    ReconcileSettles(c, s1, id, read, q.tags);
    var e := ReconcileKeys(c, s1, id, read, q.tags).entries[id];
    assert KeysSettled(c, e, q.tags) && read.tags <= e.tags;
    if q.policy == Some(Lazy) {
      var mask := REFRESH_MASKED_TAGS * q.tags - read.tags;
      assert c.projectKeys(e.tags + mask) == c.projectKeys(e.tags) && c.isGlobal(e.tags + mask) == c.isGlobal(e.tags);
    }
  }

  /** A snapshot with other bytes on an entry joined by its URI: nothing else about it moves. */
  lemma TextAppends(c: Config, confined: Option<string>, s: Corpus, id: Id, q: TextRequest, d: Draws)
    requires WellFormed(s) && Fresh(s, d) && id in s.entries && TextSettled(c, s.entries[id], q)
    requires UriStage(s, q.uri, q.depositor, confined) == Go(s, Some(id)) && q.uri != ""
    requires Latest(s, id).Some? ==> s.snaps[Latest(s, id).value].hash != q.hash
    ensures var o := Deposit(c, confined, s, AsRequest(q), d);
      && o.result == Deposited(id, d.newSnap, false) && id in o.corpus.entries && TextSettled(c, o.corpus.entries[id], q)
      && Latest(o.corpus, id) == Some(d.newSnap) && d.newSnap in o.corpus.snaps && o.corpus.snaps[d.newSnap].hash == q.hash
      && UriStage(o.corpus, q.uri, q.depositor, confined) == Go(o.corpus, Some(id))
  {
    var o := Deposit(c, confined, s, AsRequest(q), d);
    SettledIsKept(c, s, id, q.tags);
    assert o == Land(c, s, Some(id), AsRequest(q), Own(AsRequest(q), confined), d);
    LandTouches(c, s, id, AsRequest(q), Own(AsRequest(q), confined), d);
    TouchEvolves(s, o.corpus, id, d);
    NewSnapIsLatest(s, o.corpus, id, AsRequest(q), d);
    StillJoins(s, o.corpus, id, q, confined, d);
  }

  /** What the first deposit leaves, when the entry it returns holds the URI. */
  lemma TextFirst(c: Config, confined: Option<string>, s: Corpus, q: TextRequest, d: Draws)
    requires ConfigContract(c) && MaskContract(c) && WellFormed(s) && Fresh(s, d) && q.uri != ""
    requires confined.Some? ==> q.depositor in Owners(confined.value)
    requires var o := DepositText(c, confined, s, q, d);
      o.result.Deposited? && o.result.entry in o.corpus.entries && o.corpus.entries[o.result.entry].uri == Some(q.uri)
    ensures var o := DepositText(c, confined, s, q, d); var e := o.result.entry;
      && TextSettled(c, o.corpus.entries[e], q)
      && Latest(o.corpus, e) == Some(o.result.snap) && o.result.snap in o.corpus.snaps && o.corpus.snaps[o.result.snap].hash == q.hash
      && UriStage(o.corpus, q.uri, q.depositor, confined) == Go(o.corpus, Some(e))
  {
    var st := UriStage(s, q.uri, q.depositor, confined);
    ByUriExact(s, q.uri);
    if st.existing.Some? {
      TextOntoExisting(c, confined, s, st.existing.value, q, d);
    } else {
      UriStageEvolves(s, q.uri, q.depositor, confined);
      TextMadeNew(c, confined, st.corpus, q, d, s);
    }
  }

  lemma TextOntoExisting(c: Config, confined: Option<string>, s: Corpus, id: Id, q: TextRequest, d: Draws)
    requires ConfigContract(c) && MaskContract(c) && WellFormed(s) && Fresh(s, d) && q.uri != "" && id in s.entries
    requires UriStage(s, q.uri, q.depositor, confined) == Go(s, Some(id))
    ensures var o := DepositText(c, confined, s, q, d);
      && o.result.Deposited? && o.result.entry == id && id in o.corpus.entries && TextSettled(c, o.corpus.entries[id], q)
      && Latest(o.corpus, id) == Some(o.result.snap) && o.result.snap in o.corpus.snaps && o.corpus.snaps[o.result.snap].hash == q.hash
      && UriStage(o.corpus, q.uri, q.depositor, confined) == Go(o.corpus, Some(id))
  {
    var s2 := ReconcileText(c, s, id, q);
    ReconcileTextSettles(c, s, id, q);
    ReconcileTextTouches(c, s, id, q, d);
    ReconcileTextEvolves(c, s, id, q, d);
    StillJoins(s, s2, id, q, confined, d);
    if !(Latest(s2, id).Some? && s2.snaps[Latest(s2, id).value].hash == q.hash) {
      TextAppends(c, confined, s2, id, q, d);
    }
  }

  lemma StillJoins(s: Corpus, t: Corpus, id: Id, q: TextRequest, confined: Option<string>, d: Draws)
    requires UriStage(s, q.uri, q.depositor, confined) == Go(s, Some(id)) && Touch(s, t, id, d)
    ensures UriStage(t, q.uri, q.depositor, confined) == Go(t, Some(id))
  {
    ByUriExact(s, q.uri);
    ByUriExact(t, q.uri);
    assert Holders(t, q.uri) == Holders(s, q.uri);
  }

  lemma TextMadeNew(c: Config, confined: Option<string>, s: Corpus, q: TextRequest, d: Draws, before: Corpus)
    requires ConfigContract(c) && WellFormed(s) && Fresh(s, d) && q.uri != ""
    requires confined.Some? ==> q.depositor in Owners(confined.value)
    requires UriStage(before, q.uri, q.depositor, confined) == Go(s, None)
    requires var o := Deposit(c, confined, s, AsRequest(q), d);
      o.result.Deposited? && o.result.entry in o.corpus.entries && o.corpus.entries[o.result.entry].uri == Some(q.uri)
    ensures var o := Deposit(c, confined, s, AsRequest(q), d); var e := o.result.entry;
      && TextSettled(c, o.corpus.entries[e], q)
      && Latest(o.corpus, e) == Some(o.result.snap) && o.result.snap in o.corpus.snaps && o.corpus.snaps[o.result.snap].hash == q.hash
      && UriStage(o.corpus, q.uri, q.depositor, confined) == Go(o.corpus, Some(e))
  {
    var o := Deposit(c, confined, s, AsRequest(q), d);
    NobodyHolds(before, q.uri, q.depositor, confined);
    ByUriExact(s, q.uri);
    HolderWasJoinedOrMade(c, confined, s, AsRequest(q), d);
    RepeatJoins(c, confined, s, AsRequest(q), d);
    DepositEvolves(c, confined, s, AsRequest(q), d);
    NewSnapIsLatest(s, o.corpus, d.newEntry, AsRequest(q), d);
  }

  /** Text deposited again under its URI returns the same ids as unchanged and leaves the corpus
      exactly as it was: snapshots, tags, policy, type, URIs and events. */
  lemma TextRepeatWritesNothing(c: Config, confined: Option<string>, s: Corpus, q: TextRequest, d: Draws, d2: Draws)
    requires ConfigContract(c) && MaskContract(c) && WellFormed(s) && Fresh(s, d) && q.uri != ""
    requires confined.Some? ==> q.depositor in Owners(confined.value)
    requires var o := DepositText(c, confined, s, q, d);
      o.result.Deposited? && o.result.entry in o.corpus.entries && o.corpus.entries[o.result.entry].uri == Some(q.uri)
    ensures var o := DepositText(c, confined, s, q, d);
      DepositText(c, confined, o.corpus, q, d2) == Outcome(o.corpus, Deposited(o.result.entry, o.result.snap, true))
  {
    var o := DepositText(c, confined, s, q, d);
    TextFirst(c, confined, s, q, d);
    TextSettledIsKept(c, o.corpus, o.result.entry, q);
  }
}
