/** particles/corpus/deposit.py: a deposit made twice, whichever tier its entry was found by. */
module DepositAgain {
  import opened Options
  import opened Deposits
  import opened DepositRuns
  import opened DepositRepeats
  import opened DepositRules

  /** The second look-up leads to `e`: by the URI, or, with nobody to join there, by the row the
      content-hash query yields this time and the hash rules. */
  ghost predicate Rejoins(c: Config, t: Corpus, q: Request, own: bool, hit: Option<Id>, e: Id)
    requires e in t.entries
  {
    || JoinsByUri(t, q, e)
    || (hit == Some(e) && MayJoinByHash(c, t.entries[e], q, own) && forall f :: !JoinsByUri(t, q, f))
  }

  /** What the first deposit leaves at the request's URI is an entry the second may join. */
  lemma HolderIsJoinable(c: Config, confined: Option<string>, s: Corpus, q: Request, d: Draws, f: Id)
    requires WellFormed(s) && Fresh(s, d) && Named(q.uri) && Deposit(c, confined, s, q, d).result.Deposited?
    requires confined.Some? ==> q.depositor in Owners(confined.value)
    requires f in Deposit(c, confined, s, q, d).corpus.entries && Deposit(c, confined, s, q, d).corpus.entries[f].uri == q.uri
    ensures var e := Deposit(c, confined, s, q, d).corpus.entries[f]; !Foreign(confined, e) && !ForeignCapture(e, q.depositor)
  {
    var st, target := FirstStage(s, q, confined), TargetOf(c, confined, s, q, d);
    DepositIsLanding(c, confined, s, q, d);
    StageIsFresh(s, q, confined, d);
    LandHolders(c, st.corpus, target, q, Own(q, confined), d, f);
    ByUriExact(s, q.uri.value);
  }

  /** A landing gives nobody a URI or another depositor, but for the entry it makes. */
  lemma LandHolders(c: Config, s: Corpus, target: Option<Id>, q: Request, own: bool, d: Draws, f: Id)
    requires target.Some? ==> target.value in s.entries
    requires f in Land(c, s, target, q, own, d).corpus.entries
    ensures var e := Land(c, s, target, q, own, d).corpus.entries[f];
      if f in s.entries && !(target.None? && f == d.newEntry)
      then e.uri == s.entries[f].uri && e.depositor == s.entries[f].depositor
      else e.uri == q.uri && e.depositor == q.depositor
  {
    if target.Some? { LandTouches(c, s, target.value, q, own, d); }
  }

  /** So the second look-up refuses and releases nothing. */
  lemma SecondStage(c: Config, confined: Option<string>, s: Corpus, q: Request, d: Draws)
    requires WellFormed(s) && Fresh(s, d) && Deposit(c, confined, s, q, d).result.Deposited?
    requires confined.Some? ==> q.depositor in Owners(confined.value)
    ensures var t := Deposit(c, confined, s, q, d).corpus;
      && FirstStage(t, q, confined).Go? && FirstStage(t, q, confined).corpus == t
      && (forall f: Id :: FirstStage(t, q, confined).existing == Some(f) <==> JoinsByUri(t, q, f))
  {
    var t := Deposit(c, confined, s, q, d).corpus;
    if Named(q.uri) {
      DepositEvolves(c, confined, s, q, d);
      ByUriExact(t, q.uri.value);
      match ByUri(t, q.uri.value)
      case Held(f) => HolderIsJoinable(c, confined, s, q, d, f);
      case _ =>
    }
  }

  /** The second deposit lands on `e` exactly when it rejoins it. */
  lemma SecondTarget(c: Config, confined: Option<string>, t: Corpus, q: Request, d2: Draws, e: Id)
    requires FirstStage(t, q, confined).Go? && FirstStage(t, q, confined).corpus == t && e in t.entries
    requires forall f: Id :: FirstStage(t, q, confined).existing == Some(f) <==> JoinsByUri(t, q, f)
    ensures TargetOf(c, confined, t, q, d2) == Some(e) <==> Rejoins(c, t, q, Own(q, confined), d2.hit, e)
  {
    var st := FirstStage(t, q, confined);
    if st.existing.None? {
      HashStageExact(c, t, q, confined, Own(q, confined), d2.hit, e);
    } else {
      assert JoinsByUri(t, q, st.existing.value);
    }
  }

  /** Only a deposit that joined by its URI can have kept another type. */
  lemma KeptTypeIsByUri(c: Config, confined: Option<string>, s: Corpus, q: Request, d: Draws)
    requires FirstStage(s, q, confined).Go?
    ensures var st, target := FirstStage(s, q, confined), TargetOf(c, confined, s, q, d);
      && (target.Some? ==> target.value in st.corpus.entries)
      && (Own(q, confined) && target.Some? && st.corpus.entries[target.value].stype != q.stype <==> KeepsAnotherType(s, q, confined))
  {
    StageTargets(c, s, q, confined, Own(q, confined), d.hit);
    if Named(q.uri) { ByUriExact(s, q.uri.value); }
  }

  /** A landing on `e` in a corpus where its keys are settled. */
  lemma SettledLanding(c: Config, t: Corpus, e: Id, snap: Id, q: Request, own: bool, d2: Draws)
    requires e in t.entries && KeysSettled(c, t.entries[e], q.tags) && Fresh(t, d2)
    ensures Land(c, t, Some(e), q, own, d2) == Outcome(t, Deposited(e, snap, true))
       <==> Unchanged(t, e, q.hash, q.stype, DateGiven(q, d2)) == Some(snap)
  {
    SettledIsKept(c, t, e, q.tags);
  }

  /** The same deposit made twice, on either tier: the repeat returns the same ids and writes
      nothing if and only if no explicit date lay in the future, no confined deposit kept another
      type, and the second look-up leads to the same entry. */
  lemma RepeatIsNoOpExactly(c: Config, confined: Option<string>, s: Corpus, q: Request, d: Draws, d2: Draws)
    requires ConfigContract(c) && WellFormed(s) && Fresh(s, d) && q.rtype != Absent && d.t1 < d2.t1
    requires confined.Some? ==> q.depositor in Owners(confined.value)
    requires Deposit(c, confined, s, q, d).result.Deposited? && Fresh(Deposit(c, confined, s, q, d).corpus, d2)
    ensures var o := Deposit(c, confined, s, q, d);
      && o.result.entry in o.corpus.entries
      && (Deposit(c, confined, o.corpus, q, d2) == Outcome(o.corpus, Deposited(o.result.entry, o.result.snap, true))
          <==> !FutureDate(q, d) && !KeepsAnotherType(s, q, confined) && Rejoins(c, o.corpus, q, Own(q, confined), d2.hit, o.result.entry))
  {
    var o, own := Deposit(c, confined, s, q, d), Own(q, confined);
    FirstLands(c, confined, s, q, d, d2);
    SecondStage(c, confined, s, q, d);
    SecondTarget(c, confined, o.corpus, q, d2, o.result.entry);
    DepositIsLanding(c, confined, o.corpus, q, d2);
    LandReturns(c, o.corpus, TargetOf(c, confined, o.corpus, q, d2), q, own, d2);
    SettledLanding(c, o.corpus, o.result.entry, o.result.snap, q, own, d2);
  }

  /** What the first deposit left, as the second one's check reads it. */
  lemma FirstLands(c: Config, confined: Option<string>, s: Corpus, q: Request, d: Draws, d2: Draws)
    requires ConfigContract(c) && WellFormed(s) && Fresh(s, d) && q.rtype != Absent && d.t1 < d2.t1
    requires Deposit(c, confined, s, q, d).result.Deposited?
    ensures var o := Deposit(c, confined, s, q, d);
      && o.result.entry in o.corpus.entries && KeysSettled(c, o.corpus.entries[o.result.entry], q.tags)
      && Unchanged(o.corpus, o.result.entry, q.hash, q.stype, DateGiven(q, d2)) ==
         if FutureDate(q, d) || KeepsAnotherType(s, q, confined) then None else Some(o.result.snap)
  {
    var st, target, own := FirstStage(s, q, confined), TargetOf(c, confined, s, q, d), Own(q, confined);
    DepositIsLanding(c, confined, s, q, d);
    FirstStageEvolves(s, q, confined, d);
    DepositEvolves(c, confined, s, q, d);
    LandAgain(c, st.corpus, target, q, own, d, d2);
    LandSettles(c, st.corpus, target, q, own, d);
    KeptTypeIsByUri(c, confined, s, q, d);
  }

  // ---- what rejoining takes on the content-hash tier ---------------------------------------------

  /** The returned entry is not at the request's URI, and nobody else is. */
  lemma NobodyAtTheUri(c: Config, confined: Option<string>, s: Corpus, q: Request, d: Draws)
    requires WellFormed(s) && Fresh(s, d) && Deposit(c, confined, s, q, d).result.Deposited?
    requires var o := Deposit(c, confined, s, q, d);
      o.result.entry in o.corpus.entries && !(Named(q.uri) && o.corpus.entries[o.result.entry].uri == q.uri)
    ensures forall f :: !JoinsByUri(Deposit(c, confined, s, q, d).corpus, q, f)
  {
    var o, st, target := Deposit(c, confined, s, q, d), FirstStage(s, q, confined), TargetOf(c, confined, s, q, d);
    DepositIsLanding(c, confined, s, q, d);
    LandReturns(c, st.corpus, target, q, Own(q, confined), d);
    if Named(q.uri) {
      ByUriExact(s, q.uri.value);
      LandHolders(c, st.corpus, target, q, Own(q, confined), d, o.result.entry);
      if st.existing.None? { NobodyHolds(s, q.uri.value, q.depositor, confined); }
      forall f | f in o.corpus.entries ensures o.corpus.entries[f].uri != q.uri { LandHolders(c, st.corpus, target, q, Own(q, confined), d, f); }
    }
  }

  /** An entry joined by its bytes, or made under no URI, is rejoined exactly when the query yields
      it again, the deposit is not one identified by its URI alone, and, if it names a project, the
      entry does not now read as global. */
  lemma RejoinsByHashExactly(c: Config, confined: Option<string>, s: Corpus, q: Request, d: Draws, hit: Option<Id>)
    requires WellFormed(s) && Fresh(s, d) && Deposit(c, confined, s, q, d).result.Deposited?
    requires !KeepsAnotherType(s, q, confined)
    requires var o := Deposit(c, confined, s, q, d);
      o.result.entry in o.corpus.entries && !(Named(q.uri) && o.corpus.entries[o.result.entry].uri == q.uri)
    ensures var o := Deposit(c, confined, s, q, d); var e := o.result.entry;
      Rejoins(c, o.corpus, q, Own(q, confined), hit, e) <==>
        hit == Some(e) && !ByUriAlone(c, q) && (c.projectKeys(q.tags) != {} ==> !c.isGlobal(o.corpus.entries[e].tags))
  {
    NobodyAtTheUri(c, confined, s, q, d);
    LandedEntry(c, confined, s, q, d);
  }

  /** The returned entry, off the URI: the hash rules about type, place and depositor still hold. */
  lemma LandedEntry(c: Config, confined: Option<string>, s: Corpus, q: Request, d: Draws)
    requires WellFormed(s) && Fresh(s, d) && Deposit(c, confined, s, q, d).result.Deposited?
    requires !KeepsAnotherType(s, q, confined)
    requires var o := Deposit(c, confined, s, q, d);
      o.result.entry in o.corpus.entries && !(Named(q.uri) && o.corpus.entries[o.result.entry].uri == q.uri)
    ensures var e := Deposit(c, confined, s, q, d).corpus.entries[Deposit(c, confined, s, q, d).result.entry];
      && e.stype == q.stype && !ForeignCapture(e, q.depositor) && !ForeignLocal(e, q)
  {
    var o, st, target, own := Deposit(c, confined, s, q, d), FirstStage(s, q, confined), TargetOf(c, confined, s, q, d), Own(q, confined);
    DepositIsLanding(c, confined, s, q, d);
    LandReturns(c, st.corpus, target, q, own, d);
    KeptTypeIsByUri(c, confined, s, q, d);
    LandHolders(c, st.corpus, target, q, own, d, o.result.entry);
    if target.Some? {
      LandTags(c, st.corpus, target.value, q, own, d);
      assert st.existing.None? by { if Named(q.uri) { ByUriExact(s, q.uri.value); } }
    }
  }

  /** The exception is real: while the query keeps yielding the depositor's entry of another type,
      each repeat under no URI makes a new entry. */
  lemma HitOfAnotherTypeMakesAnEntryEachTime(c: Config)
    requires ConfigContract(c)
    ensures var s := Corpus(map[0 := Entry(None, "x", Stable, Never, "a", {})], map[0 := Snap(0, 0, "h", Response, None, None)], []);
      var q := Request(None, "t", Stable, Never, "h", "a", {}, Response, None, false, false, true, false);
      var o := Deposit(c, None, s, q, Draws(1, 2, Some(0), 1, 1));
      && HitOk(c, s, q, true, Some(0)) && HitOk(c, o.corpus, q, true, Some(0))
      && o.result == Deposited(1, 1, false) && Deposit(c, None, o.corpus, q, Draws(3, 4, Some(0), 2, 2)).result == Deposited(2, 2, false)
  {
    var s := Corpus(map[0 := Entry(None, "x", Stable, Never, "a", {})], map[0 := Snap(0, 0, "h", Response, None, None)], []);
    var q := Request(None, "t", Stable, Never, "h", "a", {}, Response, None, false, false, true, false);
    var o := Deposit(c, None, s, q, Draws(1, 2, Some(0), 1, 1));
    assert s.snaps[0].entry == 0 && o.corpus.snaps[0].entry == 0;
  }
}
