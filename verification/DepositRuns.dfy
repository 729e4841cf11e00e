/** particles/corpus/deposit.py: what every run of deposits keeps, and whom a confined one can touch. */
module DepositRuns {
  import opened Options
  import opened Deposits

  // ---- well-formed corpora -----------------------------------------------------------

  /** A URI that names something is held by at most one entry; no constraint of the table says so. */
  ghost predicate UriUnique(s: Corpus) {
    forall e, f :: e in s.entries && f in s.entries && Named(s.entries[e].uri) && s.entries[e].uri == s.entries[f].uri ==> e == f
  }

  ghost predicate SnapsPlaced(s: Corpus) { forall x :: x in s.snaps ==> s.snaps[x].entry in s.entries }

  /** No two records of the corpus were captured at one moment. */
  ghost predicate TimesDistinct(s: Corpus) {
    forall x, y :: x in s.snaps && y in s.snaps && s.snaps[x].capturedAt == s.snaps[y].capturedAt ==> x == y
  }

  ghost predicate WellFormed(s: Corpus) { UriUnique(s) && SnapsPlaced(s) && TimesDistinct(s) }

  /** The part of the draws that every call makes good. */
  ghost predicate Fresh(s: Corpus, d: Draws) {
    && d.t1 <= d.t2 && (forall x :: x in s.snaps ==> s.snaps[x].capturedAt < d.t2)
    && d.newEntry !in s.entries && d.newSnap !in s.snaps
  }

  lemma ByUriExact(s: Corpus, uri: string)
    ensures match ByUri(s, uri)
      case Nobody => forall e :: e in s.entries ==> s.entries[e].uri != Some(uri)
      case Held(e) => e in s.entries && s.entries[e].uri == Some(uri)
                      && forall f :: f in s.entries && s.entries[f].uri == Some(uri) ==> f == e
      case Several => UriUnique(s) ==> uri == ""
  {
    var h := Holders(s, uri);
    assert forall e :: e in h <==> e in s.entries && s.entries[e].uri == Some(uri);
    match ByUri(s, uri)
    case Nobody =>
    case Held(e) => assert h == {e};
    case Several =>
      var e :| e in h && h != {e};
      var f :| f in h && f != e;
  }

  // ---- how a corpus may change ---------------------------------------------------------

  /** One entry kept its identity: the same depositor and mutability, no tag lost, and the same
      URI, unless it was a capture's that was released, with an event saying so. */
  ghost predicate EntryEvolves(id: Id, a: Entry, b: Entry, events: seq<Event>) {
    && b.depositor == a.depositor && b.mutability == a.mutability && a.tags <= b.tags
    && (b.uri == a.uri || (b.uri == None && a.depositor in CAPTURE_DEPOSITORS && ReleasedIn(id, a.uri, a.depositor, events)))
  }

  ghost predicate ReleasedIn(id: Id, uri: Option<string>, owner: string, events: seq<Event>) {
    exists i :: 0 <= i < |events| && events[i].UriReleased? && events[i].entry == id && events[i].uri == uri && events[i].to != owner
  }

  /** Nothing is lost from `s` to `t`: every entry keeps its identity, every snapshot is as it was. */
  ghost predicate Evolves(s: Corpus, t: Corpus) {
    && s.events <= t.events
    && (forall x :: x in s.snaps ==> x in t.snaps && t.snaps[x] == s.snaps[x])
    && (forall e :: e in s.entries ==> e in t.entries && EntryEvolves(e, s.entries[e], t.entries[e], t.events[|s.events|..]))
  }

  lemma ReleasedInLonger(id: Id, uri: Option<string>, owner: string, before: seq<Event>, events: seq<Event>, after: seq<Event>)
    requires ReleasedIn(id, uri, owner, events)
    ensures ReleasedIn(id, uri, owner, before + events + after)
  {
    var i :| 0 <= i < |events| && events[i].UriReleased? && events[i].entry == id && events[i].uri == uri && events[i].to != owner;
    assert (before + events + after)[|before| + i] == events[i];
  }

  lemma EntryEvolvesTransitive(id: Id, a: Entry, b: Entry, e: Entry, first: seq<Event>, second: seq<Event>)
    requires EntryEvolves(id, a, b, first) && EntryEvolves(id, b, e, second)
    ensures EntryEvolves(id, a, e, first + second)
  {
    if b.uri != a.uri {
      ReleasedInLonger(id, a.uri, a.depositor, [], first, second);
      assert [] + first + second == first + second;
    } else if e.uri != b.uri {
      ReleasedInLonger(id, b.uri, b.depositor, first, second, []);
      assert first + second + [] == first + second;
    }
  }

  lemma EvolvesTransitive(s: Corpus, t: Corpus, u: Corpus)
    requires Evolves(s, t) && Evolves(t, u)
    ensures Evolves(s, u)
  {
    var first, second := t.events[|s.events|..], u.events[|t.events|..];
    assert u.events[|s.events|..] == first + second;
    forall e | e in s.entries ensures e in u.entries && EntryEvolves(e, s.entries[e], u.entries[e], u.events[|s.events|..]) {
      EntryEvolvesTransitive(e, s.entries[e], t.entries[e], u.entries[e], first, second);
    }
  }

  // ---- the two kinds of effect ----------------------------------------------------------

  /** Only entry `id` changed, and not its identity; at most the new snapshot was added, to it. */
  ghost predicate Touch(s: Corpus, t: Corpus, id: Id, d: Draws) {
    && id in s.entries && id in t.entries && t.entries == s.entries[id := t.entries[id]]
    && t.entries[id].uri == s.entries[id].uri && t.entries[id].depositor == s.entries[id].depositor
    && t.entries[id].mutability == s.entries[id].mutability && s.entries[id].tags <= t.entries[id].tags
    && s.events <= t.events
    && (t.snaps == s.snaps
        || (d.newSnap in t.snaps && t.snaps == s.snaps[d.newSnap := t.snaps[d.newSnap]]
            && t.snaps[d.newSnap].entry == id && t.snaps[d.newSnap].capturedAt == d.t2))
  }

  lemma TouchEvolves(s: Corpus, t: Corpus, id: Id, d: Draws)
    requires Touch(s, t, id, d) && WellFormed(s) && Fresh(s, d)
    ensures Evolves(s, t) && WellFormed(t)
  {
    TouchKeepsUris(s, t, id, d);
  }

  lemma TouchKeepsUris(s: Corpus, t: Corpus, id: Id, d: Draws)
    requires Touch(s, t, id, d) && UriUnique(s)
    ensures UriUnique(t) && t.entries.Keys == s.entries.Keys
  {
    assert forall e :: e in s.entries ==> e in t.entries && t.entries[e].uri == s.entries[e].uri;
    assert forall e :: e in t.entries ==> e in s.entries;
  }

  lemma CreateEvolves(s: Corpus, q: Request, d: Draws)
    requires WellFormed(s) && Fresh(s, d)
    requires Named(q.uri) ==> forall e :: e in s.entries ==> s.entries[e].uri != q.uri
    ensures Evolves(s, Create(s, q, d)) && WellFormed(Create(s, q, d))
  {
    var t := Create(s, q, d);
    assert forall e :: e in s.entries ==> e in t.entries && t.entries[e] == s.entries[e];
    assert forall e :: e in t.entries && e != d.newEntry ==> e in s.entries;
  }

  lemma ReleaseEvolves(s: Corpus, id: Id, to: string)
    requires WellFormed(s) && id in s.entries && ForeignCapture(s.entries[id], to)
    ensures Evolves(s, Release(s, id, to)) && WellFormed(Release(s, id, to))
    ensures Release(s, id, to).entries.Keys == s.entries.Keys && Release(s, id, to).snaps == s.snaps
  {
    var t := Release(s, id, to);
    assert t.events[|s.events|..] == [UriReleased(id, s.entries[id].uri, to)];
    assert t.events[|s.events|..][0] == UriReleased(id, s.entries[id].uri, to);
    assert forall e :: e in s.entries && e != id ==> t.entries[e] == s.entries[e];
  }

  /** A deposit that lands on an entry touches that one only. */
  lemma LandTouches(c: Config, s: Corpus, id: Id, q: Request, own: bool, d: Draws)
    requires id in s.entries
    ensures Touch(s, Land(c, s, Some(id), q, own, d).corpus, id, d)
  {}

  /** After the URI tier with nobody joined, nobody holds the URI. */
  lemma NobodyHolds(s: Corpus, uri: string, depositor: string, confined: Option<string>)
    requires UriStage(s, uri, depositor, confined).Go? && UriStage(s, uri, depositor, confined).existing.None?
    ensures var t := UriStage(s, uri, depositor, confined).corpus;
      forall e :: e in t.entries ==> t.entries[e].uri != Some(uri)
  {
    ByUriExact(s, uri);
  }

  lemma UriStageEvolves(s: Corpus, uri: string, depositor: string, confined: Option<string>)
    requires WellFormed(s) && UriStage(s, uri, depositor, confined).Go?
    ensures var t := UriStage(s, uri, depositor, confined).corpus;
      Evolves(s, t) && WellFormed(t) && t.entries.Keys == s.entries.Keys && t.snaps == s.snaps
  {
    ByUriExact(s, uri);
    match ByUri(s, uri)
    case Held(e) => if ForeignCapture(s.entries[e], depositor) { ReleaseEvolves(s, e, depositor); }
    case _ =>
  }

  lemma LandEvolves(c: Config, s: Corpus, target: Option<Id>, q: Request, own: bool, d: Draws)
    requires WellFormed(s) && Fresh(s, d) && (target.Some? ==> target.value in s.entries)
    requires target.None? && Named(q.uri) ==> forall e :: e in s.entries ==> s.entries[e].uri != q.uri
    ensures Evolves(s, Land(c, s, target, q, own, d).corpus) && WellFormed(Land(c, s, target, q, own, d).corpus)
  {
    if target.Some? {
      LandTouches(c, s, target.value, q, own, d);
      TouchEvolves(s, Land(c, s, target, q, own, d).corpus, target.value, d);
    } else {
      CreateEvolves(s, q, d);
    }
  }

  lemma FirstStageEvolves(s: Corpus, q: Request, confined: Option<string>, d: Draws)
    requires WellFormed(s) && Fresh(s, d) && FirstStage(s, q, confined).Go?
    ensures var t := FirstStage(s, q, confined).corpus;
      && Evolves(s, t) && WellFormed(t) && Fresh(t, d)
      && (FirstStage(s, q, confined).existing.None? && Named(q.uri) ==> forall e :: e in t.entries ==> t.entries[e].uri != q.uri)
  {
    if Named(q.uri) {
      UriStageEvolves(s, q.uri.value, q.depositor, confined);
      if FirstStage(s, q, confined).existing.None? { NobodyHolds(s, q.uri.value, q.depositor, confined); }
    }
  }

  /** Every `write_entry_and_snapshot` loses nothing and keeps URIs unique. */
  lemma DepositEvolves(c: Config, confined: Option<string>, s: Corpus, q: Request, d: Draws)
    requires WellFormed(s) && Fresh(s, d)
    ensures Evolves(s, Deposit(c, confined, s, q, d).corpus) && WellFormed(Deposit(c, confined, s, q, d).corpus)
  {
    var st := FirstStage(s, q, confined);
    if st.Go? {
      FirstStageEvolves(s, q, confined, d);
      StageTargets(c, s, q, confined, Own(q, confined), d.hit);
      LandEvolves(c, st.corpus, Target(c, st, q, Own(q, confined), d.hit), q, Own(q, confined), d);
      EvolvesTransitive(s, st.corpus, Deposit(c, confined, s, q, d).corpus);
    }
  }

  lemma ReconcileTextTouches(c: Config, s: Corpus, id: Id, q: TextRequest, d: Draws)
    requires id in s.entries
    ensures Touch(s, ReconcileText(c, s, id, q), id, d) && ReconcileText(c, s, id, q).snaps == s.snaps
  {}

  lemma ReconcileTextEvolves(c: Config, s: Corpus, id: Id, q: TextRequest, d: Draws)
    requires WellFormed(s) && Fresh(s, d) && id in s.entries
    ensures var t := ReconcileText(c, s, id, q); Evolves(s, t) && WellFormed(t) && Fresh(t, d)
  {
    ReconcileTextTouches(c, s, id, q, d);
    TouchEvolves(s, ReconcileText(c, s, id, q), id, d);
  }

  lemma TextEvolves(c: Config, confined: Option<string>, s: Corpus, q: TextRequest, d: Draws)
    requires WellFormed(s) && Fresh(s, d)
    ensures Evolves(s, DepositText(c, confined, s, q, d).corpus) && WellFormed(DepositText(c, confined, s, q, d).corpus)
  {
    var st := UriStage(s, q.uri, q.depositor, confined);
    if st.Go? {
      UriStageEvolves(s, q.uri, q.depositor, confined);
      var s2 := st.corpus;
      if st.existing.Some? {
        ByUriExact(s, q.uri);
        s2 := ReconcileText(c, s, st.existing.value, q);
        ReconcileTextEvolves(c, s, st.existing.value, q, d);
      }
      DepositEvolves(c, confined, s2, AsRequest(q), d);
      EvolvesTransitive(s, s2, Deposit(c, confined, s2, AsRequest(q), d).corpus);
    }
  }

  // ---- runs -------------------------------------------------------------------------------

  datatype Act =
    | Put(confined: Option<string>, q: Request, d: Draws)
    | PutText(confined: Option<string>, text: TextRequest, d: Draws)
    | PutCapture(confined: Option<string>, url: Option<Request>, file: Request, d: Draws)
    | Lose(entry: Id, emptyHash: string, refersTo: Option<Id>, d: Draws)

  ghost function Next(c: Config, s: Corpus, a: Act): Outcome {
    match a
    case Put(confined, q, d) => Deposit(c, confined, s, q, d)
    case PutText(confined, q, d) => DepositText(c, confined, s, q, d)
    case PutCapture(confined, url, file, d) => Deposit(c, confined, s, CaptureRequest(s, url, file), d)
    case Lose(e, hash, refersTo, d) => Outcome(RecordAbsence(s, e, hash, refersTo, d.t2, d.newSnap), Deposited(e, d.newSnap, false))
  }

  ghost predicate ActOk(s: Corpus, a: Act) { Fresh(s, a.d) && (a.Lose? ==> a.entry in s.entries) }

  ghost predicate RunOk(c: Config, s: Corpus, acts: seq<Act>)
    decreases |acts|
  {
    acts == [] || (ActOk(s, acts[0]) && RunOk(c, Next(c, s, acts[0]).corpus, acts[1..]))
  }

  ghost function After(c: Config, s: Corpus, acts: seq<Act>): Corpus
    decreases |acts|
  {
    if acts == [] then s else After(c, Next(c, s, acts[0]).corpus, acts[1..])
  }

  lemma NextEvolves(c: Config, s: Corpus, a: Act)
    requires WellFormed(s) && ActOk(s, a)
    ensures Evolves(s, Next(c, s, a).corpus) && WellFormed(Next(c, s, a).corpus)
  {
    match a
    case Put(confined, q, d) => DepositEvolves(c, confined, s, q, d);
    case PutText(confined, q, d) => TextEvolves(c, confined, s, q, d);
    case PutCapture(confined, url, file, d) => DepositEvolves(c, confined, s, CaptureRequest(s, url, file), d);
    case Lose(e, hash, refersTo, d) =>
      var t := Next(c, s, a).corpus;
      assert t.entries == s.entries[e := t.entries[e]];
      assert Touch(s, t, e, d);
      TouchEvolves(s, t, e, d);
  }

  /** Over every run of deposits, confined or not, by any depositors. */
  lemma {:induction false} RunEvolves(c: Config, s: Corpus, acts: seq<Act>)
    requires WellFormed(s) && RunOk(c, s, acts)
    ensures Evolves(s, After(c, s, acts)) && WellFormed(After(c, s, acts))
    decreases |acts|
  {
    if acts != [] {
      var t := Next(c, s, acts[0]).corpus;
      NextEvolves(c, s, acts[0]);
      RunEvolves(c, t, acts[1..]);
      EvolvesTransitive(s, t, After(c, s, acts));
    }
  }

  /** A URL once held by an entry that is no capture's is held by that entry, and no other, for ever. */
  lemma UrlIsHeldForEver(c: Config, s: Corpus, acts: seq<Act>, e: Id)
    requires WellFormed(s) && RunOk(c, s, acts)
    requires e in s.entries && s.entries[e].depositor !in CAPTURE_DEPOSITORS && Named(s.entries[e].uri)
    ensures ByUri(After(c, s, acts), s.entries[e].uri.value) == Held(e)
  {
    RunEvolves(c, s, acts);
    ByUriExact(After(c, s, acts), s.entries[e].uri.value);
  }

  // ---- confinement ------------------------------------------------------------------------

  /** Entry `e` and its snapshots are exactly what they were. */
  ghost predicate Untouched(s: Corpus, t: Corpus, e: Id) {
    && e in s.entries && e in t.entries && t.entries[e] == s.entries[e]
    && (forall x :: x in s.snaps && s.snaps[x].entry == e ==> x in t.snaps && t.snaps[x] == s.snaps[x])
    && (forall x :: x in t.snaps && t.snaps[x].entry == e ==> x in s.snaps && t.snaps[x] == s.snaps[x])
  }

  /** A content-hash query for the depositor's own entries yields one of those. */
  ghost predicate HitIsOwn(s: Corpus, depositor: string, hit: Option<Id>) {
    hit.Some? && hit.value in s.entries ==> s.entries[hit.value].depositor == depositor
  }

  ghost predicate OthersUntouched(s: Corpus, t: Corpus, owners: set<string>) {
    forall e :: e in s.entries && s.entries[e].depositor !in owners ==> Untouched(s, t, e)
  }

  lemma UntouchedTransitive(s: Corpus, t: Corpus, u: Corpus, e: Id)
    requires Untouched(s, t, e) && Untouched(t, u, e)
    ensures Untouched(s, u, e)
  {}

  lemma TouchLeavesOthers(s: Corpus, t: Corpus, id: Id, d: Draws, e: Id)
    requires Touch(s, t, id, d) && Fresh(s, d) && e in s.entries && e != id
    ensures Untouched(s, t, e)
  {}

  lemma TouchLeavesAllOthers(s: Corpus, t: Corpus, id: Id, d: Draws, owners: set<string>)
    requires Touch(s, t, id, d) && Fresh(s, d) && s.entries[id].depositor in owners
    ensures OthersUntouched(s, t, owners)
  {
    forall e | e in s.entries && s.entries[e].depositor !in owners ensures Untouched(s, t, e) { TouchLeavesOthers(s, t, id, d, e); }
  }

  lemma OthersTransitive(s: Corpus, t: Corpus, u: Corpus, owners: set<string>)
    requires OthersUntouched(s, t, owners) && OthersUntouched(t, u, owners)
    ensures OthersUntouched(s, u, owners)
  {
    forall e | e in s.entries && s.entries[e].depositor !in owners ensures Untouched(s, u, e) { UntouchedTransitive(s, t, u, e); }
  }

  lemma CreateLeavesOthers(s: Corpus, q: Request, d: Draws, e: Id)
    requires Fresh(s, d) && e in s.entries
    ensures Untouched(s, Create(s, q, d), e)
  {}

  /** A confined deposit, recorded as one of its owner's names, is refused or touches only its own. */
  lemma ConfinedDeposit(c: Config, who: string, s: Corpus, q: Request, d: Draws)
    requires WellFormed(s) && Fresh(s, d) && q.depositor in Owners(who) && HitIsOwn(s, q.depositor, d.hit)
    ensures OthersUntouched(s, Deposit(c, Some(who), s, q, d).corpus, Owners(who))
    ensures Deposit(c, Some(who), s, q, d).result == Refused ==> Deposit(c, Some(who), s, q, d).corpus == s
  {
    var st := FirstStage(s, q, Some(who));
    if st.Go? {
      if Named(q.uri) { ConfinedStage(s, q.uri.value, q.depositor, who); }
      assert st.corpus == s;
      StageTargets(c, s, q, Some(who), true, d.hit);
      var target := Target(c, st, q, true, d.hit);
      LandLeavesOthers(c, s, target, q, true, d, Owners(who));
    }
  }

  lemma LandLeavesOthers(c: Config, s: Corpus, target: Option<Id>, q: Request, own: bool, d: Draws, owners: set<string>)
    requires Fresh(s, d) && (target.Some? ==> target.value in s.entries && s.entries[target.value].depositor in owners)
    ensures OthersUntouched(s, Land(c, s, target, q, own, d).corpus, owners)
  {
    if target.Some? {
      LandTouches(c, s, target.value, q, own, d);
      TouchLeavesAllOthers(s, Land(c, s, target, q, own, d).corpus, target.value, d, owners);
    } else {
      forall e | e in s.entries ensures Untouched(s, Create(s, q, d), e) { CreateLeavesOthers(s, q, d, e); }
    }
  }

  /** Under confinement the URI tier never releases, and joins only an own entry. */
  lemma ConfinedStage(s: Corpus, uri: string, depositor: string, who: string)
    requires depositor in Owners(who) && UriStage(s, uri, depositor, Some(who)).Go?
    ensures UriStage(s, uri, depositor, Some(who)).corpus == s
    ensures var e := UriStage(s, uri, depositor, Some(who)).existing;
      e.Some? ==> e.value in s.entries && s.entries[e.value].depositor in Owners(who)
  {
    ByUriExact(s, uri);
    HarvestIsNoCapture();
  }

  lemma HarvestIsNoCapture()
    ensures HARVEST_DEPOSITORS !! CAPTURE_DEPOSITORS
  {
    assert "claude-code-hook"[0] != "web-clipper"[0] && "audit"[0] != "web-clipper"[0];
  }

  lemma ConfinedText(c: Config, who: string, s: Corpus, q: TextRequest, d: Draws)
    requires WellFormed(s) && Fresh(s, d) && q.depositor in Owners(who) && HitIsOwn(s, q.depositor, d.hit)
    ensures OthersUntouched(s, DepositText(c, Some(who), s, q, d).corpus, Owners(who))
    ensures DepositText(c, Some(who), s, q, d).result == Refused ==> DepositText(c, Some(who), s, q, d).corpus == s
  {
    var st := UriStage(s, q.uri, q.depositor, Some(who));
    if st.Go? {
      ConfinedStage(s, q.uri, q.depositor, who);
      if st.existing.None? {
        ConfinedDeposit(c, who, s, AsRequest(q), d);
      } else {
        ConfinedTextOntoOwn(c, who, s, st.existing.value, q, d);
        JoinedTextIsNotRefused(c, who, s, st.existing.value, q, d);
      }
    }
  }

  lemma ConfinedTextOntoOwn(c: Config, who: string, s: Corpus, id: Id, q: TextRequest, d: Draws)
    requires WellFormed(s) && Fresh(s, d) && q.depositor in Owners(who) && HitIsOwn(s, q.depositor, d.hit)
    requires UriStage(s, q.uri, q.depositor, Some(who)) == Go(s, Some(id)) && id in s.entries && s.entries[id].depositor in Owners(who)
    ensures OthersUntouched(s, DepositText(c, Some(who), s, q, d).corpus, Owners(who))
  {
    var s2 := ReconcileText(c, s, id, q);
    ReconcileTextTouches(c, s, id, q, d);
    ReconcileTextEvolves(c, s, id, q, d);
    ConfinedDeposit(c, who, s2, AsRequest(q), d);
    TouchLeavesAllOthers(s, s2, id, d, Owners(who));
    OthersTransitive(s, s2, Deposit(c, Some(who), s2, AsRequest(q), d).corpus, Owners(who));
  }

  lemma JoinedTextIsNotRefused(c: Config, who: string, s: Corpus, id: Id, q: TextRequest, d: Draws)
    requires UriStage(s, q.uri, q.depositor, Some(who)) == Go(s, Some(id)) && id in s.entries
    ensures DepositText(c, Some(who), s, q, d).result != Refused
  {
    ReconcileTextTouches(c, s, id, q, d);
    SecondStageJoins(s, ReconcileText(c, s, id, q), id, q, who, d);
  }

  /** The second look-up finds the entry the first one did, so it refuses nothing. */
  lemma SecondStageJoins(s: Corpus, s2: Corpus, id: Id, q: TextRequest, who: string, d: Draws)
    requires UriStage(s, q.uri, q.depositor, Some(who)) == Go(s, Some(id)) && Touch(s, s2, id, d)
    ensures UriStage(s2, q.uri, q.depositor, Some(who)) == Go(s2, Some(id))
  {
    ByUriExact(s, q.uri);
    ByUriExact(s2, q.uri);
    assert Holders(s2, q.uri) == Holders(s, q.uri);
  }

  /** Every act of the run is a deposit confined to `who` and recorded under a name of its owner. */
  ghost predicate ConfinedAct(c: Config, who: string, s: Corpus, a: Act) {
    match a
    case Put(confined, q, d) => confined == Some(who) && q.depositor in Owners(who) && HitOk(c, s, q, true, d.hit)
    case PutText(confined, q, d) =>
      confined == Some(who) && q.depositor in Owners(who) && HitOk(c, s, AsRequest(q), true, d.hit)
    case PutCapture(confined, url, file, d) =>
      var q := CaptureRequest(s, url, file);
      confined == Some(who) && q.depositor in Owners(who) && HitOk(c, s, q, true, d.hit)
    case Lose(_, _, _, _) => false
  }

  ghost predicate ConfinedRun(c: Config, who: string, s: Corpus, acts: seq<Act>)
    decreases |acts|
  {
    acts == [] || (ConfinedAct(c, who, s, acts[0]) && ConfinedRun(c, who, Next(c, s, acts[0]).corpus, acts[1..]))
  }

  lemma ConfinedNext(c: Config, who: string, s: Corpus, a: Act)
    requires WellFormed(s) && ActOk(s, a) && ConfinedAct(c, who, s, a)
    ensures OthersUntouched(s, Next(c, s, a).corpus, Owners(who))
    ensures Next(c, s, a).result == Refused ==> Next(c, s, a).corpus == s
  {
    match a
    case Put(confined, q, d) => ConfinedDeposit(c, who, s, q, d);
    case PutText(confined, q, d) => ConfinedText(c, who, s, q, d);
    case PutCapture(confined, url, file, d) => ConfinedDeposit(c, who, s, CaptureRequest(s, url, file), d);
    case Lose(_, _, _, _) =>
  }

  /** Over every run confined to `who`, each entry of anyone else keeps its URI, type, tags,
      policy and snapshots exactly. */
  lemma {:induction false} ConfinedRunLeavesOthers(c: Config, who: string, s: Corpus, acts: seq<Act>)
    requires WellFormed(s) && RunOk(c, s, acts) && ConfinedRun(c, who, s, acts)
    ensures OthersUntouched(s, After(c, s, acts), Owners(who))
    decreases |acts|
  {
    if acts != [] {
      var t := Next(c, s, acts[0]).corpus;
      NextEvolves(c, s, acts[0]);
      ConfinedNext(c, who, s, acts[0]);
      ConfinedRunLeavesOthers(c, who, t, acts[1..]);
      OthersTransitive(s, t, After(c, s, acts), Owners(who));
    }
  }

  /** An owner's names are its own, but that the two harvesters are one owner. */
  lemma OwnersExactly(who: string, name: string)
    ensures name in Owners(who) <==> name == who || {who, name} <= {"claude-code-hook", "audit"}
  {}

  /** The refusal is exactly this: the URI is held, by an entry outside the owner's names. */
  lemma RefusedExactly(c: Config, who: string, s: Corpus, q: Request, d: Draws)
    requires WellFormed(s)
    ensures Deposit(c, Some(who), s, q, d).result == Refused <==>
      Named(q.uri) && exists e :: e in s.entries && s.entries[e].uri == q.uri && s.entries[e].depositor !in Owners(who)
    ensures Deposit(c, Some(who), s, q, d).result != Raised
  {
    if Named(q.uri) { ByUriExact(s, q.uri.value); }
  }
}
