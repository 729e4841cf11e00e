/** particles/corpus/deposit.py: which entry a deposit joins, and everything it may change. */
module DepositRules {
  import opened Options
  import opened Deposits
  import opened DepositRuns
  import opened DepositRepeats

  // ---- a deposit, seen as its first stage and a landing ---------------------------------------

  /** The entry a deposit lands on, if one was there. */
  ghost function TargetOf(c: Config, confined: Option<string>, s: Corpus, q: Request, d: Draws): Option<Id>
    requires FirstStage(s, q, confined).Go?
  {
    Target(c, FirstStage(s, q, confined), q, Own(q, confined), d.hit)
  }

  lemma DepositIsLanding(c: Config, confined: Option<string>, s: Corpus, q: Request, d: Draws)
    requires FirstStage(s, q, confined).Go?
    ensures var st, target := FirstStage(s, q, confined), TargetOf(c, confined, s, q, d);
      (target.Some? ==> target.value in st.corpus.entries) && Deposit(c, confined, s, q, d) == Land(c, st.corpus, target, q, Own(q, confined), d)
  {
    StageTargets(c, s, q, confined, Own(q, confined), d.hit);
  }

  /** The first stage adds nothing, and changes at most the URI of another depositor's capture. */
  lemma StageKeeps(s: Corpus, q: Request, confined: Option<string>, d: Draws, e: Id)
    requires FirstStage(s, q, confined).Go? && e in s.entries && Fresh(s, d)
    ensures var t := FirstStage(s, q, confined).corpus;
      && t.snaps == s.snaps && t.entries.Keys == s.entries.Keys && Fresh(t, d)
      && (t.entries[e] == s.entries[e]
          || (Named(q.uri) && s.entries[e].uri == q.uri && ForeignCapture(s.entries[e], q.depositor)
              && t.entries[e] == s.entries[e].(uri := None)))
  {
    if Named(q.uri) { ByUriExact(s, q.uri.value); }
  }

  // ---- the frame of a deposit -------------------------------------------------------------

  /** A capture's entry that another depositor's deposit took the URL from: only its URI went. */
  ghost predicate GaveUpUri(s: Corpus, t: Corpus, e: Id, q: Request) {
    && e in s.entries && e in t.entries && Named(q.uri) && s.entries[e].uri == q.uri
    && ForeignCapture(s.entries[e], q.depositor) && t.entries[e] == s.entries[e].(uri := None)
    && (forall x :: x in s.snaps && s.snaps[x].entry == e ==> x in t.snaps && t.snaps[x] == s.snaps[x])
    && (forall x :: x in t.snaps && t.snaps[x].entry == e ==> x in s.snaps && t.snaps[x] == s.snaps[x])
  }

  lemma LandLeaves(c: Config, s: Corpus, target: Option<Id>, q: Request, own: bool, d: Draws, e: Id)
    requires Fresh(s, d) && e in s.entries && (target.Some? ==> target.value in s.entries && target.value != e)
    ensures Untouched(s, Land(c, s, target, q, own, d).corpus, e)
  {
    if target.Some? {
      LandTouches(c, s, target.value, q, own, d);
      TouchLeavesOthers(s, Land(c, s, target, q, own, d).corpus, target.value, d, e);
    } else {
      CreateLeavesOthers(s, q, d, e);
    }
  }

  lemma LandReturns(c: Config, s: Corpus, target: Option<Id>, q: Request, own: bool, d: Draws)
    requires target.Some? ==> target.value in s.entries
    ensures var r := Land(c, s, target, q, own, d).result;
      r.Deposited? && r.entry == (if target.Some? then target.value else d.newEntry)
  {}

  /** Whatever a deposit does, confined or not, each entry there before is the one it returns, is
      exactly as it was with its snapshots, or is a capture's that gave up its URI and nothing else. */
  lemma DepositFrame(c: Config, confined: Option<string>, s: Corpus, q: Request, d: Draws, e: Id)
    requires Fresh(s, d) && e in s.entries
    ensures var o := Deposit(c, confined, s, q, d);
      || (o.result.Deposited? && o.result.entry == e)
      || Untouched(s, o.corpus, e)
      || GaveUpUri(s, o.corpus, e, q)
  {
    var o, st := Deposit(c, confined, s, q, d), FirstStage(s, q, confined);
    if st.Go? && !(o.result.Deposited? && o.result.entry == e) {
      StageKeeps(s, q, confined, d, e);
      DepositIsLanding(c, confined, s, q, d);
      var target := TargetOf(c, confined, s, q, d);
      LandReturns(c, st.corpus, target, q, Own(q, confined), d);
      LandLeaves(c, st.corpus, target, q, Own(q, confined), d, e);
    }
  }

  // ---- which entry is joined -----------------------------------------------------------------

  /** A content-hash match this request may join. */
  predicate MayJoinByHash(c: Config, e: Entry, q: Request, own: bool) {
    && !q.byPath && (q.mutability == Mutable ==> c.projectKeys(q.tags) == {})
    && (own ==> e.stype == q.stype)
    && (c.projectKeys(q.tags) != {} ==> !c.isGlobal(e.tags))
    && (e.uri.Some? && "file://" <= e.uri.value ==>
          e.depositor == q.depositor && (q.untrusted ==> e.policy == Never && e.stype == q.stype))
    && (e.depositor in CAPTURE_DEPOSITORS ==> e.depositor == q.depositor)
  }

  /** The entry that holds the request's URI and is not another depositor's capture. */
  ghost predicate JoinsByUri(s: Corpus, q: Request, e: Id) {
    Named(q.uri) && e in s.entries && s.entries[e].uri == q.uri && !ForeignCapture(s.entries[e], q.depositor)
  }

  /** A deposit that is not refused joins an entry there before exactly when that entry holds its
      URI, or nobody it may join does, the query yields it, and the hash rules let it. */
  lemma JoinsExactly(c: Config, confined: Option<string>, s: Corpus, q: Request, d: Draws, e: Id)
    requires WellFormed(s) && Fresh(s, d) && e in s.entries && Deposit(c, confined, s, q, d).result != Refused
    ensures Deposit(c, confined, s, q, d).result.Deposited?
    ensures Deposit(c, confined, s, q, d).result.entry == e <==>
      || JoinsByUri(s, q, e)
      || (d.hit == Some(e) && MayJoinByHash(c, s.entries[e], q, Own(q, confined)) && forall f :: !JoinsByUri(s, q, f))
  {
    var st := FirstStage(s, q, confined);
    if Named(q.uri) { ByUriExact(s, q.uri.value); }
    DepositIsLanding(c, confined, s, q, d);
    LandReturns(c, st.corpus, TargetOf(c, confined, s, q, d), q, Own(q, confined), d);
    if st.existing.Some? {
      assert JoinsByUri(s, q, st.existing.value);
      assert JoinsByUri(s, q, e) ==> e == st.existing.value;
    } else {
      assert forall f :: !JoinsByUri(s, q, f);
      HashStageExact(c, s, q, confined, Own(q, confined), d.hit, e);
    }
  }

  lemma HashStageExact(c: Config, s: Corpus, q: Request, confined: Option<string>, own: bool, hit: Option<Id>, e: Id)
    requires FirstStage(s, q, confined).Go? && FirstStage(s, q, confined).existing.None? && e in s.entries
    ensures HashStage(c, FirstStage(s, q, confined).corpus, q, own, hit) == Some(e)
       <==> hit == Some(e) && MayJoinByHash(c, s.entries[e], q, own)
  {
    if Named(q.uri) { ByUriExact(s, q.uri.value); }
  }

  // ---- what the returned entry then holds -----------------------------------------------------------

  /** What the returned entry's latest record then is. */
  ghost predicate HoldsTheBytes(before: map<Id, Snap>, o: Outcome, q: Request, d: Draws) {
    && o.result.Deposited? && o.result.entry in o.corpus.entries
    && var latest := Latest(o.corpus, o.result.entry);
       && latest.Some? && latest.value in o.corpus.snaps && o.corpus.snaps[latest.value].hash == q.hash
       && (o.result.same ==> o.corpus.snaps == before && o.corpus.entries[o.result.entry].stype == q.stype)
       && (!o.result.same ==> latest.value == o.result.snap && o.result.snap !in before
                              && DatedBy(o.corpus.snaps[o.result.snap].published, q, d))
  }

  /** The request's date, unless that lies in the future; and never a future one. */
  predicate DatedBy(published: Option<int>, q: Request, d: Draws) {
    && (published.Some? ==> published.value <= d.t1)
    && (q.published.None? || q.published.value <= d.t1 ==> published == q.published)
  }

  /** After any deposit the returned entry's latest record carries the deposited bytes; a record
      written for it is dated no later than the call. */
  lemma LatestHoldsTheBytes(c: Config, confined: Option<string>, s: Corpus, q: Request, d: Draws)
    requires WellFormed(s) && Fresh(s, d) && Deposit(c, confined, s, q, d).result.Deposited?
    ensures HoldsTheBytes(s.snaps, Deposit(c, confined, s, q, d), q, d)
  {
    DepositIsLanding(c, confined, s, q, d);
    StageIsFresh(s, q, confined, d);
    DepositTimes(c, confined, s, q, d);
    LandHoldsTheBytes(c, FirstStage(s, q, confined).corpus, TargetOf(c, confined, s, q, d), q, Own(q, confined), d);
  }

  lemma StageIsFresh(s: Corpus, q: Request, confined: Option<string>, d: Draws)
    requires FirstStage(s, q, confined).Go? && Fresh(s, d)
    ensures FirstStage(s, q, confined).corpus.snaps == s.snaps && Fresh(FirstStage(s, q, confined).corpus, d)
  {
    if Named(q.uri) { ByUriExact(s, q.uri.value); }
  }

  lemma DepositTimes(c: Config, confined: Option<string>, s: Corpus, q: Request, d: Draws)
    requires WellFormed(s) && Fresh(s, d)
    ensures TimesDistinct(Deposit(c, confined, s, q, d).corpus)
  {
    DepositEvolves(c, confined, s, q, d);
  }

  lemma LandHoldsTheBytes(c: Config, s: Corpus, target: Option<Id>, q: Request, own: bool, d: Draws)
    requires Fresh(s, d) && (target.Some? ==> target.value in s.entries) && TimesDistinct(Land(c, s, target, q, own, d).corpus)
    ensures HoldsTheBytes(s.snaps, Land(c, s, target, q, own, d), q, d)
  {
    var o := Land(c, s, target, q, own, d);
    if !o.result.same {
      NewSnapIsLatest(s, o.corpus, o.result.entry, q, d);
    }
  }

  /** Project keys reach attributed entries only: a global entry's tags are left alone, and an
      attributed one then has every key of the request. */
  lemma KeysReachOnlyAttributed(c: Config, confined: Option<string>, s: Corpus, q: Request, d: Draws, e: Id)
    requires ConfigContract(c) && Fresh(s, d) && e in s.entries
    requires Deposit(c, confined, s, q, d).result.Deposited? && Deposit(c, confined, s, q, d).result.entry == e
    ensures var t := Deposit(c, confined, s, q, d).corpus;
      && e in t.entries
      && (c.isGlobal(s.entries[e].tags) ==> t.entries[e].tags == s.entries[e].tags)
      && (!c.isGlobal(s.entries[e].tags) ==> c.projectKeys(q.tags) <= c.projectKeys(t.entries[e].tags))
  {
    var st := FirstStage(s, q, confined);
    StageKeeps(s, q, confined, d, e);
    DepositIsLanding(c, confined, s, q, d);
    LandReturns(c, st.corpus, TargetOf(c, confined, s, q, d), q, Own(q, confined), d);
    LandTags(c, st.corpus, e, q, Own(q, confined), d);
    ReconcileSettles(c, st.corpus, e, st.corpus.entries[e], q.tags);
  }

  lemma LandTags(c: Config, s: Corpus, e: Id, q: Request, own: bool, d: Draws)
    requires e in s.entries
    ensures var t := Land(c, s, Some(e), q, own, d).corpus;
      && e in t.entries && t.entries[e].tags == ReconcileKeys(c, s, e, s.entries[e], q.tags).entries[e].tags
      && t.entries[e].policy == s.entries[e].policy
      && t.entries[e].stype == (if own then s.entries[e].stype else q.stype)
  {}

  /** No deposit changes an entry's policy; one confined to its own entries changes no type, and
      any other leaves the returned entry with the type asked for. */
  lemma TypeAndPolicy(c: Config, confined: Option<string>, s: Corpus, q: Request, d: Draws, e: Id)
    requires Fresh(s, d) && e in s.entries
    ensures var o := Deposit(c, confined, s, q, d);
      && e in o.corpus.entries && o.corpus.entries[e].policy == s.entries[e].policy
      && (Own(q, confined) ==> o.corpus.entries[e].stype == s.entries[e].stype)
      && (!Own(q, confined) && o.result.Deposited? && o.result.entry == e ==> o.corpus.entries[e].stype == q.stype)
  {
    var o, st := Deposit(c, confined, s, q, d), FirstStage(s, q, confined);
    DepositFrame(c, confined, s, q, d, e);
    if st.Go? && o.result.entry == e {
      StageKeeps(s, q, confined, d, e);
      DepositIsLanding(c, confined, s, q, d);
      LandReturns(c, st.corpus, TargetOf(c, confined, s, q, d), q, Own(q, confined), d);
      LandTags(c, st.corpus, e, q, Own(q, confined), d);
    }
  }

  /** A text deposit onto the entry that holds its URI sets the policy it asks for, and only such a
      one; enrolling it for refresh, it also gives it the request's masking tags. */
  lemma TextEnrols(c: Config, confined: Option<string>, s: Corpus, q: TextRequest, d: Draws, e: Id)
    requires ConfigContract(c) && MaskContract(c) && WellFormed(s) && Fresh(s, d) && q.uri != ""
    requires e in s.entries && s.entries[e].uri == Some(q.uri)
    requires !Foreign(confined, s.entries[e]) && !ForeignCapture(s.entries[e], q.depositor)
    ensures var o := DepositText(c, confined, s, q, d);
      && o.result.Deposited? && o.result.entry == e && e in o.corpus.entries
      && (q.policy.Some? ==> o.corpus.entries[e].policy == q.policy.value)
      && (q.policy.None? ==> o.corpus.entries[e].policy == s.entries[e].policy)
      && (q.policy == Some(Lazy) ==> REFRESH_MASKED_TAGS * q.tags <= o.corpus.entries[e].tags)
  {
    ByUriExact(s, q.uri);
    TextOntoExisting(c, confined, s, e, q, d);
    if q.policy.None? {
      ReconcileTextEvolves(c, s, e, q, d);
      TypeAndPolicy(c, confined, ReconcileText(c, s, e, q), AsRequest(q), d, e);
    }
  }

  // ---- captures ------------------------------------------------------------------------------

  /** The capture is deposited as the local file it is. */
  ghost predicate AsFile(s: Corpus, url: Option<Request>) { url.Some? ==> !MayJoin(s, url.value) }

  /** A capture's two requests are one depositor's, and the one under a URL joins only own entries. */
  predicate CaptureRequests(url: Option<Request>, file: Request) {
    url.Some? ==> url.value.own && url.value.depositor == file.depositor
  }

  /** What lets a file deposit join another depositor's entry: the entry holds the file's URI and is
      no capture's; or nobody joinable holds it, and the hash query and the hash rules yield it. */
  ghost predicate JoinsAnother(c: Config, confined: Option<string>, s: Corpus, file: Request, hit: Option<Id>, e: Id)
    requires e in s.entries
  {
    && s.entries[e].depositor != file.depositor
    && (|| (Named(file.uri) && s.entries[e].uri == file.uri && s.entries[e].depositor !in CAPTURE_DEPOSITORS)
        || (hit == Some(e) && MayJoinByHash(c, s.entries[e], file, Own(file, confined)) && forall f :: !JoinsByUri(s, file, f)))
  }

  /** A capture under the URL it names finds its own entry there, or nobody. */
  lemma UrlHolderIsOwn(s: Corpus, url: Request, e: Id)
    requires WellFormed(s) && MayJoin(s, url) && e in s.entries && s.entries[e].uri == url.uri
    ensures s.entries[e].depositor == url.depositor
  {
    ByUriExact(s, url.uri.value);
  }

  /** "Both tiers join only the depositor's own entries", exactly: another depositor's entry is the
      one a capture returns if and only if the capture falls back to its file and that file's
      deposit may join it; it gives up its URI if and only if the capture falls back to its file
      and it is a capture's that holds the file's URI; and in every other case it and its
      snapshots are exactly what they were. */
  lemma CaptureTouchesAnotherExactly(c: Config, confined: Option<string>, s: Corpus, url: Option<Request>, file: Request, d: Draws, e: Id)
    requires WellFormed(s) && Fresh(s, d) && CaptureRequests(url, file)
    requires var q := CaptureRequest(s, url, file); HitOk(c, s, q, Own(q, confined), d.hit)
    requires e in s.entries && s.entries[e].depositor != file.depositor
    requires Next(c, s, PutCapture(confined, url, file, d)).result != Refused
    ensures var o := Next(c, s, PutCapture(confined, url, file, d));
      && o.result.Deposited?
      && (o.result.entry == e <==> AsFile(s, url) && JoinsAnother(c, confined, s, file, d.hit, e))
      && (GaveUpUri(s, o.corpus, e, file) <==>
            AsFile(s, url) && Named(file.uri) && s.entries[e].uri == file.uri && s.entries[e].depositor in CAPTURE_DEPOSITORS)
      && (o.result.entry != e && !GaveUpUri(s, o.corpus, e, file) ==> Untouched(s, o.corpus, e))
  {
    var q := CaptureRequest(s, url, file);
    JoinsExactly(c, confined, s, q, d, e);
    DepositFrame(c, confined, s, q, d, e);
    if !AsFile(s, url) {
      if s.entries[e].uri == q.uri { UrlHolderIsOwn(s, q, e); }
    } else if Named(file.uri) && s.entries[e].uri == file.uri {
      HolderGivesUp(c, confined, s, file, d, e);
    }
  }

  /** Another depositor's capture that holds the request's URI gives it up. */
  lemma HolderGivesUp(c: Config, confined: Option<string>, s: Corpus, q: Request, d: Draws, e: Id)
    requires WellFormed(s) && Fresh(s, d) && e in s.entries && Named(q.uri) && s.entries[e].uri == q.uri
    requires Deposit(c, confined, s, q, d).result != Refused
    ensures e in Deposit(c, confined, s, q, d).corpus.entries
    ensures ForeignCapture(s.entries[e], q.depositor) ==> Deposit(c, confined, s, q, d).corpus.entries[e].uri == None
  {
    ByUriExact(s, q.uri.value);
    DepositFrame(c, confined, s, q, d, e);
    JoinsExactly(c, confined, s, q, d, e);
    DepositIsLanding(c, confined, s, q, d);
    var st, target := FirstStage(s, q, confined), TargetOf(c, confined, s, q, d);
    if ForeignCapture(s.entries[e], q.depositor) {
      StageIsFresh(s, q, confined, d);
      LandReturns(c, st.corpus, target, q, Own(q, confined), d);
      LandLeaves(c, st.corpus, target, q, Own(q, confined), d, e);
    }
  }

  /** The first tier's exception is real: the operator deposited a file, and a scan of its folder
      appends to the operator's entry and retypes it. */
  lemma CaptureJoinsAnotherByUri(c: Config)
    requires c.projectKeys({}) == {}
    ensures var s := Corpus(map[0 := Entry(Some("file:///a.md"), "x", Stable, Never, "operator", {})], map[0 := Snap(0, 0, "g", Response, None, None)], []);
      var file := Request(Some("file:///a.md"), "t", Stable, Never, "h", "web-clipper", {}, Response, None, false, false, false, false);
      var o := Next(c, s, PutCapture(None, None, file, Draws(1, 2, None, 1, 1)));
      WellFormed(s) && o.result == Deposited(0, 1, false) && o.corpus.entries[0].depositor == "operator" && o.corpus.entries[0].stype == "t"
  {
    var s := Corpus(map[0 := Entry(Some("file:///a.md"), "x", Stable, Never, "operator", {})], map[0 := Snap(0, 0, "g", Response, None, None)], []);
    ByUriExact(s, "file:///a.md");
    assert "operator"[0] != "web-clipper"[0];
    assert s.entries[0].uri == Some("file:///a.md");
  }

  /** So is the second's: a capture whose bytes are a page the operator deposited. */
  lemma CaptureJoinsAnotherByHash(c: Config)
    requires c.projectKeys({}) == {}
    ensures var page := Entry(Some("https://p"), "x", Stable, Never, "operator", {});
      var s := Corpus(map[0 := page], map[0 := Snap(0, 0, "h", Response, None, None)], []);
      var file := Request(Some("file:///a.md"), "t", Stable, Never, "h", "web-clipper", {}, Response, None, false, false, false, false);
      var o := Next(c, s, PutCapture(None, None, file, Draws(1, 2, Some(0), 1, 1)));
      WellFormed(s) && HitOk(c, s, file, false, Some(0)) && o.result == Deposited(0, 1, false) && o.corpus.entries[0].depositor == "operator" && o.corpus.entries[0].stype == "t"
  {
    var page := Entry(Some("https://p"), "x", Stable, Never, "operator", {});
    var s := Corpus(map[0 := page], map[0 := Snap(0, 0, "h", Response, None, None)], []);
    ByUriExact(s, "file:///a.md");
    assert "https://p"[0] != "file:///a.md"[0] && "https://p"[0] != "file://"[0];
    assert "operator"[0] != "web-clipper"[0];
    assert s.entries[0].uri == Some("https://p") && s.snaps[0].entry == 0;
  }

  // ---- what a deposit returns and leaves -------------------------------------------------------

  /** The record at which a chain's walk ends. */
  function Reached(path: seq<Id>, end: Ending): Id
    requires path != [] && (end.Loops? ==> end.at < |path|)
  {
    match end
    case Stops => path[|path| - 1]
    case Loses => path[0]
    case Loops(at) => path[at]
  }

  /** When a deposit onto an entry there before is unchanged, and what it then returns: the entry has
      the requested type, its latest record carries the bytes and is no absence, and an explicit date,
      held to the moment of the call, is the date of the record its REVISIT chain leads to. The record
      returned is that one. */
  lemma UnchangedExactly(c: Config, confined: Option<string>, s: Corpus, q: Request, d: Draws, path: seq<Id>, end: Ending)
    requires WellFormed(s) && Fresh(s, d) && Deposit(c, confined, s, q, d).result.Deposited?
    requires Deposit(c, confined, s, q, d).result.entry in s.entries
    requires Ends(s.snaps, path, end) && IsLatest(s, Deposit(c, confined, s, q, d).result.entry, path[0])
    ensures var r := Deposit(c, confined, s, q, d).result; var holder := Reached(path, end);
      && (r.same <==>
            && s.entries[r.entry].stype == q.stype
            && s.snaps[path[0]].hash == q.hash && s.snaps[path[0]].rtype != Absent
            && (q.dated && q.published.Some? ==>
                  s.snaps[holder].published == Some(if q.published.value > d.t1 then d.t1 else q.published.value)))
      && (r.same ==> r.snap == holder)
  {
    var st, target := FirstStage(s, q, confined), TargetOf(c, confined, s, q, d);
    var e := Deposit(c, confined, s, q, d).result.entry;
    DepositIsLanding(c, confined, s, q, d);
    LandReturns(c, st.corpus, target, q, Own(q, confined), d);
    StageKeeps(s, q, confined, d, e);
    HolderOfChain(s.snaps, path, end);
    LandIsUnchanged(c, st.corpus, e, q, Own(q, confined), d, path[0]);
  }

  lemma LandIsUnchanged(c: Config, s: Corpus, e: Id, q: Request, own: bool, d: Draws, latest: Id)
    requires TimesDistinct(s) && e in s.entries && IsLatest(s, e, latest) && Fresh(s, d)
    ensures var r := Land(c, s, Some(e), q, own, d).result; var h := Holder(s.snaps, latest);
      && r.Deposited?
      && (r.same <==>
            && s.entries[e].stype == q.stype && s.snaps[latest].hash == q.hash && s.snaps[latest].rtype != Absent
            && (DateGiven(q, d).Some? ==> h in s.snaps && s.snaps[h].published == DateGiven(q, d)))
      && (r.same ==> r.snap == h)
  {
    var s' := ReconcileKeys(c, s, e, s.entries[e], q.tags);
    assert IsLatest(s', e, latest);
    LatestIs(s', e, latest);
  }

  /** An entry with no record is never unchanged. */
  lemma FirstRecordIsWritten(c: Config, confined: Option<string>, s: Corpus, q: Request, d: Draws)
    requires WellFormed(s) && Fresh(s, d) && Deposit(c, confined, s, q, d).result.Deposited?
    requires forall x :: x in s.snaps ==> s.snaps[x].entry != Deposit(c, confined, s, q, d).result.entry
    ensures !Deposit(c, confined, s, q, d).result.same
  {
    DepositIsLanding(c, confined, s, q, d);
    StageIsFresh(s, q, confined, d);
  }

  /** The record a deposit writes is the one of its bytes at its moment, dated as asked but never after
      the call; and an entry it makes carries the request. */
  lemma WrittenAsAsked(c: Config, confined: Option<string>, s: Corpus, q: Request, d: Draws)
    requires WellFormed(s) && Fresh(s, d) && Deposit(c, confined, s, q, d).result.Deposited? && !Deposit(c, confined, s, q, d).result.same
    ensures var o := Deposit(c, confined, s, q, d); var x := o.result.snap;
      && x == d.newSnap && x in o.corpus.snaps && o.corpus.snaps == s.snaps[x := o.corpus.snaps[x]]
      && var snap := o.corpus.snaps[x];
         && snap.entry == o.result.entry && snap.capturedAt == d.t2 && snap.hash == q.hash && snap.rtype == q.rtype
         && snap.refersTo == None && DatedBy(snap.published, q, d)
         && (q.published.Some? && q.published.value > d.t1 ==> snap.published == Some(d.t1))
    ensures var o := Deposit(c, confined, s, q, d); var e := o.result.entry;
      e !in s.entries ==> e in o.corpus.entries && o.corpus.entries[e] == Entry(q.uri, q.stype, q.mutability, q.policy, q.depositor, q.tags)
  {
    var st, target := FirstStage(s, q, confined), TargetOf(c, confined, s, q, d);
    DepositIsLanding(c, confined, s, q, d);
    StageIsFresh(s, q, confined, d);
    LandReturns(c, st.corpus, target, q, Own(q, confined), d);
    if Named(q.uri) { ByUriExact(s, q.uri.value); }
  }

  /** The tags an entry is given by a request's project keys: those it lacks, if it is attributed. */
  function GivenTags(c: Config, e: Entry, tags: set<string>): set<string> {
    if c.isGlobal(e.tags) then {} else KeyTags(c, c.projectKeys(tags) - c.projectKeys(e.tags))
  }

  /** The tags of the entry joined, exactly; and the events, which name every key given and every
      URI released, and nothing else. */
  lemma TagsAndEventsExactly(c: Config, confined: Option<string>, s: Corpus, q: Request, d: Draws)
    requires WellFormed(s) && Fresh(s, d) && Deposit(c, confined, s, q, d).result.Deposited?
    ensures var o := Deposit(c, confined, s, q, d); var e := o.result.entry;
      && (e in s.entries ==> e in o.corpus.entries && o.corpus.entries[e].tags == s.entries[e].tags + GivenTags(c, s.entries[e], q.tags))
      && o.corpus.events == s.events + ReleaseEvents(s, q) + KeyEvents(c, s, e, q.tags)
  {
    var o, st, target := Deposit(c, confined, s, q, d), FirstStage(s, q, confined), TargetOf(c, confined, s, q, d);
    DepositIsLanding(c, confined, s, q, d);
    LandReturns(c, st.corpus, target, q, Own(q, confined), d);
    StageEvents(s, q, confined);
    var e := o.result.entry;
    if target.Some? {
      StageKeeps(s, q, confined, d, e);
      LandTags(c, st.corpus, e, q, Own(q, confined), d);
      LandEvents(c, st.corpus, e, q, Own(q, confined), d);
    } else {
      StageIsFresh(s, q, confined, d);
      assert e !in s.entries by { if Named(q.uri) { ByUriExact(s, q.uri.value); } }
    }
  }

  /** The release of the URI from another depositor's capture, if it holds it. */
  ghost function ReleaseEvents(s: Corpus, q: Request): seq<Event> {
    if !Named(q.uri) then []
    else
      match ByUri(s, q.uri.value)
      case Held(e) => if ForeignCapture(s.entries[e], q.depositor) then [UriReleased(e, q.uri, q.depositor)] else []
      case _ => []
  }

  ghost function KeyEvents(c: Config, s: Corpus, e: Id, tags: set<string>): seq<Event> {
    if e !in s.entries || c.isGlobal(s.entries[e].tags) then []
    else
      var keys := c.projectKeys(tags) - c.projectKeys(s.entries[e].tags);
      if keys == {} then [] else [KeysAssigned(e, keys)]
  }

  lemma StageEvents(s: Corpus, q: Request, confined: Option<string>)
    requires FirstStage(s, q, confined).Go?
    ensures FirstStage(s, q, confined).corpus.events == s.events + ReleaseEvents(s, q)
  {
    if Named(q.uri) { ByUriExact(s, q.uri.value); }
    assert s.events + [] == s.events;
  }

  lemma LandEvents(c: Config, s: Corpus, e: Id, q: Request, own: bool, d: Draws)
    requires e in s.entries
    ensures Land(c, s, Some(e), q, own, d).corpus.events == s.events + KeyEvents(c, s, e, q.tags)
    ensures Land(c, s, Some(e), q, own, d).corpus.entries[e].tags == s.entries[e].tags + GivenTags(c, s.entries[e], q.tags)
  {
    assert s.events + [] == s.events;
    var missing := c.projectKeys(q.tags) - c.projectKeys(s.entries[e].tags);
    assert missing == {} ==> KeyTags(c, missing) == {};
    assert s.entries[e].tags + {} == s.entries[e].tags;
  }

  /** A match by bytes among the depositor's own entries has the request's keys already: it gives the
      entry no tag. */
  lemma OwnMatchGivesNoKey(c: Config, confined: Option<string>, s: Corpus, q: Request, d: Draws, e: Id)
    requires WellFormed(s) && Fresh(s, d) && Own(q, confined) && HitOk(c, s, q, true, d.hit)
    requires Deposit(c, confined, s, q, d).result.Deposited? && Deposit(c, confined, s, q, d).result.entry == e
    requires e in s.entries && !JoinsByUri(s, q, e)
    ensures e in Deposit(c, confined, s, q, d).corpus.entries
    ensures Deposit(c, confined, s, q, d).corpus.entries[e].tags == s.entries[e].tags
  {
    JoinsExactly(c, confined, s, q, d, e);
    TagsAndEventsExactly(c, confined, s, q, d);
    var missing := c.projectKeys(q.tags) - c.projectKeys(s.entries[e].tags);
    assert missing == {} && KeyTags(c, missing) == {};
  }

  // ---- text deposits -------------------------------------------------------------------------------

  /** A text deposit onto the entry that holds its URI is unchanged exactly when that entry's latest
      record carries the bytes, and then returns that record. */
  lemma TextUnchangedExactly(c: Config, confined: Option<string>, s: Corpus, q: TextRequest, d: Draws, e: Id, latest: Id)
    requires ConfigContract(c) && MaskContract(c) && WellFormed(s) && Fresh(s, d) && q.uri != ""
    requires e in s.entries && s.entries[e].uri == Some(q.uri) && IsLatest(s, e, latest)
    requires !Foreign(confined, s.entries[e]) && !ForeignCapture(s.entries[e], q.depositor)
    ensures var o := DepositText(c, confined, s, q, d);
      && o.result.Deposited? && o.result.entry == e
      && (o.result.same <==> s.snaps[latest].hash == q.hash)
      && (o.result.same ==> o.result.snap == latest && o.corpus.snaps == s.snaps)
      && (!o.result.same ==> o.corpus.snaps == s.snaps[d.newSnap := TextSnap(q, e, d)])
  {
    ByUriExact(s, q.uri);
    var s2 := ReconcileText(c, s, e, q);
    ReconcileTextSettles(c, s, e, q);
    ReconcileTextTouches(c, s, e, q, d);
    ReconcileTextEvolves(c, s, e, q, d);
    StillJoins(s, s2, e, q, confined, d);
    assert IsLatest(s2, e, latest);
    LatestIs(s2, e, latest);
    if s.snaps[latest].hash != q.hash {
      TextAppends(c, confined, s2, e, q, d);
      WrittenAsAsked(c, confined, s2, AsRequest(q), d);
    }
  }

  /** The record of a text: its bytes at the moment of the call, dated as asked but never after it. */
  function TextSnap(q: TextRequest, e: Id, d: Draws): Snap {
    Snap(e, d.t2, q.hash, Response, None, if q.published.Some? && q.published.value > d.t1 then Some(d.t1) else q.published)
  }

  /** Under a URI nobody it may join holds, a text is written: onto an entry its bytes match, or as an
      entry that carries the request, refreshed only if that was asked. */
  lemma TextWrittenAsAsked(c: Config, confined: Option<string>, s: Corpus, q: TextRequest, d: Draws)
    requires WellFormed(s) && Fresh(s, d) && UriStage(s, q.uri, q.depositor, confined).Go?
    requires UriStage(s, q.uri, q.depositor, confined).existing.None?
    requires DepositText(c, confined, s, q, d).result.Deposited?
    ensures var o := DepositText(c, confined, s, q, d); var e := o.result.entry;
      && (!o.result.same ==> o.corpus.snaps == s.snaps[d.newSnap := TextSnap(q, e, d)] && o.result.snap == d.newSnap)
      && (e !in s.entries ==>
            && e in o.corpus.entries
            && o.corpus.entries[e] == Entry(Some(q.uri), q.stype, q.mutability, if q.policy.None? then Never else q.policy.value, q.depositor, q.tags))
  {
    var s' := UriStage(s, q.uri, q.depositor, confined).corpus;
    UriStageEvolves(s, q.uri, q.depositor, confined);
    var o := Deposit(c, confined, s', AsRequest(q), d);
    if !o.result.same { WrittenAsAsked(c, confined, s', AsRequest(q), d); }
    if o.result.same { SameIsThere(c, confined, s', AsRequest(q), d); }
  }

  lemma SameIsThere(c: Config, confined: Option<string>, s: Corpus, q: Request, d: Draws)
    requires WellFormed(s) && Fresh(s, d) && Deposit(c, confined, s, q, d).result.Deposited? && Deposit(c, confined, s, q, d).result.same
    ensures Deposit(c, confined, s, q, d).result.entry in s.entries
  {
    DepositIsLanding(c, confined, s, q, d);
    if Named(q.uri) { ByUriExact(s, q.uri.value); }
  }

  /** The tags a text deposit leaves on the entry that holds its URI, exactly: the keys that entry is
      given, and, if it enrols it for refresh, the masking tags of the request. */
  lemma TextTagsExactly(c: Config, confined: Option<string>, s: Corpus, q: TextRequest, d: Draws, e: Id)
    requires ConfigContract(c) && MaskContract(c) && WellFormed(s) && Fresh(s, d) && q.uri != ""
    requires e in s.entries && s.entries[e].uri == Some(q.uri)
    requires !Foreign(confined, s.entries[e]) && !ForeignCapture(s.entries[e], q.depositor)
    ensures var t := DepositText(c, confined, s, q, d).corpus;
      e in t.entries && t.entries[e].tags == s.entries[e].tags + GivenTags(c, s.entries[e], q.tags)
        + (if q.policy == Some(Lazy) then {"rule-file", "memory-file"} * q.tags else {})
  {
    ByUriExact(s, q.uri);
    var s2 := ReconcileText(c, s, e, q);
    ReconciledTags(c, s, e, q);
    ReconcileTextSettles(c, s, e, q);
    ReconcileTextTouches(c, s, e, q, d);
    ReconcileTextEvolves(c, s, e, q, d);
    StillJoins(s, s2, e, q, confined, d);
    LandEvents(c, s2, e, AsRequest(q), Own(AsRequest(q), confined), d);
    SettledGivesNothing(c, s2.entries[e], q.tags);
  }

  lemma ReconciledTags(c: Config, s: Corpus, e: Id, q: TextRequest)
    requires e in s.entries
    ensures ReconcileText(c, s, e, q).entries[e].tags == s.entries[e].tags + GivenTags(c, s.entries[e], q.tags)
              + (if q.policy == Some(Lazy) then {"rule-file", "memory-file"} * q.tags else {})
  {
    var missing := c.projectKeys(q.tags) - c.projectKeys(s.entries[e].tags);
    assert missing == {} ==> KeyTags(c, missing) == {};
  }

  lemma SettledGivesNothing(c: Config, e: Entry, tags: set<string>)
    requires KeysSettled(c, e, tags)
    ensures e.tags + GivenTags(c, e, tags) == e.tags
  {
    assert !c.isGlobal(e.tags) ==> KeyTags(c, c.projectKeys(tags) - c.projectKeys(e.tags)) == {};
  }

  // ---- absences --------------------------------------------------------------------------------------

  /** An absence is no content: no content-hash query comes to match by it, and until something is
      deposited again its entry is unchanged for no deposit. */
  lemma AbsenceIsNoContent(s: Corpus, e: Id, emptyHash: string, refersTo: Option<Id>, d: Draws, other: Id, hash: string, stype: string, date: Option<int>)
    requires WellFormed(s) && Fresh(s, d) && e in s.entries
    ensures var t := RecordAbsence(s, e, emptyHash, refersTo, d.t2, d.newSnap);
      && (Carries(t, other, hash) <==> Carries(s, other, hash))
      && t.entries == s.entries && Latest(t, e) == Some(d.newSnap) && Unchanged(t, e, hash, stype, date) == None
  {
    var t := RecordAbsence(s, e, emptyHash, refersTo, d.t2, d.newSnap);
    assert IsLatest(t, e, d.newSnap);
    LatestIs(t, e, d.newSnap);
    if Carries(s, other, hash) {
      var x :| x in s.snaps && s.snaps[x].entry == other && s.snaps[x].hash == hash && s.snaps[x].rtype == Response;
      assert t.snaps[x] == s.snaps[x];
    }
  }
}
