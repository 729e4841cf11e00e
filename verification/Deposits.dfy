/** particles/corpus/deposit.py: what one deposit does to the corpus.

    Each function below is a stage of `write_entry_and_snapshot` or of
    `deposit_text_versioned`, over the corpus as a value. */
module Deposits {
  import opened Options

  type Id = nat       // an entry's or a snapshot's identifier

  datatype Mutability = Stable | AppendOnly | Mutable
  datatype Policy = Never | Lazy
  datatype RecordType = Response | Revisit | Absent

  datatype Entry = Entry(uri: Option<string>, stype: string, mutability: Mutability, policy: Policy, depositor: string, tags: set<string>)

  datatype Snap = Snap(entry: Id, capturedAt: int, hash: string, rtype: RecordType, refersTo: Option<Id>, published: Option<int>)

  datatype Event = UriReleased(entry: Id, uri: Option<string>, to: string) | KeysAssigned(entry: Id, keys: set<string>)

  datatype Corpus = Corpus(entries: map<Id, Entry>, snaps: map<Id, Snap>, events: seq<Event>)

  const HARVEST_DEPOSITORS: set<string> := {"claude-code-hook", "audit"}
  const CAPTURE_DEPOSITORS: set<string> := {"web-clipper"}
  const REFRESH_MASKED_TAGS: set<string> := {"rule-file", "memory-file"}

  /** How tags name projects and classify an entry, which other modules own. */
  datatype Config = Config(projectKeys: set<string> -> set<string>, projectTag: string -> string, isGlobal: set<string> -> bool, unattributed: string)

  function KeyTags(c: Config, keys: set<string>): set<string> { set k | k in keys :: c.projectTag(k) }

  /** An entry given the tags of keys read from some tags has those keys. */
  ghost predicate ConfigContract(c: Config) {
    forall tags, other, keys | keys <= c.projectKeys(other) ::
      c.projectKeys(tags) + keys <= c.projectKeys(tags + KeyTags(c, keys))
  }

  /** One call of `write_entry_and_snapshot`. */
  datatype Request = Request(
    uri: Option<string>, stype: string, mutability: Mutability, policy: Policy, hash: string, depositor: string,
    tags: set<string>, rtype: RecordType, published: Option<int>, dated: bool, byPath: bool, own: bool, untrusted: bool)

  /** What a call draws from outside: two clock readings, the row a content-hash query yields,
      and fresh identifiers. */
  datatype Draws = Draws(t1: int, t2: int, hit: Option<Id>, newEntry: Id, newSnap: Id)

  datatype Result = Refused | Raised | Deposited(entry: Id, snap: Id, same: bool)

  datatype Outcome = Outcome(corpus: Corpus, result: Result)

  // ---- queries ---------------------------------------------------------------------

  function Holders(s: Corpus, uri: string): set<Id> { set e | e in s.entries && s.entries[e].uri == Some(uri) }

  datatype Found = Nobody | Held(entry: Id) | Several

  /** `get_entry_by_uri`: several holders make the query raise. */
  ghost function ByUri(s: Corpus, uri: string): Found {
    var h := Holders(s, uri);
    if h == {} then Nobody
    else
      var e :| e in h;
      if h == {e} then Held(e) else Several
  }

  predicate IsLatest(s: Corpus, e: Id, x: Id) {
    && x in s.snaps && s.snaps[x].entry == e
    && forall y :: y in s.snaps && s.snaps[y].entry == e ==> s.snaps[y].capturedAt <= s.snaps[x].capturedAt
  }

  /** `get_latest_snapshot`: the last captured record of any type. */
  ghost function Latest(s: Corpus, e: Id): Option<Id> {
    if exists x :: IsLatest(s, e, x) then
      var x :| IsLatest(s, e, x);
      Some(x)
    else None
  }

  predicate Carries(s: Corpus, e: Id, hash: string) {
    exists x :: x in s.snaps && s.snaps[x].entry == e && s.snaps[x].hash == hash && s.snaps[x].rtype == Response
  }

  predicate SameScope(c: Config, a: set<string>, b: set<string>) {
    c.projectKeys(a) == c.projectKeys(b) && (c.unattributed in a <==> c.unattributed in b)
  }

  /** An entry `get_own_entry_by_content_hash`, or else `get_entry_by_content_hash`, may yield. */
  predicate MatchesHash(c: Config, s: Corpus, q: Request, own: bool, e: Id) {
    && e in s.entries && Carries(s, e, q.hash)
    && (own ==> s.entries[e].depositor == q.depositor && SameScope(c, s.entries[e].tags, q.tags))
  }

  ghost predicate HitOk(c: Config, s: Corpus, q: Request, own: bool, hit: Option<Id>) {
    match hit
    case Some(e) => MatchesHash(c, s, q, own, e)
    case None => forall e :: !MatchesHash(c, s, q, own, e)
  }

  predicate Own(q: Request, confined: Option<string>) { q.own || confined.Some? }

  // ---- the rules -------------------------------------------------------------------

  function Owners(depositor: string): set<string> { if depositor in HARVEST_DEPOSITORS then HARVEST_DEPOSITORS else {depositor} }

  /** `_refuse_foreign_entry`. */
  predicate Foreign(confined: Option<string>, e: Entry) { confined.Some? && e.depositor !in Owners(confined.value) }

  predicate ForeignCapture(e: Entry, depositor: string) { e.depositor in CAPTURE_DEPOSITORS && e.depositor != depositor }

  predicate ForeignLocal(e: Entry, q: Request) {
    && e.uri.Some? && "file://" <= e.uri.value
    && (e.depositor != q.depositor || (q.untrusted && (e.policy == Lazy || e.stype != q.stype)))
  }

  /** `_identified_by_uri_alone`. */
  predicate ByUriAlone(c: Config, q: Request) { q.byPath || (q.mutability == Mutable && c.projectKeys(q.tags) != {}) }

  predicate KeyedOntoGlobal(c: Config, e: Entry, tags: set<string>) { c.projectKeys(tags) != {} && c.isGlobal(e.tags) }

  /** `_not_after`. */
  function NotAfter(value: Option<int>, now: int): Option<int> { if value.Some? && value.value > now then Some(now) else value }

  // ---- changes to an entry ------------------------------------------------------------

  function WithEntry(s: Corpus, id: Id, e: Entry): Corpus { s.(entries := s.entries[id := e]) }

  /** `_release_capture_uri`. */
  function Release(s: Corpus, id: Id, to: string): Corpus
    requires id in s.entries
  {
    WithEntry(s, id, s.entries[id].(uri := None)).(events := s.events + [UriReleased(id, s.entries[id].uri, to)])
  }

  function MissingKeys(c: Config, e: Entry, tags: set<string>): set<string> { c.projectKeys(tags) - c.projectKeys(e.tags) }

  /** `_reconcile_project_keys`, by an entry's tags as they were read. */
  function ReconcileKeys(c: Config, s: Corpus, id: Id, read: Entry, tags: set<string>): Corpus
    requires id in s.entries
  {
    var missing := MissingKeys(c, read, tags);
    if c.projectKeys(tags) == {} || c.isGlobal(read.tags) || missing == {} then s
    else
      var e := s.entries[id];
      WithEntry(s, id, e.(tags := e.tags + KeyTags(c, missing))).(events := s.events + [KeysAssigned(id, missing)])
  }

  /** `_reconcile_fetch_policy`. */
  function ReconcilePolicy(s: Corpus, id: Id, requested: Option<Policy>): Corpus
    requires id in s.entries
  {
    if requested.None? || s.entries[id].policy == requested.value then s
    else WithEntry(s, id, s.entries[id].(policy := requested.value))
  }

  /** `_reconcile_masked_tags`. */
  function ReconcileMasked(s: Corpus, id: Id, read: Entry, tags: set<string>): Corpus
    requires id in s.entries
  {
    var e := s.entries[id];
    WithEntry(s, id, e.(tags := e.tags + (REFRESH_MASKED_TAGS * tags - read.tags)))
  }

  // ---- the REVISIT walk ----------------------------------------------------------------

  /** From `cur`, through REVISIT records to one that is none, is met again, or is missing. */
  function Walk(snaps: map<Id, Snap>, cur: Option<Id>, seen: set<Id>): Option<Id>
    decreases snaps.Keys - seen
  {
    if cur.None? || cur.value !in snaps then None
    else
      var x := snaps[cur.value];
      if x.rtype == Revisit && x.refersTo.Some? && cur.value !in seen
      then Walk(snaps, x.refersTo, seen + {cur.value})
      else cur
  }

  /** The record an unchanged re-deposit returns for the latest one. */
  function Holder(snaps: map<Id, Snap>, latest: Id): Id {
    var end := Walk(snaps, Some(latest), {});
    if end.Some? then end.value else latest
  }

  // ---- the stages of a deposit -------------------------------------------------------------

  datatype Stage = Refuse | Raise | Go(corpus: Corpus, existing: Option<Id>)

  /** The URI-R tier: refuse, then release, then join. */
  ghost function UriStage(s: Corpus, uri: string, depositor: string, confined: Option<string>): Stage {
    match ByUri(s, uri)
    case Nobody => Go(s, None)
    case Several => Raise
    case Held(e) =>
      if Foreign(confined, s.entries[e]) then Refuse
      else if ForeignCapture(s.entries[e], depositor) then Go(Release(s, e, depositor), None)
      else Go(s, Some(e))
  }

  /** The content-hash tier. */
  function HashStage(c: Config, s: Corpus, q: Request, own: bool, hit: Option<Id>): Option<Id> {
    if ByUriAlone(c, q) || hit.None? || hit.value !in s.entries then None
    else
      var e := s.entries[hit.value];
      if own && e.stype != q.stype then None
      else if KeyedOntoGlobal(c, e, q.tags) then None
      else if ForeignLocal(e, q) || ForeignCapture(e, q.depositor) then None
      else hit
  }

  /** `_unchanged_snapshot_id`. */
  ghost function Unchanged(s: Corpus, id: Id, hash: string, stype: string, date: Option<int>): Option<Id>
    requires id in s.entries
  {
    var latest := Latest(s, id);
    if s.entries[id].stype != stype || latest.None? then None
    else if s.snaps[latest.value].hash != hash || s.snaps[latest.value].rtype == Absent then None
    else
      var h := Holder(s.snaps, latest.value);
      if date.Some? && (h !in s.snaps || s.snaps[h].published != date) then None else Some(h)
  }

  function NewSnap(q: Request, entry: Id, d: Draws): Snap {
    Snap(entry, d.t2, q.hash, q.rtype, None, NotAfter(q.published, d.t1))
  }

  /** A snapshot on an entry that is there, which a confined deposit does not retype. */
  function Append(s: Corpus, id: Id, q: Request, own: bool, d: Draws): Corpus
    requires id in s.entries
  {
    var e := s.entries[id];
    WithEntry(s, id, if own then e else e.(stype := q.stype)).(snaps := s.snaps[d.newSnap := NewSnap(q, id, d)])
  }

  function Create(s: Corpus, q: Request, d: Draws): Corpus {
    WithEntry(s, d.newEntry, Entry(q.uri, q.stype, q.mutability, q.policy, q.depositor, q.tags))
    .(snaps := s.snaps[d.newSnap := NewSnap(q, d.newEntry, d)])
  }

  function DateGiven(q: Request, d: Draws): Option<int> { if q.dated then NotAfter(q.published, d.t1) else None }

  ghost function Land(c: Config, s: Corpus, target: Option<Id>, q: Request, own: bool, d: Draws): Outcome
    requires target.Some? ==> target.value in s.entries
  {
    match target
    case None => Outcome(Create(s, q, d), Deposited(d.newEntry, d.newSnap, false))
    case Some(id) =>
      var s' := ReconcileKeys(c, s, id, s.entries[id], q.tags);
      match Unchanged(s', id, q.hash, q.stype, DateGiven(q, d))
      case Some(h) => Outcome(s', Deposited(id, h, true))
      case None => Outcome(Append(s', id, q, own, d), Deposited(id, d.newSnap, false))
  }

  predicate Named(uri: Option<string>) { uri.Some? && uri.value != "" }

  ghost function FirstStage(s: Corpus, q: Request, confined: Option<string>): Stage {
    if Named(q.uri) then UriStage(s, q.uri.value, q.depositor, confined) else Go(s, None)
  }

  ghost function Target(c: Config, st: Stage, q: Request, own: bool, hit: Option<Id>): Option<Id>
    requires st.Go?
  {
    if st.existing.Some? then st.existing else HashStage(c, st.corpus, q, own, hit)
  }

  lemma StageTargets(c: Config, s: Corpus, q: Request, confined: Option<string>, own: bool, hit: Option<Id>)
    requires FirstStage(s, q, confined).Go?
    ensures var t := Target(c, FirstStage(s, q, confined), q, own, hit);
      t.Some? ==> t.value in FirstStage(s, q, confined).corpus.entries
  {}

  /** `write_entry_and_snapshot`. */
  ghost function Deposit(c: Config, confined: Option<string>, s: Corpus, q: Request, d: Draws): Outcome {
    var st := FirstStage(s, q, confined);
    match st
    case Refuse => Outcome(s, Refused)
    case Raise => Outcome(s, Raised)
    case Go(s', existing) =>
      StageTargets(c, s, q, confined, Own(q, confined), d.hit);
      Land(c, s', Target(c, st, q, Own(q, confined), d.hit), q, Own(q, confined), d)
  }

  // ---- deposit_text_versioned -----------------------------------------------------------

  datatype TextRequest = TextRequest(
    uri: string, hash: string, stype: string, mutability: Mutability, tags: set<string>, depositor: string,
    published: Option<int>, policy: Option<Policy>)

  function AsRequest(q: TextRequest): Request {
    Request(Some(q.uri), q.stype, q.mutability, if q.policy.Some? then q.policy.value else Never, q.hash, q.depositor,
            q.tags, Response, q.published, false, false, false, false)
  }

  /** The three reconciles, each by the entry as it was first read. */
  function ReconcileText(c: Config, s: Corpus, id: Id, q: TextRequest): Corpus
    requires id in s.entries
  {
    var read := s.entries[id];
    var s2 := ReconcileKeys(c, ReconcilePolicy(s, id, q.policy), id, read, q.tags);
    if q.policy == Some(Lazy) then ReconcileMasked(s2, id, read, q.tags) else s2
  }

  ghost function DepositText(c: Config, confined: Option<string>, s: Corpus, q: TextRequest, d: Draws): Outcome {
    match UriStage(s, q.uri, q.depositor, confined)
    case Refuse => Outcome(s, Refused)
    case Raise => Outcome(s, Raised)
    case Go(s', None) => Deposit(c, confined, s', AsRequest(q), d)
    case Go(s', Some(id)) =>
      var s2 := ReconcileText(c, s', id, q);
      var latest := Latest(s2, id);
      if latest.Some? && s2.snaps[latest.value].hash == q.hash then Outcome(s2, Deposited(id, latest.value, true))
      else Deposit(c, confined, s2, AsRequest(q), d)
  }

  // ---- record_absence ---------------------------------------------------------------------

  /** An ABSENT record on an entry, with the empty body's digest. */
  function RecordAbsence(s: Corpus, id: Id, emptyHash: string, refersTo: Option<Id>, now: int, newSnap: Id): Corpus {
    s.(snaps := s.snaps[newSnap := Snap(id, now, emptyHash, Absent, refersTo, None)])
  }

  // ---- the capture scan ---------------------------------------------------------------------

  /** Whether a capture may deposit under the web URL it names: no other depositor's entry holds it. */
  ghost predicate MayJoin(s: Corpus, url: Request) {
    Named(url.uri) && match ByUri(s, url.uri.value)
      case Held(e) => s.entries[e].depositor == url.depositor
      case _ => true
  }

  /** What one capture deposits: under the URL it names, if it names one and may join it, and else
      as the local file it is. */
  ghost function CaptureRequest(s: Corpus, url: Option<Request>, file: Request): Request {
    if url.Some? && MayJoin(s, url.value) then url.value else file
  }
}
