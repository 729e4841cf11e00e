/** particles/api/_keys.py: which keys may be minted, and which recorded keys authenticate. */
module KeyRules {
  import opened Options
  import opened Strings
  import opened KeyFormat

  /** The settings the rules read, and the digest of a secret. */
  datatype Config = Config(
    operatorIdentity: string,
    reserved: set<string>,
    harvesters: set<string>,
    isSpace: char -> bool,
    digest: string -> string,
    lookalike: string -> bool,
    names: Names)

  /** SHA-256 taken as injective, the labels `reserved_principals` always adds, and what the
      lookalike rule promises of hidden characters. */
  ghost predicate ConfigContract(c: Config) {
    && NamesContract(c.names)
    && (forall s, t :: c.digest(s) == c.digest(t) ==> s == t)
    && {c.operatorIdentity, "operator", "api-user"} <= c.reserved
    && (forall s :: !c.lookalike(s) ==> !c.names.hides(s))
  }

  datatype Refusal =
    | BlankPrincipal | NotOperatorPrincipal | OperatorsName | AnonymousLabel | ReservedName
    | ProjectRole | BlankProject | LookalikeProject
    | RootsOfNonHarvester | NoRoots | RootNotNormal | BadRoot(error: RootError)

  predicate IsHarvester(c: Config, role: Role, principal: string) { role == Agent && principal in c.harvesters }

  /** `check_mint`: the first rule a new key breaks. */
  function CheckMint(c: Config, role: Role, raw: string, project: Option<string>, reservedOk: bool): Option<Refusal> {
    var principal := Strip(raw, c.isSpace);
    if principal == "" then Some(BlankPrincipal)
    else if role == Operator && principal != c.operatorIdentity then Some(NotOperatorPrincipal)
    else if role != Operator && (principal == c.operatorIdentity || principal == "operator") then Some(OperatorsName)
    else if principal == "api-user" then Some(AnonymousLabel)
    else if role != Operator && principal in c.reserved && !reservedOk then Some(ReservedName)
    else if project.None? then None
    else if role != Agent then Some(ProjectRole)
    else if !c.names.namesProject(project.value) then Some(BlankProject)
    else if c.lookalike(project.value) then Some(LookalikeProject)
    else None
  }

  /** The rule a list of recorded roots breaks. */
  function RootsRefusal(c: Config, r: KeyRecord, roots: Option<seq<string>>): Option<Refusal> {
    if roots.None? then None
    else if !IsHarvester(c, r.role, Strip(r.principal, c.isSpace)) then Some(RootsOfNonHarvester)
    else if roots.value == [] then Some(NoRoots)
    else RecordedRoots(roots.value)
  }

  function RecordedRoots(roots: seq<string>): Option<Refusal> {
    if roots == [] then None
    else
      match NormalisedRoot(roots[0])
      case RootRefused(e) => Some(BadRoot(e))
      case Root(path) => if path != roots[0] then Some(RootNotNormal) else RecordedRoots(roots[1..])
  }

  /** `record_rule_refusal`. */
  function RecordRefusal(c: Config, r: KeyRecord): Option<Refusal> {
    var principal := Strip(r.principal, c.isSpace);
    if principal == "" || principal != r.principal then Some(BlankPrincipal)
    else if r.role == Operator && principal != c.operatorIdentity then Some(NotOperatorPrincipal)
    else if r.role != Operator && (principal == c.operatorIdentity || principal == "operator") then Some(OperatorsName)
    else if principal == "api-user" then Some(AnonymousLabel)
    else if r.project.Some? && r.role != Agent then Some(ProjectRole)
    else if RootsRefusal(c, r, r.memoryRoots).Some? then RootsRefusal(c, r, r.memoryRoots)
    else RootsRefusal(c, r, r.archiveRoots)
  }

  /** `unacknowledged_reserved`. */
  predicate UnacknowledgedReserved(c: Config, r: KeyRecord) {
    r.role != Operator && !r.reservedOk && r.principal in c.reserved
  }

  /** Both checks `lookup` makes of a record. */
  predicate Usable(c: Config, r: KeyRecord) { !UnacknowledgedReserved(c, r) && RecordRefusal(c, r).None? }

  // ---- the roots a mint records ---------------------------------------------------

  datatype Rooted = Rooted(roots: Option<seq<string>>) | RootsRefused(refusal: Refusal)

  /** Each text once, in order of first appearance. */
  function Once(xs: seq<string>): seq<string> {
    if xs == [] then []
    else
      var before := Once(xs[..|xs| - 1]);
      if xs[|xs| - 1] in before then before else before + [xs[|xs| - 1]]
  }

  predicate AllRooted(raws: seq<string>) { forall i :: 0 <= i < |raws| ==> NormalisedRoot(raws[i]).Root? }

  function Paths(raws: seq<string>): seq<string>
    requires AllRooted(raws)
  {
    seq(|raws|, i requires 0 <= i < |raws| => NormalisedRoot(raws[i]).path)
  }

  /** The first path that is no root, if any. */
  function FirstBad(raws: seq<string>): Option<RootError> {
    if raws == [] then None
    else if NormalisedRoot(raws[0]).RootRefused? then Some(NormalisedRoot(raws[0]).error)
    else FirstBad(raws[1..])
  }

  lemma {:induction false} FirstBadExact(raws: seq<string>, k: nat)
    ensures FirstBad(raws).None? <==> AllRooted(raws)
    ensures k < |raws| && AllRooted(raws[..k]) && NormalisedRoot(raws[k]).RootRefused?
            ==> FirstBad(raws) == Some(NormalisedRoot(raws[k]).error)
  {
    if raws != [] {
      FirstBadExact(raws[1..], if k == 0 then 0 else k - 1);
      assert forall i :: 0 <= i < |raws| - 1 ==> raws[1..][i] == raws[i + 1];
      if 0 < k < |raws| && AllRooted(raws[..k]) {
        assert forall i :: 0 <= i < k ==> raws[i] == raws[..k][i];
        assert AllRooted(raws[1..][..k - 1]);
      }
    }
  }

  /** What `_mint_roots` answers. */
  function RootsToRecord(c: Config, role: Role, principal: string, raws: Option<seq<string>>): Rooted {
    if raws.None? then Rooted(None)
    else if !IsHarvester(c, role, principal) then RootsRefused(RootsOfNonHarvester)
    else if raws.value == [] then RootsRefused(NoRoots)
    else
      FirstBadExact(raws.value, 0);
      match FirstBad(raws.value)
      case Some(e) => RootsRefused(BadRoot(e))
      case None => Rooted(Some(Once(Paths(raws.value))))
  }

  lemma OnceStep(raws: seq<string>, i: nat)
    requires i < |raws| && AllRooted(raws[..i]) && NormalisedRoot(raws[i]).Root?
    ensures AllRooted(raws[..i + 1])
    ensures var done, root := Once(Paths(raws[..i])), NormalisedRoot(raws[i]).path;
      Once(Paths(raws[..i + 1])) == if root in done then done else done + [root]
  {
    assert raws[..i + 1] == raws[..i] + [raws[i]];
    assert Paths(raws[..i + 1]) == Paths(raws[..i]) + [NormalisedRoot(raws[i]).path];
    OnceSnoc(Paths(raws[..i]), NormalisedRoot(raws[i]).path);
  }

  lemma OnceSnoc(xs: seq<string>, x: string)
    ensures Once(xs + [x]) == if x in Once(xs) then Once(xs) else Once(xs) + [x]
  {
    assert (xs + [x])[..|xs|] == xs;
  }

  /** `_mint_roots`, whose loop normalises and skips what it has. */
  method MintRoots(c: Config, role: Role, principal: string, raws: Option<seq<string>>) returns (out: Rooted)
    ensures out == RootsToRecord(c, role, principal, raws)
  {
    if raws.None? { return Rooted(None); }
    if !IsHarvester(c, role, principal) { return RootsRefused(RootsOfNonHarvester); }
    if raws.value == [] { return RootsRefused(NoRoots); }
    var roots: seq<string> := [];
    var all := raws.value;
    for i := 0 to |all|
      invariant AllRooted(all[..i]) && roots == Once(Paths(all[..i]))
    {
      var root := NormalisedRoot(all[i]);
      if root.RootRefused? {
        FirstBadExact(all, i);
        return RootsRefused(BadRoot(root.error));
      }
      OnceStep(all, i);
      if root.path !in roots { roots := roots + [root.path]; }
    }
    FirstBadExact(all, 0);
    assert all[..|all|] == all;
    return Rooted(Some(roots));
  }

  /** `Once` keeps the members and repeats none. */
  lemma {:induction false} OnceKeepsMembers(xs: seq<string>)
    ensures forall x :: x in Once(xs) <==> x in xs
    ensures forall i, j :: 0 <= i < j < |Once(xs)| ==> Once(xs)[i] != Once(xs)[j]
  {
    if xs != [] {
      var init := xs[..|xs| - 1];
      OnceKeepsMembers(init);
      assert xs == init + [xs[|xs| - 1]];
    }
  }

  /** Recorded roots pass exactly when each one is in normal form. */
  lemma {:induction false} RecordedRootsExact(roots: seq<string>)
    ensures RecordedRoots(roots).None? <==> forall i :: 0 <= i < |roots| ==> Normal(roots[i])
  {
    if roots != [] {
      NormalisedRootExact(roots[0], roots[0]);
      RecordedRootsExact(roots[1..]);
      assert forall i :: 0 <= i < |roots| - 1 ==> roots[1..][i] == roots[i + 1];
    }
  }

  /** The roots a mint records are normal paths, each the form of one that was asked for,
      with none left out and none twice; and the lookup rule accepts them. */
  lemma RecordedRootsAreNormal(c: Config, role: Role, principal: string, raws: Option<seq<string>>, r: KeyRecord)
    requires r.role == role && Strip(r.principal, c.isSpace) == principal
    requires RootsToRecord(c, role, principal, raws).Rooted?
    ensures var roots := RootsToRecord(c, role, principal, raws).roots;
      && (raws.None? <==> roots.None?)
      && (roots.Some? ==>
            && (forall i :: 0 <= i < |raws.value| ==> NormalisedRoot(raws.value[i]).Root?)
            && (forall x :: x in roots.value <==> exists i :: 0 <= i < |raws.value| && NormalisedRoot(raws.value[i]) == Root(x))
            && (forall i, j :: 0 <= i < j < |roots.value| ==> roots.value[i] != roots.value[j]))
      && RootsRefusal(c, r, roots).None?
  {
    var roots := RootsToRecord(c, role, principal, raws).roots;
    if raws.Some? {
      FirstBadExact(raws.value, 0);
      var paths := Paths(raws.value);
      OnceKeepsMembers(paths);
      forall x ensures x in paths <==> exists i :: 0 <= i < |raws.value| && NormalisedRoot(raws.value[i]) == Root(x) {
        if i :| 0 <= i < |raws.value| && NormalisedRoot(raws.value[i]) == Root(x) { assert paths[i] == x; }
      }
      forall i | 0 <= i < |roots.value| ensures Normal(roots.value[i]) {
        assert roots.value[i] in paths;
        var j :| 0 <= j < |raws.value| && NormalisedRoot(raws.value[j]) == Root(roots.value[i]);
        NormalisedIsNormal(raws.value[j]);
      }
      RecordedRootsExact(roots.value);
      assert paths[0] in roots.value;
    }
  }

  // ---- the two rule checkers -----------------------------------------------------

  /** Lookup accepts a record exactly when the mint rules accept its role, its principal as it
      stands and its acknowledgement, with the roots in recorded form; only the two rules about
      how a project's name reads are left to the mint and to the file's parser. */
  lemma LookupRulesAreMintRules(c: Config, r: KeyRecord)
    ensures Usable(c, r) <==>
      && Strip(r.principal, c.isSpace) == r.principal
      && CheckMint(c, r.role, r.principal, r.project, r.reservedOk) in {None, Some(BlankProject), Some(LookalikeProject)}
      && RootsRefusal(c, r, r.memoryRoots).None?
      && RootsRefusal(c, r, r.archiveRoots).None?
  {}

  /** The roots clause of that, from the mint's side: a mint asked for exactly the recorded
      roots records them unchanged, when the record repeats none. */
  lemma RecordedRootsMintUnchanged(c: Config, r: KeyRecord, roots: Option<seq<string>>)
    requires Strip(r.principal, c.isSpace) == r.principal
    ensures RootsToRecord(c, r.role, r.principal, roots) == Rooted(roots) <==>
      && RootsRefusal(c, r, roots).None?
      && (roots.Some? ==> forall i, j :: 0 <= i < j < |roots.value| ==> roots.value[i] != roots.value[j])
  {
    if RootsToRecord(c, r.role, r.principal, roots) == Rooted(roots) {
      RecordedRootsAreNormal(c, r.role, r.principal, roots, r);
    } else if roots.Some? && RootsRefusal(c, r, roots).None? {
      RecordedRootsExact(roots.value);
      forall i | 0 <= i < |roots.value| ensures NormalisedRoot(roots.value[i]) == Root(roots.value[i]) { NormalIsKept(roots.value[i]); }
      FirstBadExact(roots.value, 0);
      assert Paths(roots.value) == roots.value;
      if forall i, j :: 0 <= i < j < |roots.value| ==> roots.value[i] != roots.value[j] { OnceOfDistinct(roots.value); }
    }
  }

  lemma {:induction false} OnceOfDistinct(xs: seq<string>)
    requires forall i, j :: 0 <= i < j < |xs| ==> xs[i] != xs[j]
    ensures Once(xs) == xs
  {
    if xs != [] {
      OnceOfDistinct(xs[..|xs| - 1]);
      assert xs == xs[..|xs| - 1] + [xs[|xs| - 1]];
    }
  }

  /** A recorded list of roots a key may have. */
  predicate RootsFit(c: Config, r: KeyRecord, roots: Option<seq<string>>) {
    roots.Some? ==>
      && r.role == Agent && r.principal in c.harvesters
      && roots.value != [] && forall i :: 0 <= i < |roots.value| ==> Normal(roots.value[i])
  }

  /** Which records authenticate, rule by rule: a principal that is not blank, padded or the anonymous
      label; the operator role under the operator's name, and no other role under it; a reserved name
      only with its acknowledgement; a project only for an agent; roots only for a harvester. */
  lemma UsableExactly(c: Config, r: KeyRecord)
    ensures Usable(c, r) <==>
      && r.principal != "" && Trimmed(r.principal, c.isSpace) && r.principal != "api-user"
      && (r.role == Operator ==> r.principal == c.operatorIdentity)
      && (r.role != Operator ==> r.principal != c.operatorIdentity && r.principal != "operator")
      && (r.role != Operator && r.principal in c.reserved ==> r.reservedOk)
      && (r.project.Some? ==> r.role == Agent)
      && RootsFit(c, r, r.memoryRoots) && RootsFit(c, r, r.archiveRoots)
  {
    StripTrims(r.principal, c.isSpace);
    if Trimmed(r.principal, c.isSpace) {
      StripExact("", r.principal, "", c.isSpace);
      assert "" + r.principal + "" == r.principal;
    }
    if r.memoryRoots.Some? { RecordedRootsExact(r.memoryRoots.value); }
    if r.archiveRoots.Some? { RecordedRootsExact(r.archiveRoots.value); }
  }

  // ---- minting -------------------------------------------------------------------

  datatype Request = Request(
    role: Role, principal: string, project: Option<string>, note: Json, reservedOk: bool,
    memory: Option<seq<string>>, archive: Option<seq<string>>)

  /** What a mint settles before it takes the lock: the record but for what it draws there. */
  datatype Prepared = Draft(principal: string, project: Option<string>, memory: Option<seq<string>>, archive: Option<seq<string>>)
                    | Refused(refusal: Refusal)

  function Prepare(c: Config, q: Request): Prepared {
    var principal := Strip(q.principal, c.isSpace);
    var project := if q.project.None? then None else Some(c.names.canonical(q.project.value));
    var refusal := CheckMint(c, q.role, principal, project, q.reservedOk);
    var memory := RootsToRecord(c, q.role, principal, q.memory);
    var archive := RootsToRecord(c, q.role, principal, q.archive);
    if refusal.Some? then Refused(refusal.value)
    else if memory.RootsRefused? then Refused(memory.refusal)
    else if archive.RootsRefused? then Refused(archive.refusal)
    else Draft(principal, project, memory.roots, archive.roots)
  }

  /** The record a mint writes under the lock. */
  function Minted(c: Config, q: Request, id: string, secret: string, now: string): KeyRecord
    requires Prepare(c, q).Draft?
  {
    var d := Prepare(c, q);
    KeyRecord(id, d.principal, q.role, d.project, q.note, now, Null, c.digest(secret),
              q.role != Operator && d.principal in c.reserved, d.memory, d.archive)
  }

  /** A list of roots a mint may be asked for. */
  predicate RootsAsked(c: Config, q: Request, principal: string, raws: Option<seq<string>>) {
    raws.Some? ==>
      && q.role == Agent && principal in c.harvesters
      && raws.value != [] && forall i :: 0 <= i < |raws.value| ==> NormalisedRoot(raws.value[i]).Root?
  }

  /** Which requests a mint accepts, rule by rule. */
  lemma AcceptedExactly(c: Config, q: Request)
    ensures var principal := Strip(q.principal, c.isSpace);
      Prepare(c, q).Draft? <==>
        && principal != "" && principal != "api-user"
        && (q.role == Operator ==> principal == c.operatorIdentity)
        && (q.role != Operator ==> principal != c.operatorIdentity && principal != "operator")
        && (q.role != Operator && principal in c.reserved ==> q.reservedOk)
        && (q.project.Some? ==>
              var name := c.names.canonical(q.project.value);
              q.role == Agent && c.names.namesProject(name) && !c.lookalike(name))
        && RootsAsked(c, q, principal, q.memory) && RootsAsked(c, q, principal, q.archive)
  {
    StripIdempotent(q.principal, c.isSpace);
    if q.memory.Some? { FirstBadExact(q.memory.value, 0); }
    if q.archive.Some? { FirstBadExact(q.archive.value, 0); }
  }

  /** The recorded roots are the normal forms of those asked for, each once. */
  ghost predicate RootsRecorded(raws: Option<seq<string>>, roots: Option<seq<string>>) {
    && (raws.None? <==> roots.None?)
    && (roots.Some? ==>
          && (forall x :: x in roots.value <==> exists i :: 0 <= i < |raws.value| && NormalisedRoot(raws.value[i]) == Root(x))
          && (forall i, j :: 0 <= i < j < |roots.value| ==> roots.value[i] != roots.value[j]))
  }

  /** What the record of a request is: everything that was asked for, in the form it is kept in. */
  ghost predicate Records(c: Config, q: Request, id: string, secret: string, now: string, r: KeyRecord) {
    && r.keyId == id && r.role == q.role && r.principal == Strip(q.principal, c.isSpace) && r.note == q.note
    && (q.project.None? <==> r.project.None?)
    && (q.project.Some? && r.project.Some? ==> r.project.value == c.names.canonical(q.project.value))
    && r.createdAt == now && r.revokedAt == Null && r.digest == c.digest(secret)
    && (r.reservedOk <==> q.role != Operator && Strip(q.principal, c.isSpace) in c.reserved)
    && RootsRecorded(q.memory, r.memoryRoots) && RootsRecorded(q.archive, r.archiveRoots)
  }

  /** A mint records what it was asked for. */
  lemma MintedRecordsTheRequest(c: Config, q: Request, id: string, secret: string, now: string)
    requires Prepare(c, q).Draft?
    ensures Records(c, q, id, secret, now, Minted(c, q, id, secret, now))
  {
    var r := Minted(c, q, id, secret, now);
    StripIdempotent(q.principal, c.isSpace);
    RecordedRootsAreNormal(c, q.role, r.principal, q.memory, r);
    RecordedRootsAreNormal(c, q.role, r.principal, q.archive, r);
  }

  lemma MintedRootsPass(c: Config, q: Request, r: KeyRecord, raws: Option<seq<string>>)
    requires r.role == q.role && Strip(r.principal, c.isSpace) == Strip(q.principal, c.isSpace)
    requires RootsToRecord(c, q.role, Strip(q.principal, c.isSpace), raws).Rooted?
    ensures RootsRefusal(c, r, RootsToRecord(c, q.role, Strip(q.principal, c.isSpace), raws).roots).None?
  {
    RecordedRootsAreNormal(c, q.role, Strip(q.principal, c.isSpace), raws, r);
  }

  /** Every record a mint writes passes both lookup checks, and its project survives the file. */
  lemma MintedIsUsable(c: Config, q: Request, id: string, secret: string, now: string)
    requires ConfigContract(c) && Prepare(c, q).Draft?
    ensures Usable(c, Minted(c, q, id, secret, now))
    ensures Storable(Minted(c, q, id, secret, now).project, c.names)
  {
    var r := Minted(c, q, id, secret, now);
    StripIdempotent(q.principal, c.isSpace);
    MintedRootsPass(c, q, r, q.memory);
    MintedRootsPass(c, q, r, q.archive);
    assert CheckMint(c, r.role, r.principal, r.project, q.reservedOk).None?;
    assert CheckMint(c, r.role, r.principal, r.project, r.reservedOk).None?;
    LookupRulesAreMintRules(c, r);
  }

  /** A mint under a reserved name goes through only with the acknowledgement, and its record
      says so exactly then. */
  lemma ReservedNeedsAcknowledgement(c: Config, q: Request, id: string, secret: string, now: string)
    requires Prepare(c, q).Draft?
    ensures Minted(c, q, id, secret, now).reservedOk <==>
      q.role != Operator && Strip(q.principal, c.isSpace) in c.reserved
    ensures Minted(c, q, id, secret, now).reservedOk ==> q.reservedOk
  {
    StripIdempotent(q.principal, c.isSpace);
  }

  // ---- lookup --------------------------------------------------------------------

  /** `lookup` against the file's records. */
  function Lookup(c: Config, keys: Keys, token: string): Option<KeyRecord> {
    var parsed := ParseToken(token);
    if parsed.None? then None
    else if parsed.value.id !in keys then None
    else
      var r := keys[parsed.value.id];
      if !r.Live() then None
      else if r.digest != c.digest(parsed.value.secret) then None
      else if r.role != parsed.value.role then None
      else if UnacknowledgedReserved(c, r) then None
      else if RecordRefusal(c, r).Some? then None
      else Some(r)
  }

  /** A record as minted, later revoked or not. */
  predicate SameKey(minted: KeyRecord, now: KeyRecord) { now == minted.(revokedAt := now.revokedAt) }

  /** A minted key authenticates exactly while its record is live, and nothing but its token,
      with at most a newline after it, authenticates as it. */
  lemma MintedAuthenticatesExactly(c: Config, q: Request, id: string, secret: string, now: string, keys: Keys, token: string)
    requires ConfigContract(c) && Prepare(c, q).Draft? && IsId(id) && IsSecret(secret)
    requires WellFormed(keys, c.names) && id in keys && SameKey(Minted(c, q, id, secret, now), keys[id])
    ensures (Lookup(c, keys, token).Some? && Lookup(c, keys, token).value.keyId == id) <==>
      && keys[id].Live()
      && (token == Token(q.role, id, secret) || token == Token(q.role, id, secret) + "\n")
    ensures Lookup(c, keys, Token(q.role, id, secret)) == if keys[id].Live() then Some(keys[id]) else None
  {
    MintedIsUsable(c, q, id, secret, now);
    UsableIsAboutIdentity(c, Minted(c, q, id, secret, now), keys[id]);
    ParseTokenExact(token, Parsed(q.role, id, secret));
    ParseTokenExact(Token(q.role, id, secret), Parsed(q.role, id, secret));
    if Lookup(c, keys, token).Some? && Lookup(c, keys, token).value.keyId == id {
      assert ParseToken(token) == Some(Parsed(q.role, id, secret));
    }
  }

  lemma UsableIsAboutIdentity(c: Config, r: KeyRecord, s: KeyRecord)
    requires SameKey(r, s)
    ensures Usable(c, r) <==> Usable(c, s)
  {}
}
