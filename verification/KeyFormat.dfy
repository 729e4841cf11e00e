/** particles/api/_keys.py: what a per-client key, a recorded root and the key file look like. */
module KeyFormat {
  import opened Options
  import opened Strings

  datatype Role = Reader | Agent | Operator

  // ---- tokens -------------------------------------------------------------------

  /** How a token spells the role. */
  function RolePrefix(role: Role): string {
    match role
    case Reader => "read"
    case Agent => "agent"
    case Operator => "op"
  }

  predicate HexChar(c: char) { '0' <= c <= '9' || 'a' <= c <= 'f' }

  predicate SecretChar(c: char) {
    'A' <= c <= 'Z' || 'a' <= c <= 'z' || '0' <= c <= '9' || c == '_' || c == '-'
  }

  predicate IsId(s: string) { |s| == 12 && forall i :: 0 <= i < |s| ==> HexChar(s[i]) }

  predicate IsSecret(s: string) { |s| == 43 && forall i :: 0 <= i < |s| ==> SecretChar(s[i]) }

  function Head(role: Role): string { "ptk_" + RolePrefix(role) + "_" }

  function Token(role: Role, id: string, secret: string): string { Head(role) + id + "_" + secret }

  datatype Parsed = Parsed(role: Role, id: string, secret: string)

  /** The token regular expression with the role fixed, over the whole of `s`. */
  function ParseAs(role: Role, s: string): Option<Parsed> {
    var n := |Head(role)|;
    if |s| == n + 56 && s[..n] == Head(role) && IsId(s[n..n + 12]) && s[n + 12] == '_' && IsSecret(s[n + 13..])
    then Some(Parsed(role, s[n..n + 12], s[n + 13..])) else None
  }

  function ParseExact(s: string): Option<Parsed> {
    if ParseAs(Reader, s).Some? then ParseAs(Reader, s)
    else if ParseAs(Agent, s).Some? then ParseAs(Agent, s)
    else ParseAs(Operator, s)
  }

  /** `parse_token`. The expression's `$` also matches before a final newline. */
  function ParseToken(token: string): Option<Parsed> {
    if token != "" && token[|token| - 1] == '\n' then ParseExact(token[..|token| - 1]) else ParseExact(token)
  }

  lemma ParseAsExact(role: Role, s: string, p: Parsed)
    ensures ParseAs(role, s) == Some(p)
       <==> p.role == role && IsId(p.id) && IsSecret(p.secret) && s == Token(role, p.id, p.secret)
  {
    var n := |Head(role)|;
    if ParseAs(role, s) == Some(p) {
      assert s == s[..n] + s[n..n + 12] + s[n + 12..n + 13] + s[n + 13..];
      assert s[n + 12..n + 13] == "_";
    }
    if p.role == role && IsId(p.id) && IsSecret(p.secret) && s == Token(role, p.id, p.secret) {
      assert s[..n] == Head(role) && s[n..n + 12] == p.id && s[n + 12] == '_' && s[n + 13..] == p.secret;
    }
  }

  /** No text is two roles' token. */
  lemma RolesDisjoint(r: Role, q: Role, s: string)
    requires ParseAs(r, s).Some? && ParseAs(q, s).Some?
    ensures r == q
  {
    assert s[..|Head(r)|] == Head(r) && s[..|Head(q)|] == Head(q);
    assert s[4] == RolePrefix(r)[0] && s[4] == RolePrefix(q)[0] by {
      assert Head(r)[4] == RolePrefix(r)[0] && s[..|Head(r)|][4] == s[4];
      assert Head(q)[4] == RolePrefix(q)[0] && s[..|Head(q)|][4] == s[4];
    }
  }

  lemma ParseExactExact(s: string, p: Parsed)
    ensures ParseExact(s) == Some(p) <==> IsId(p.id) && IsSecret(p.secret) && s == Token(p.role, p.id, p.secret)
  {
    ParseAsExact(p.role, s, p);
    forall r: Role, q: Role | ParseAs(r, s).Some? && ParseAs(q, s).Some? ensures r == q { RolesDisjoint(r, q, s); }
    assert ParseExact(s) == Some(p) <==> ParseAs(p.role, s) == Some(p);
  }

  /** A token parses to a role, id and secret exactly when it is their formatted key, with at
      most one newline after it. */
  lemma ParseTokenExact(token: string, p: Parsed)
    ensures ParseToken(token) == Some(p)
       <==> IsId(p.id) && IsSecret(p.secret)
            && (token == Token(p.role, p.id, p.secret) || token == Token(p.role, p.id, p.secret) + "\n")
  {
    var made := Token(p.role, p.id, p.secret);
    if IsSecret(p.secret) { assert made[|made| - 1] == p.secret[42]; }
    if token != "" && token[|token| - 1] == '\n' {
      var body := token[..|token| - 1];
      ParseExactExact(body, p);
      assert token == body + "\n";
      assert token == made + "\n" ==> body == made;
    } else {
      ParseExactExact(token, p);
    }
  }

  // ---- roots --------------------------------------------------------------------

  datatype RootError = NotAbsolute | ControlCharacter | FilesystemRoot | BadSegment

  datatype RootResult = Root(path: string) | RootRefused(error: RootError)

  predicate Control(c: char) { c as int < 0x20 || c as int == 0x7F }

  predicate HasControl(s: string) { exists i :: 0 <= i < |s| && Control(s[i]) }

  predicate Bad(segment: string) { segment == "" || segment == "." || segment == ".." }

  predicate AnyBad(segments: seq<string>) { exists i :: 0 <= i < |segments| && Bad(segments[i]) }

  function Popped(segments: seq<string>): seq<string> {
    if segments != [] && segments[|segments| - 1] == "" then segments[..|segments| - 1] else segments
  }

  /** `normalised_root`. */
  function NormalisedRoot(raw: string): RootResult {
    if raw == "" || raw[0] != '/' then RootRefused(NotAbsolute)
    else if HasControl(raw) then RootRefused(ControlCharacter)
    else
      var segments := Popped(Split(raw, '/')[1..]);
      if segments == [] then RootRefused(FilesystemRoot)
      else if AnyBad(segments) then RootRefused(BadSegment)
      else Root("/" + Join(segments, '/'))
  }

  /** A path in recorded form: one or more proper segments after a slash, and no slash after them. */
  predicate Normal(path: string) {
    && path != "" && path[0] == '/' && !HasControl(path)
    && |Split(path, '/')| > 1 && !AnyBad(Split(path, '/')[1..])
  }

  lemma SplitAbsolute(raw: string)
    requires raw != "" && raw[0] == '/'
    ensures Split(raw, '/') == [""] + Split(raw[1..], '/')
    ensures raw == "/" + Join(Split(raw, '/')[1..], '/')
  {
    JoinOfSplit(raw[1..], '/');
  }

  lemma NormalIsKept(path: string)
    requires Normal(path)
    ensures NormalisedRoot(path) == Root(path)
  {
    SplitAbsolute(path);
    var segments := Split(path, '/')[1..];
    assert Bad(segments[|segments| - 1]) ==> AnyBad(segments);
  }

  /** Normalising reads exactly the normal paths and the normal paths with one trailing slash. */
  lemma NormalisedRootExact(raw: string, path: string)
    ensures NormalisedRoot(raw) == Root(path) <==> Normal(path) && (raw == path || raw == path + "/")
  {
    if Normal(path) && raw == path {
      NormalIsKept(path);
    }
    if Normal(path) && raw == path + "/" {
      TrailingSlashIsDropped(path);
    }
    if NormalisedRoot(raw) == Root(path) {
      NormalisedIsNormal(raw);
    }
  }

  lemma TrailingSlashIsDropped(path: string)
    requires Normal(path)
    ensures NormalisedRoot(path + "/") == Root(path)
  {
    var raw := path + "/";
    assert path + "/" + "" == raw;
    SplitOfConcat(path, "", '/');
    SplitAbsolute(path);
    assert !HasControl(raw) by { assert forall i :: 0 <= i < |path| ==> raw[i] == path[i]; }
    var segments := Split(path, '/')[1..];
    assert Split(raw, '/')[1..] == segments + [""];
    assert Popped(segments + [""]) == segments;
  }

  lemma NormalisedIsNormal(raw: string)
    requires NormalisedRoot(raw).Root?
    ensures var path := NormalisedRoot(raw).path; Normal(path) && (raw == path || raw == path + "/")
  {
    var segments := Popped(Split(raw, '/')[1..]);
    var path := "/" + Join(segments, '/');
    RawIsJoined(raw);
    assert !HasControl(path) by { assert forall i :: 0 <= i < |path| ==> path[i] == raw[i]; }
    SplitOfRooted(segments);
    assert Split(path, '/')[1..] == segments;
  }

  /** An absolute path is its segments joined again, with the trailing slash that was popped. */
  lemma RawIsJoined(raw: string)
    requires raw != "" && raw[0] == '/' && Popped(Split(raw, '/')[1..]) != []
    ensures var segments := Popped(Split(raw, '/')[1..]); var path := "/" + Join(segments, '/');
      AllFree(segments, '/') && (raw == path || raw == path + "/")
  {
    var all := Split(raw, '/')[1..];
    var segments := Popped(all);
    SplitAbsolute(raw);
    SplitPartsAreFree(raw, '/');
    assert forall i :: 0 <= i < |segments| ==> segments[i] == Split(raw, '/')[i + 1];
    if segments != all {
      assert all == segments + [""];
      JoinSnocEmpty(segments, '/');
    }
  }

  lemma SplitOfRooted(segments: seq<string>)
    requires segments != [] && AllFree(segments, '/')
    ensures Split("/" + Join(segments, '/'), '/') == [""] + segments
  {
    var path := "/" + Join(segments, '/');
    SplitOfJoin(segments, '/');
    assert path[1..] == Join(segments, '/');
    SplitAbsolute(path);
  }

  lemma {:induction false} JoinSnocEmpty(segments: seq<string>, sep: char)
    requires segments != []
    ensures Join(segments + [""], sep) == Join(segments, sep) + [sep]
  {
    if |segments| > 1 {
      assert (segments + [""])[1..] == segments[1..] + [""];
      JoinSnocEmpty(segments[1..], sep);
    } else {
      assert (segments + [""])[1..] == [""];
    }
  }

  /** The path has `segment` between two slashes, or after its last one. */
  ghost predicate HasSegment(path: string, segment: string) {
    (exists i: nat :: Between(path, segment, i)) || (exists i: nat :: Closing(path, segment, i))
  }

  ghost predicate Between(path: string, segment: string, i: nat) {
    i <= |path| && exists rest :: path == path[..i] + "/" + segment + "/" + rest
  }

  ghost predicate Closing(path: string, segment: string, i: nat) {
    i <= |path| && path == path[..i] + "/" + segment
  }

  lemma {:induction false} JoinOfConcat(a: seq<string>, b: seq<string>, sep: char)
    requires a != [] && b != []
    ensures Join(a + b, sep) == Join(a, sep) + [sep] + Join(b, sep)
  {
    if |a| > 1 {
      assert (a + b)[1..] == a[1..] + b;
      JoinOfConcat(a[1..], b, sep);
    } else {
      assert (a + b)[1..] == b;
    }
  }

  /** A segment the path splits into, but the first, is one it has. */
  lemma SplitSegmentIsThere(path: string, k: nat)
    requires 1 <= k < |Split(path, '/')|
    ensures HasSegment(path, Split(path, '/')[k])
  {
    var parts := Split(path, '/');
    JoinOfSplit(path, '/');
    JoinAround(parts, k, '/');
    var pre := Join(parts[..k], '/');
    assert path[..|pre|] == pre;
    if k + 1 == |parts| {
      assert Closing(path, parts[k], |pre|);
    } else {
      assert path == path[..|pre|] + "/" + parts[k] + "/" + Join(parts[k + 1..], '/');
      assert Between(path, parts[k], |pre|);
    }
  }

  lemma JoinAround(parts: seq<string>, k: nat, sep: char)
    requires 1 <= k < |parts|
    ensures Join(parts, sep) == Join(parts[..k], sep) + [sep] + parts[k] + if k + 1 == |parts| then "" else [sep] + Join(parts[k + 1..], sep)
  {
    assert parts == parts[..k] + parts[k..];
    JoinOfConcat(parts[..k], parts[k..], sep);
    assert parts[k..][1..] == parts[k + 1..];
  }

  lemma BetweenIsSplit(pre: string, segment: string, rest: string)
    requires Free(segment, '/')
    ensures Split(pre + "/" + segment + "/" + rest, '/') == Split(pre, '/') + [segment] + Split(rest, '/')
  {
    ClosingIsSplit(pre, segment);
    SplitOfConcat(pre + "/" + segment, rest, '/');
  }

  lemma ClosingIsSplit(pre: string, segment: string)
    requires Free(segment, '/')
    ensures Split(pre + "/" + segment, '/') == Split(pre, '/') + [segment]
  {
    SplitOfFree(segment, '/');
    SplitOfConcat(pre, segment, '/');
  }

  /** And a bad one it has is one it splits into, and not the first. */
  lemma BadSegmentIsSplit(path: string, bad: string)
    requires HasSegment(path, bad) && Bad(bad)
    ensures |Split(path, '/')| > 1 && AnyBad(Split(path, '/')[1..])
  {
    var parts := Split(path, '/');
    var at: nat;
    if i: nat :| Between(path, bad, i) {
      var rest :| path == path[..i] + "/" + bad + "/" + rest;
      BetweenIsSplit(path[..i], bad, rest);
      at := |Split(path[..i], '/')|;
    } else {
      var i: nat :| Closing(path, bad, i);
      ClosingIsSplit(path[..i], bad);
      at := |Split(path[..i], '/')|;
    }
    assert parts[at] == bad && parts[1..][at - 1] == bad;
  }

  /** The recorded form, character by character: an absolute path without control characters that has
      no empty segment (no `//`, no slash at its end), no `.` and no `..`. */
  lemma NormalExact(path: string)
    ensures Normal(path) <==>
      && path != "" && path[0] == '/' && (forall i :: 0 <= i < |path| ==> 0x20 <= path[i] as int != 0x7F)
      && !HasSegment(path, "") && !HasSegment(path, ".") && !HasSegment(path, "..")
  {
    if path != "" && path[0] == '/' {
      SplitAbsolute(path);
      var parts := Split(path, '/');
      if AnyBad(parts[1..]) {
        var k :| 0 <= k < |parts[1..]| && Bad(parts[1..][k]);
        SplitSegmentIsThere(path, k + 1);
      }
      forall bad | bad in {"", ".", ".."} && HasSegment(path, bad) ensures AnyBad(parts[1..]) { BadSegmentIsSplit(path, bad); }
    }
  }

  /** Normalisation is idempotent. */
  lemma NormalisedRootIdempotent(raw: string)
    requires NormalisedRoot(raw).Root?
    ensures NormalisedRoot(NormalisedRoot(raw).path) == NormalisedRoot(raw)
  {
    NormalisedIsNormal(raw);
    NormalIsKept(NormalisedRoot(raw).path);
  }

  // ---- the file -----------------------------------------------------------------

  /** The member names the file format knows, and any other one. */
  datatype Field =
    | Version | KeyList | KeyId | Principal | RoleName | Project | Label | CreatedAt | RevokedAt | Digest
    | ReservedOk | MemoryRoots | ArchiveRoots | Other(text: string)

  /** A JSON value, read. */
  datatype Json = Null | Bool(b: bool) | Num(n: int) | Str(s: string) | Arr(items: seq<Json>) | Obj(fields: map<Field, Json>)

  /** One key as the file stores it. `note` (its label) and `revokedAt` are kept as read. */
  datatype KeyRecord = KeyRecord(
    keyId: string,
    principal: string,
    role: Role,
    project: Option<string>,
    note: Json,
    createdAt: string,
    revokedAt: Json,
    digest: string,
    reservedOk: bool,
    memoryRoots: Option<seq<string>>,
    archiveRoots: Option<seq<string>>)
  {
    predicate Live() { revokedAt == Null }
  }

  type Keys = map<string, KeyRecord>

  /** The project-name rules, which another module owns, and Python's `str` of a JSON value. */
  datatype Names = Names(namesProject: string -> bool, hides: string -> bool, canonical: string -> string, text: Json -> string)

  /** `str` of a string is itself; canonicalising settles, and keeps a name a visible name. */
  ghost predicate NamesContract(n: Names) {
    && (forall s :: n.text(Str(s)) == s)
    && (forall s :: n.canonical(n.canonical(s)) == n.canonical(s))
    && (forall s :: n.namesProject(s) ==> n.namesProject(n.canonical(s)))
    && (forall s :: !n.hides(s) ==> !n.hides(n.canonical(s)))
  }

  function RoleText(role: Role): string {
    match role
    case Reader => "reader"
    case Agent => "agent"
    case Operator => "operator"
  }

  function RoleOf(j: Json): Option<Role> {
    if j == Str("reader") then Some(Reader)
    else if j == Str("agent") then Some(Agent)
    else if j == Str("operator") then Some(Operator)
    else None
  }

  /** `item.get(name)`. */
  function Get(fields: map<Field, Json>, name: Field): Json { if name in fields then fields[name] else Null }

  predicate AllStrings(items: seq<Json>) { forall i :: 0 <= i < |items| ==> items[i].Str? }

  function TextsOf(items: seq<Json>): seq<string>
    requires AllStrings(items)
  {
    seq(|items|, i requires 0 <= i < |items| => items[i].s)
  }

  function Strs(texts: seq<string>): seq<Json> { seq(|texts|, i requires 0 <= i < |texts| => Str(texts[i])) }

  /** `_parse_roots`: absent, a list of paths, or an error. */
  function ParseRoots(fields: map<Field, Json>, name: Field): Option<Option<seq<string>>> {
    var value := Get(fields, name);
    if value == Null then Some(None)
    else if value.Arr? && AllStrings(value.items) then Some(Some(TextsOf(value.items)))
    else None
  }

  /** One record of the file, or `None` where `_parse` raises. */
  function ParseItem(item: Json, n: Names): Option<KeyRecord> {
    if !item.Obj? then None
    else
      var f := item.fields;
      var project := Get(f, Project);
      var reserved := if ReservedOk in f then f[ReservedOk] else Bool(false);
      var memory, archive := ParseRoots(f, MemoryRoots), ParseRoots(f, ArchiveRoots);
      if !reserved.Bool? then None
      else if project != Null && !(project.Str? && n.namesProject(project.s)) then None
      else if project != Null && n.hides(project.s) then None
      else if memory.None? || archive.None? then None
      else if KeyId !in f || Principal !in f || RoleName !in f || CreatedAt !in f || Digest !in f then None
      else if RoleOf(f[RoleName]).None? then None
      else Some(KeyRecord(
        n.text(f[KeyId]), n.text(f[Principal]), RoleOf(f[RoleName]).value,
        if project == Null then None else Some(n.canonical(project.s)),
        Get(f, Label), n.text(f[CreatedAt]), Get(f, RevokedAt), n.text(f[Digest]),
        reserved.b, memory.value, archive.value))
  }

  /** The records in file order; a later one with the same id wins. */
  function ParseItems(items: seq<Json>, n: Names, out: Keys): Option<Keys> {
    if items == [] then Some(out)
    else
      var r := ParseItem(items[0], n);
      if r.None? then None else ParseItems(items[1..], n, out[r.value.keyId := r.value])
  }

  /** What iterating a JSON value yields: an empty object or string yields nothing, another
      one something that is not an object. */
  function Items(j: Json): Option<seq<Json>> {
    match j
    case Arr(items) => Some(items)
    case Obj(fields) => Some(if fields == map[] then [] else [Null])
    case Str(s) => Some(if s == "" then [] else [Null])
    case _ => None
  }

  /** `_parse`: the file's records, or `None` where the file is unusable. */
  function Parse(data: Json, n: Names): Option<Keys> {
    if !data.Obj? || (Get(data.fields, Version) != Num(1) && Get(data.fields, Version) != Bool(true)) then None
    else if KeyList !in data.fields || Items(data.fields[KeyList]).None? then None
    else ParseItems(Items(data.fields[KeyList]).value, n, map[])
  }

  function Optional(fields: map<Field, Json>, name: Field, roots: Option<seq<string>>): map<Field, Json> {
    if roots.None? then fields else fields[name := Arr(Strs(roots.value))]
  }

  /** The members every record is written with. */
  function Base(r: KeyRecord): map<Field, Json> {
    map[
      KeyId := Str(r.keyId), Principal := Str(r.principal), RoleName := Str(RoleText(r.role)),
      Project := (if r.project.None? then Null else Str(r.project.value)), Label := r.note,
      CreatedAt := Str(r.createdAt), RevokedAt := r.revokedAt, Digest := Str(r.digest),
      ReservedOk := Bool(r.reservedOk)]
  }

  function Item(r: KeyRecord): Json {
    Obj(Optional(Optional(Base(r), MemoryRoots, r.memoryRoots), ArchiveRoots, r.archiveRoots))
  }

  /** Text order, which `sorted` compares `created_at` by. */
  predicate Leq(a: string, b: string) {
    a == "" || (b != "" && (a[0] < b[0] || (a[0] == b[0] && Leq(a[1..], b[1..]))))
  }

  lemma {:induction false} LeqTotal(a: string, b: string)
    ensures Leq(a, b) || Leq(b, a)
  {
    if a != "" && b != "" && a[0] == b[0] { LeqTotal(a[1..], b[1..]); }
  }

  lemma {:induction false} LeqTransitive(a: string, b: string, c: string)
    requires Leq(a, b) && Leq(b, c)
    ensures Leq(a, c)
  {
    if a != "" && a[0] == b[0] && b[0] == c[0] { LeqTransitive(a[1..], b[1..], c[1..]); }
  }

  ghost predicate ByTime(rs: seq<KeyRecord>) { forall i, j :: 0 <= i <= j < |rs| ==> Leq(rs[i].createdAt, rs[j].createdAt) }

  /** The records listed once each, oldest first. */
  ghost predicate Listing(keys: Keys, rs: seq<KeyRecord>) {
    && ByTime(rs)
    && Distinct(rs)
    && (forall i :: 0 <= i < |rs| ==> rs[i].keyId in keys && keys[rs[i].keyId] == rs[i])
    && (forall k :: k in keys ==> keys[k] in rs)
  }

  function Document(rs: seq<KeyRecord>): Json {
    Obj(map[Version := Num(1), KeyList := Arr(Written(rs))])
  }

  /** A project name the file may hold. */
  predicate Storable(project: Option<string>, n: Names) {
    project.Some? ==> n.namesProject(project.value) && !n.hides(project.value) && n.canonical(project.value) == project.value
  }

  /** The map is keyed by id, and each project name is one the file may hold. */
  ghost predicate WellFormed(keys: Keys, n: Names) {
    forall k :: k in keys ==> keys[k].keyId == k && Storable(keys[k].project, n)
  }

  lemma ParseRootsOfItem(fields: map<Field, Json>, name: Field, roots: Option<seq<string>>)
    requires name !in fields || fields[name] == Null
    ensures ParseRoots(Optional(fields, name, roots), name) == Some(roots)
  {
    if roots.Some? {
      assert AllStrings(Strs(roots.value));
      assert TextsOf(Strs(roots.value)) == roots.value;
    }
  }

  /** Reading a record back gives the record. */
  lemma ParseOfItem(r: KeyRecord, n: Names)
    requires NamesContract(n)
    requires Storable(r.project, n)
    ensures ParseItem(Item(r), n) == Some(r)
  {
    WrittenFields(r);
    WrittenRoots(r);
  }

  lemma WrittenFields(r: KeyRecord)
    ensures var f := Item(r).fields;
      && KeyId in f && f[KeyId] == Str(r.keyId) && Principal in f && f[Principal] == Str(r.principal)
      && RoleName in f && RoleOf(f[RoleName]) == Some(r.role)
      && Get(f, Project) == (if r.project.None? then Null else Str(r.project.value)) && Get(f, Label) == r.note
      && CreatedAt in f && f[CreatedAt] == Str(r.createdAt) && Get(f, RevokedAt) == r.revokedAt
      && Digest in f && f[Digest] == Str(r.digest) && ReservedOk in f && f[ReservedOk] == Bool(r.reservedOk)
  {}

  lemma WrittenRoots(r: KeyRecord)
    ensures ParseRoots(Item(r).fields, MemoryRoots) == Some(r.memoryRoots)
    ensures ParseRoots(Item(r).fields, ArchiveRoots) == Some(r.archiveRoots)
  {
    var one := Optional(Base(r), MemoryRoots, r.memoryRoots);
    ParseRootsOfItem(Base(r), MemoryRoots, r.memoryRoots);
    ParseRootsOfItem(one, ArchiveRoots, r.archiveRoots);
    assert Get(Item(r).fields, MemoryRoots) == Get(one, MemoryRoots);
  }

  function Written(rs: seq<KeyRecord>): seq<Json> { seq(|rs|, i requires 0 <= i < |rs| => Item(rs[i])) }

  /** The records as a map, a later one with the same id winning. */
  function ToMap(rs: seq<KeyRecord>, out: Keys): Keys
    decreases |rs|
  {
    if rs == [] then out else ToMap(rs[1..], out[rs[0].keyId := rs[0]])
  }

  lemma {:induction false} ParseOfWritten(rs: seq<KeyRecord>, n: Names, out: Keys)
    requires NamesContract(n) && forall i :: 0 <= i < |rs| ==> Storable(rs[i].project, n)
    ensures ParseItems(Written(rs), n, out) == Some(ToMap(rs, out))
    decreases |rs|
  {
    if rs != [] {
      assert Written(rs)[0] == Item(rs[0]) && Written(rs)[1..] == Written(rs[1..]);
      ParseOfItem(rs[0], n);
      ParseOfWritten(rs[1..], n, out[rs[0].keyId := rs[0]]);
    }
  }

  ghost predicate Distinct(rs: seq<KeyRecord>) { forall i, j :: 0 <= i < j < |rs| ==> rs[i].keyId != rs[j].keyId }

  lemma {:induction false} ToMapHolds(rs: seq<KeyRecord>, out: Keys, k: string)
    requires Distinct(rs)
    ensures forall i :: 0 <= i < |rs| && rs[i].keyId == k ==> k in ToMap(rs, out) && ToMap(rs, out)[k] == rs[i]
    ensures (forall i :: 0 <= i < |rs| ==> rs[i].keyId != k) ==>
              (k in ToMap(rs, out) <==> k in out) && (k in out ==> ToMap(rs, out)[k] == out[k])
    decreases |rs|
  {
    if rs != [] {
      assert forall i :: 1 <= i < |rs| ==> rs[1..][i - 1] == rs[i];
      ToMapHolds(rs[1..], out[rs[0].keyId := rs[0]], k);
    }
  }

  lemma ListingIsMap(keys: Keys, rs: seq<KeyRecord>)
    requires Listing(keys, rs) && forall k :: k in keys ==> keys[k].keyId == k
    ensures ToMap(rs, map[]) == keys
  {
    var m := ToMap(rs, map[]);
    forall k ensures (k in keys <==> k in m) && (k in keys ==> m[k] == keys[k]) {
      ToMapHolds(rs, map[], k);
      if k in keys { var i :| 0 <= i < |rs| && rs[i] == keys[k]; }
    }
  }

  /** The parser inverts the serialiser on every well-formed key map. */
  lemma ParseInvertsSerialise(keys: Keys, rs: seq<KeyRecord>, n: Names)
    requires NamesContract(n) && WellFormed(keys, n) && Listing(keys, rs)
    ensures Parse(Document(rs), n) == Some(keys)
  {
    forall i | 0 <= i < |rs| ensures Storable(rs[i].project, n) { assert rs[i].keyId in keys; }
    ParseOfWritten(rs, n, map[]);
    ListingIsMap(keys, rs);
    assert Get(Document(rs).fields, Version) == Num(1);
    assert Items(Document(rs).fields[KeyList]) == Some(Written(rs));
  }

  predicate AllParse(items: seq<Json>, n: Names) { forall i :: 0 <= i < |items| ==> ParseItem(items[i], n).Some? }

  function RecordsOf(items: seq<Json>, n: Names): seq<KeyRecord>
    requires AllParse(items, n)
  {
    seq(|items|, i requires 0 <= i < |items| => ParseItem(items[i], n).value)
  }

  lemma {:induction false} ParseItemsExact(items: seq<Json>, n: Names, out: Keys)
    ensures ParseItems(items, n, out) == if AllParse(items, n) then Some(ToMap(RecordsOf(items, n), out)) else None
    decreases |items|
  {
    if items != [] {
      assert AllParse(items, n) <==> ParseItem(items[0], n).Some? && AllParse(items[1..], n) by {
        assert forall i :: 0 <= i < |items| - 1 ==> items[1..][i] == items[i + 1];
      }
      if ParseItem(items[0], n).Some? {
        var r := ParseItem(items[0], n).value;
        ParseItemsExact(items[1..], n, out[r.keyId := r]);
        if AllParse(items, n) { assert RecordsOf(items, n)[0] == r && RecordsOf(items, n)[1..] == RecordsOf(items[1..], n); }
      }
    }
  }

  /** Which files are usable: an object of version 1 whose list of keys holds usable records only; and
      of two records with one id the later counts. (`true` equals 1 to Python, and an empty object or
      text is an empty list.) */
  lemma UsableFileExactly(data: Json, n: Names)
    ensures Parse(data, n).Some? <==>
      && data.Obj? && Version in data.fields && data.fields[Version] in {Num(1), Bool(true)}
      && KeyList in data.fields
      && (data.fields[KeyList] in {Obj(map[]), Str("")} || (data.fields[KeyList].Arr? && AllParse(data.fields[KeyList].items, n)))
    ensures Parse(data, n).Some? && data.fields[KeyList].Arr? ==>
      AllParse(data.fields[KeyList].items, n) && Parse(data, n).value == ToMap(RecordsOf(data.fields[KeyList].items, n), map[])
  {
    if data.Obj? && KeyList in data.fields && Items(data.fields[KeyList]).Some? {
      var items := Items(data.fields[KeyList]).value;
      ParseItemsExact(items, n, map[]);
      assert items == [Null] ==> ParseItem(items[0], n).None?;
    }
  }

  /** Which records are usable, member by member. */
  lemma UsableRecordExactly(item: Json, n: Names)
    ensures ParseItem(item, n).Some? <==>
      && item.Obj?
      && var f := item.fields;
         && (ReservedOk in f ==> f[ReservedOk].Bool?)
         && (Project in f && f[Project] != Null ==> f[Project].Str? && n.namesProject(f[Project].s) && !n.hides(f[Project].s))
         && (MemoryRoots in f && f[MemoryRoots] != Null ==> f[MemoryRoots].Arr? && AllStrings(f[MemoryRoots].items))
         && (ArchiveRoots in f && f[ArchiveRoots] != Null ==> f[ArchiveRoots].Arr? && AllStrings(f[ArchiveRoots].items))
         && KeyId in f && Principal in f && CreatedAt in f && Digest in f
         && RoleName in f && f[RoleName] in {Str("reader"), Str("agent"), Str("operator")}
  {}

  lemma {:induction false} ParsedItemsAreWellFormed(items: seq<Json>, n: Names, out: Keys)
    requires NamesContract(n) && WellFormed(out, n)
    ensures ParseItems(items, n, out).Some? ==> WellFormed(ParseItems(items, n, out).value, n)
    decreases |items|
  {
    if items != [] && ParseItem(items[0], n).Some? {
      var r := ParseItem(items[0], n).value;
      ParsedItemsAreWellFormed(items[1..], n, out[r.keyId := r]);
    }
  }

  /** Whatever document was read, its records are ones the serialiser can carry: so reading any
      usable file, writing it and reading it again changes no record. */
  lemma ParsedIsWellFormed(data: Json, n: Names)
    requires NamesContract(n) && Parse(data, n).Some?
    ensures WellFormed(Parse(data, n).value, n)
  {
    ParsedItemsAreWellFormed(Items(data.fields[KeyList]).value, n, map[]);
  }

  /** The document lists every record once, oldest first. */
  ghost predicate Serialises(keys: Keys, data: Json) { exists rs :: Listing(keys, rs) && data == Document(rs) }

  /** `_serialise`: the records sorted by creation time, as a document. */
  method Serialise(keys: Keys) returns (data: Json, ghost rs: seq<KeyRecord>)
    requires forall k :: k in keys ==> keys[k].keyId == k
    ensures Listing(keys, rs) && data == Document(rs)
    ensures Serialises(keys, data)
  {
    var sorted: seq<KeyRecord> := [];
    var left := keys.Keys;
    ghost var done: Keys := map[];
    while left != {}
      invariant left <= keys.Keys && done.Keys == keys.Keys - left
      invariant forall k :: k in done ==> done[k] == keys[k]
      invariant Listing(done, sorted)
      decreases left
    {
      var k :| k in left;
      sorted := InsertByTime(done, sorted, keys[k]);
      done := done[k := keys[k]];
      left := left - {k};
    }
    assert done == keys;
    rs := sorted;
    data := Document(sorted);
  }

  method InsertByTime(ghost keys: Keys, rs: seq<KeyRecord>, r: KeyRecord) returns (out: seq<KeyRecord>)
    requires Listing(keys, rs) && r.keyId !in keys
    ensures Listing(keys[r.keyId := r], out)
  {
    var at := 0;
    while at < |rs| && Leq(rs[at].createdAt, r.createdAt)
      invariant at <= |rs| && forall i :: 0 <= i < at ==> Leq(rs[i].createdAt, r.createdAt)
    {
      at := at + 1;
    }
    out := rs[..at] + [r] + rs[at..];
    InsertedByTime(rs, r, at);
    InsertedLists(keys, rs, r, at);
  }

  lemma InsertedByTime(rs: seq<KeyRecord>, r: KeyRecord, at: nat)
    requires ByTime(rs) && at <= |rs|
    requires forall i :: 0 <= i < at ==> Leq(rs[i].createdAt, r.createdAt)
    requires at < |rs| ==> !Leq(rs[at].createdAt, r.createdAt)
    ensures ByTime(rs[..at] + [r] + rs[at..])
  {
    forall j | at <= j < |rs| ensures Leq(r.createdAt, rs[j].createdAt) {
      LeqTotal(rs[at].createdAt, r.createdAt);
      LeqTransitive(r.createdAt, rs[at].createdAt, rs[j].createdAt);
    }
    LeqTotal(r.createdAt, r.createdAt);
  }

  lemma InsertedLists(keys: Keys, rs: seq<KeyRecord>, r: KeyRecord, at: nat)
    requires Listing(keys, rs) && r.keyId !in keys && at <= |rs| && ByTime(rs[..at] + [r] + rs[at..])
    ensures Listing(keys[r.keyId := r], rs[..at] + [r] + rs[at..])
  {
    var out := rs[..at] + [r] + rs[at..];
    var next := keys[r.keyId := r];
    InsertedDistinct(rs, r, at);
    forall i | 0 <= i < |out| ensures out[i].keyId in next && next[out[i].keyId] == out[i] {
      var x := out[i];
      assert x == r || x in rs;
    }
    forall k | k in next ensures next[k] in out {
      InsertedMember(rs, r, at, next[k]);
    }
  }

  lemma InsertedMember(rs: seq<KeyRecord>, r: KeyRecord, at: nat, x: KeyRecord)
    requires at <= |rs|
    ensures x in rs[..at] + [r] + rs[at..] <==> x == r || x in rs
  {
    assert rs == rs[..at] + rs[at..];
  }

  lemma InsertedDistinct(rs: seq<KeyRecord>, r: KeyRecord, at: nat)
    requires Distinct(rs) && at <= |rs| && forall i :: 0 <= i < |rs| ==> rs[i].keyId != r.keyId
    ensures Distinct(rs[..at] + [r] + rs[at..])
  {
    var out := rs[..at] + [r] + rs[at..];
    assert forall i :: 0 <= i < |out| ==> out[i] == if i < at then rs[i] else if i == at then r else rs[i - 1];
  }
}
