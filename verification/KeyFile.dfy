/** particles/api/_keys.py: mint and revoke processes and readers, interleaved over one key file.

    Each command holds the sibling lock from its read through the rename; a reader takes no
    lock, reads through the descriptor it opened, and keeps a cache under the file's stamp. */
module KeyFile {
  import opened Options
  import opened KeyFormat
  import opened KeyRules
  import opened KeyHistory

  datatype Op = MintOp(request: Request) | RevokeOp(id: string)

  /** How a command ends. */
  datatype Result =
    | RuleRefused(refusal: Refusal) | TimedOut | Unusable
    | Made(id: string, secret: string, now: string)
    | Missing | Already(record: KeyRecord) | Revoked(record: KeyRecord)

  datatype Pc =
    | Start | Waiting | Locked
    | Loaded(records: Keys)
    | Ready(next: Keys, change: Change, outcome: Result)
    | Leaving(result: Result) | Done(result: Result)

  datatype Cache = Cache(stamp: nat, records: Keys)

  /** A reader: its open descriptor's version, its cache, and its last answer. */
  datatype Reader = View(fd: Option<nat>, cache: Option<Cache>, count: nat, last: nat, answer: Keys)

  /** `files` is the file's content after each rename, the last one current; `log` and `owners`
      are what each rename changed and which process made it. */
  datatype State = State(
    lock: Option<nat>, files: seq<Option<Json>>, procs: seq<Pc>, readers: seq<Reader>,
    log: seq<Change>, owners: seq<nat>)

  /** A command under its settings, and what the file first held. */
  datatype World = World(c: Config, ops: seq<Op>, keys: Keys)

  /** The records of a file: an absent one holds none. */
  function Read(file: Option<Json>, n: Names): Option<Keys> {
    if file.None? then Some(map[]) else Parse(file.value, n)
  }

  function File(s: State): Option<Json>
    requires s.files != []
  {
    s.files[|s.files| - 1]
  }

  // ---- steps ---------------------------------------------------------------------

  datatype Action =
    | Begin | Acquire | TimeOut | Load
    | Draw(id: string, secret: string, now: string) | Plan(now: string)
    | Rename(listing: seq<KeyRecord>) | Leave

  function AfterLoad(file: Option<Json>, n: Names): Pc {
    var r := Read(file, n);
    if r.None? then Leaving(Unusable) else Loaded(r.value)
  }

  /** What a mint does with the records it read: `id` is the first draw they do not hold. */
  function AfterDraw(c: Config, q: Request, keys: Keys, id: string, secret: string, now: string): Pc
    requires Prepare(c, q).Draft?
  {
    var r := Minted(c, q, id, secret, now);
    Ready(keys[id := r], Added(r), Made(id, secret, now))
  }

  function AfterPlan(id: string, keys: Keys, now: string): Pc {
    if id !in keys then Leaving(Missing)
    else if !keys[id].Live() then Leaving(Already(keys[id]))
    else
      var r := keys[id].(revokedAt := Str(now));
      Ready(keys[id := r], Stamped(id, now), Revoked(r))
  }

  /** The process's next program counter, or `None` where the action cannot happen. */
  ghost function NextPc(c: Config, op: Op, lock: Option<nat>, file: Option<Json>, pc: Pc, a: Action): Option<Pc> {
    match a
    case Begin =>
      if pc != Start then None
      else if op.MintOp? && Prepare(c, op.request).Refused? then Some(Done(RuleRefused(Prepare(c, op.request).refusal)))
      else Some(Waiting)
    case Acquire => if pc == Waiting && lock.None? then Some(Locked) else None
    case TimeOut => if pc == Waiting && lock.Some? then Some(Done(TimedOut)) else None
    case Load => if pc == Locked then Some(AfterLoad(file, c.names)) else None
    case Draw(id, secret, now) =>
      if pc.Loaded? && op.MintOp? && Prepare(c, op.request).Draft? && IsId(id) && IsSecret(secret) && id !in pc.records
      then Some(AfterDraw(c, op.request, pc.records, id, secret, now)) else None
    case Plan(now) => if pc.Loaded? && op.RevokeOp? then Some(AfterPlan(op.id, pc.records, now)) else None
    case Rename(listing) => if pc.Ready? && Listing(pc.next, listing) then Some(Leaving(pc.outcome)) else None
    case Leave => if pc.Leaving? then Some(Done(pc.result)) else None
  }

  function NextLock(lock: Option<nat>, p: nat, a: Action): Option<nat> {
    if a.Acquire? then Some(p) else if a.Leave? then None else lock
  }

  ghost predicate ProcStep(w: World, s: State, t: State, p: nat, a: Action)
    requires s.files != [] && |s.procs| == |w.ops|
  {
    && p < |s.procs|
    && var pc := s.procs[p];
       var pc' := NextPc(w.c, w.ops[p], s.lock, File(s), pc, a);
       && pc'.Some?
       && t.procs == s.procs[p := pc'.value]
       && t.lock == NextLock(s.lock, p, a)
       && t.readers == s.readers
       && (if a.Rename?
           then t.files == s.files + [Some(Document(a.listing))] && t.log == s.log + [pc.change] && t.owners == s.owners + [p]
           else t.files == s.files && t.log == s.log && t.owners == s.owners)
  }

  /** A reader opens the current file. */
  predicate OpenStep(s: State, t: State, r: nat)
    requires s.files != []
  {
    && r < |s.readers| && s.readers[r].fd.None?
    && t == s.(readers := s.readers[r := s.readers[r].(fd := Some(|s.files| - 1))])
  }

  /** And answers from its cache, if that is young and under the same stamp, or by parsing. */
  predicate AnswerStep(w: World, s: State, t: State, r: nat, young: bool)
  {
    && r < |s.readers| && s.readers[r].fd.Some? && s.readers[r].fd.value < |s.files|
    && var me := s.readers[r]; var v := me.fd.value;
       var parsed := if young && me.cache.Some? && me.cache.value.stamp == v
                     then Some(me.cache.value.records) else Read(s.files[v], w.c.names);
       && parsed.Some?
       && t == s.(readers := s.readers[r := View(None, Some(Cache(v, parsed.value)), me.count + 1, v, parsed.value)])
  }

  datatype Label = Proc(p: nat, a: Action) | Open(r: nat) | Answer(r: nat, young: bool)

  ghost predicate Step(w: World, s: State, t: State, l: Label)
    requires s.files != [] && |s.procs| == |w.ops|
  {
    match l
    case Proc(p, a) => ProcStep(w, s, t, p, a)
    case Open(r) => OpenStep(s, t, r)
    case Answer(r, young) => AnswerStep(w, s, t, r, young)
  }

  /** A command records the id, secret and time it drew: a mint's record is that of its request under
      them, and a revocation's stamp is the time and leaves the rest of the record alone. */
  lemma StepsUseTheirDraws(w: World, s: State, t: State, p: nat, a: Action)
    requires s.files != [] && |s.procs| == |w.ops| && ProcStep(w, s, t, p, a) && t.procs[p].Ready? && s.procs[p] != t.procs[p]
    ensures match w.ops[p]
      case MintOp(q) =>
        && a.Draw? && t.procs[p].outcome == Made(a.id, a.secret, a.now) && t.procs[p].change.Added?
        && Records(w.c, q, a.id, a.secret, a.now, t.procs[p].change.record)
      case RevokeOp(id) =>
        && a.Plan? && t.procs[p].change == Stamped(id, a.now) && s.procs[p].Loaded? && id in s.procs[p].records
        && t.procs[p].outcome == Revoked(s.procs[p].records[id].(revokedAt := Str(a.now)))
  {
    if a.Draw? { MintedRecordsTheRequest(w.c, w.ops[p].request, a.id, a.secret, a.now); }
  }

  // ---- what every reachable state keeps --------------------------------------------

  ghost predicate WorldOk(w: World) { ConfigContract(w.c) && WellFormed(w.keys, w.c.names) }

  ghost predicate HistoryOk(w: World, s: State) {
    && ValidLog(w.keys, s.log)
    && (forall i :: 0 <= i < |s.log| && s.log[i].Added? ==> Storable(s.log[i].record.project, w.c.names))
  }

  /** Every content the file ever had reads as the map after that many changes. */
  ghost predicate FilesRead(n: Names, keys: Keys, log: seq<Change>, files: seq<Option<Json>>)
    requires ValidLog(keys, log)
  {
    && |files| == |log| + 1
    && forall v: nat :: v < |files| ==> Read(files[v], n) == Some(VersionAt(keys, log, v))
  }

  ghost predicate FilesOk(w: World, s: State)
    requires HistoryOk(w, s)
  {
    FilesRead(w.c.names, w.keys, s.log, s.files)
  }

  ghost function Current(w: World, s: State): Keys
    requires HistoryOk(w, s)
  {
    After(w.keys, s.log)
  }

  predicate Inside(pc: Pc) { pc.Locked? || pc.Loaded? || pc.Ready? || pc.Leaving? }

  ghost predicate LockOk(s: State) { forall p: nat :: p < |s.procs| ==> (Inside(s.procs[p]) <==> s.lock == Some(p)) }

  /** What a result says of the current records, for good. (That a key is missing is true of the
      version that was read, and until the command leaves; see `PcOk` and `KeyRuns.ExplainedAt`.) */
  ghost predicate ResultOk(c: Config, op: Op, now: Keys, r: Result) {
    match r
    case RuleRefused(_) => op.MintOp? && Prepare(c, op.request).Refused?
    case TimedOut => true
    case Unusable => false
    case Made(id, secret, time) =>
      && op.MintOp? && Prepare(c, op.request).Draft? && IsId(id) && IsSecret(secret)
      && id in now && SameKey(Minted(c, op.request, id, secret, time), now[id])
    case Missing => op.RevokeOp?
    case Already(record) => op.RevokeOp? && op.id in now && now[op.id] == record && !record.Live()
    case Revoked(record) => op.RevokeOp? && op.id in now && now[op.id] == record && !record.Live()
  }

  /** The change a result reports. */
  predicate Reports(c: Config, op: Op, r: Result, ch: Change) {
    match r
    case Made(id, secret, time) =>
      op.MintOp? && Prepare(c, op.request).Draft? && ch == Added(Minted(c, op.request, id, secret, time))
    case Revoked(record) => op.RevokeOp? && ch.Stamped? && ch.id == op.id && record.revokedAt == Str(ch.time)
    case _ => false
  }

  ghost predicate PcOk(c: Config, op: Op, now: Keys, pc: Pc) {
    match pc
    case Start => true
    case Waiting => op.MintOp? ==> Prepare(c, op.request).Draft?
    case Locked => op.MintOp? ==> Prepare(c, op.request).Draft?
    case Loaded(records) => records == now
    case Ready(next, ch, r) =>
      && Enabled(now, ch) && next == Apply(now, ch)
      && (ch.Added? ==> Storable(ch.record.project, c.names))
      && Reports(c, op, r, ch) && ResultOk(c, op, next, r)
    case Leaving(r) => ResultOk(c, op, now, r) && (r == Missing ==> op.id !in now)
    case Done(r) => ResultOk(c, op, now, r)
  }

  ghost predicate ProcsOk(w: World, s: State)
    requires HistoryOk(w, s)
  {
    && |s.procs| == |w.ops|
    && forall p: nat :: p < |s.procs| ==> PcOk(w.c, w.ops[p], Current(w, s), s.procs[p])
  }

  predicate Committed(pc: Pc) { (pc.Leaving? || pc.Done?) && (pc.result.Made? || pc.result.Revoked?) }

  /** The changes are one for each process that made one, in the order of their renames. */
  ghost predicate OwnersOk(w: World, s: State)
    requires |s.procs| == |w.ops|
  {
    && |s.owners| == |s.log|
    && (forall i, j :: 0 <= i < j < |s.owners| ==> s.owners[i] != s.owners[j])
    && (forall p: nat :: p < |s.procs| ==> (Committed(s.procs[p]) <==> p in s.owners))
    && (forall i :: 0 <= i < |s.owners| ==>
          && s.owners[i] < |s.procs| && Committed(s.procs[s.owners[i]])
          && Reports(w.c, w.ops[s.owners[i]], s.procs[s.owners[i]].result, s.log[i]))
  }

  ghost predicate ReaderOk(w: World, s: State, r: Reader)
    requires HistoryOk(w, s)
  {
    && (r.fd.Some? ==> r.last <= r.fd.value <= |s.log|)
    && (r.cache.Some? ==> r.cache.value.stamp <= |s.log| && r.cache.value.records == VersionAt(w.keys, s.log, r.cache.value.stamp))
    && r.last <= |s.log| && (r.count > 0 ==> r.answer == VersionAt(w.keys, s.log, r.last))
  }

  ghost predicate ReadersOk(w: World, s: State)
    requires HistoryOk(w, s)
  {
    forall r :: 0 <= r < |s.readers| ==> ReaderOk(w, s, s.readers[r])
  }

  ghost predicate Inv(w: World, s: State) {
    && WorldOk(w) && HistoryOk(w, s) && FilesOk(w, s) && LockOk(s) && ProcsOk(w, s) && OwnersOk(w, s) && ReadersOk(w, s)
  }

  /** Any usable or absent file, any commands yet to start, any readers yet to read. */
  ghost predicate Init(w: World, s: State) {
    && WorldOk(w) && s.lock.None? && |s.files| == 1 && Read(s.files[0], w.c.names) == Some(w.keys)
    && |s.procs| == |w.ops| && (forall p :: 0 <= p < |s.procs| ==> s.procs[p] == Start)
    && (forall r :: 0 <= r < |s.readers| ==> s.readers[r] == View(None, None, 0, 0, map[]))
    && s.log == [] && s.owners == []
  }

  lemma InitKeepsInv(w: World, s: State)
    requires Init(w, s)
    ensures Inv(w, s)
  {}

  // ---- results outlive later changes -----------------------------------------------

  lemma ResultOutlives(c: Config, op: Op, now: Keys, later: Keys, r: Result)
    requires ResultOk(c, op, now, r) && Extends(now, later)
    ensures ResultOk(c, op, later, r)
  {}

  /** The prefix of a history reads the same in the longer one. */
  lemma VersionOfLonger(keys: Keys, log: seq<Change>, ch: Change, v: nat)
    requires ValidLog(keys, log) && v <= |log| && Enabled(After(keys, log), ch)
    ensures ValidLog(keys, log + [ch]) && VersionAt(keys, log + [ch], v) == VersionAt(keys, log, v)
    ensures VersionAt(keys, log + [ch], |log| + 1) == Apply(After(keys, log), ch) == After(keys, log + [ch])
  {
    AfterConcat(keys, log, [ch]);
    assert ValidLog(After(keys, log), [ch]) && After(After(keys, log), [ch]) == Apply(After(keys, log), ch) by {
      assert [ch][1..] == [];
    }
    assert (log + [ch])[..v] == log[..v];
    assert (log + [ch])[..|log| + 1] == log + [ch];
  }

  lemma ReaderOutlives(w: World, s: State, t: State, r: Reader)
    requires HistoryOk(w, s) && HistoryOk(w, t) && ReaderOk(w, s, r)
    requires exists ch :: Enabled(After(w.keys, s.log), ch) && t.log == s.log + [ch]
    ensures ReaderOk(w, t, r)
  {
    var ch :| Enabled(After(w.keys, s.log), ch) && t.log == s.log + [ch];
    VersionOfLonger(w.keys, s.log, ch, r.last);
    if r.cache.Some? { VersionOfLonger(w.keys, s.log, ch, r.cache.value.stamp); }
  }

  // ---- the steps keep the invariant -------------------------------------------------

  lemma DrawIsOk(c: Config, op: Op, keys: Keys, id: string, secret: string, now: string)
    requires ConfigContract(c) && op.MintOp? && Prepare(c, op.request).Draft? && IsId(id) && IsSecret(secret) && id !in keys
    ensures PcOk(c, op, keys, AfterDraw(c, op.request, keys, id, secret, now))
  {
    MintedIsUsable(c, op.request, id, secret, now);
  }

  /** A step of the process that is not its rename. */
  lemma QuietPcKeepsOk(c: Config, op: Op, lock: Option<nat>, file: Option<Json>, keys: Keys, pc: Pc, a: Action)
    requires ConfigContract(c) && PcOk(c, op, keys, pc) && Read(file, c.names) == Some(keys) && !a.Rename?
    requires NextPc(c, op, lock, file, pc, a).Some?
    ensures PcOk(c, op, keys, NextPc(c, op, lock, file, pc, a).value)
  {
    if a.Draw? { DrawIsOk(c, op, keys, a.id, a.secret, a.now); }
  }

  lemma FileReads(w: World, s: State)
    requires HistoryOk(w, s) && FilesOk(w, s)
    ensures Read(File(s), w.c.names) == Some(Current(w, s))
  {
    assert s.log[..|s.log|] == s.log;
    assert Read(File(s), w.c.names) == Some(VersionAt(w.keys, s.log, |s.log|));
  }

  lemma LockStepKeepsOk(w: World, s: State, t: State, p: nat, a: Action)
    requires LockOk(s) && s.files != [] && |s.procs| == |w.ops| && ProcStep(w, s, t, p, a)
    ensures LockOk(t)
  {
    if a.Acquire? || a.Leave? {
      forall q: nat | q < |t.procs| ensures Inside(t.procs[q]) <==> t.lock == Some(q) {
        assert Inside(s.procs[q]) <==> s.lock == Some(q);
        assert Inside(s.procs[p]) <==> s.lock == Some(p);
      }
    } else {
      InsideKept(w.c, w.ops[p], s.lock, File(s), s.procs[p], a);
    }
  }

  lemma InsideKept(c: Config, op: Op, lock: Option<nat>, file: Option<Json>, pc: Pc, a: Action)
    requires NextPc(c, op, lock, file, pc, a).Some? && !a.Acquire? && !a.Leave?
    ensures Inside(NextPc(c, op, lock, file, pc, a).value) <==> Inside(pc)
  {}

  lemma CommittedKept(c: Config, op: Op, lock: Option<nat>, file: Option<Json>, pc: Pc, a: Action)
    requires NextPc(c, op, lock, file, pc, a).Some? && !a.Rename?
    ensures Committed(NextPc(c, op, lock, file, pc, a).value) <==> Committed(pc)
    ensures Committed(pc) ==> NextPc(c, op, lock, file, pc, a).value.result == pc.result
  {}

  lemma QuietStepKeepsInv(w: World, s: State, t: State, p: nat, a: Action)
    requires Inv(w, s) && ProcStep(w, s, t, p, a) && !a.Rename?
    ensures Inv(w, t)
  {
    FileReads(w, s);
    QuietPcKeepsOk(w.c, w.ops[p], s.lock, File(s), Current(w, s), s.procs[p], a);
    LockStepKeepsOk(w, s, t, p, a);
    assert FilesOk(w, t);
    assert ProcsOk(w, t);
    CommittedKept(w.c, w.ops[p], s.lock, File(s), s.procs[p], a);
    assert OwnersOk(w, t);
    assert ReadersOk(w, t) by {
      forall r | 0 <= r < |t.readers| ensures ReaderOk(w, t, t.readers[r]) { assert ReaderOk(w, s, s.readers[r]); }
    }
  }

  /** The renamed document reads as the map it was written from. */
  lemma DocumentReads(w: World, log: seq<Change>, ch: Change, listing: seq<KeyRecord>)
    requires WorldOk(w) && ValidLog(w.keys, log) && Enabled(After(w.keys, log), ch)
    requires forall i :: 0 <= i < |log| && log[i].Added? ==> Storable(log[i].record.project, w.c.names)
    requires ch.Added? ==> Storable(ch.record.project, w.c.names)
    requires Listing(Apply(After(w.keys, log), ch), listing)
    ensures Read(Some(Document(listing)), w.c.names) == Some(Apply(After(w.keys, log), ch))
  {
    HistoryIsWellFormed(w.keys, log, w.c.names);
    ParseInvertsSerialise(Apply(After(w.keys, log), ch), listing, w.c.names);
  }

  lemma RenameKeepsHistory(w: World, s: State, t: State, ch: Change, listing: seq<KeyRecord>)
    requires WorldOk(w) && HistoryOk(w, s) && FilesOk(w, s)
    requires Enabled(Current(w, s), ch) && (ch.Added? ==> Storable(ch.record.project, w.c.names))
    requires Listing(Apply(Current(w, s), ch), listing)
    requires t.log == s.log + [ch] && t.files == s.files + [Some(Document(listing))]
    ensures HistoryOk(w, t) && FilesOk(w, t) && Current(w, t) == Apply(Current(w, s), ch)
  {
    VersionOfLonger(w.keys, s.log, ch, 0);
    DocumentReads(w, s.log, ch, listing);
    FilesReadOneMore(w.c.names, w.keys, s.log, s.files, ch, Some(Document(listing)));
  }

  lemma FilesReadOneMore(n: Names, keys: Keys, log: seq<Change>, files: seq<Option<Json>>, ch: Change, file: Option<Json>)
    requires ValidLog(keys, log) && FilesRead(n, keys, log, files) && Enabled(After(keys, log), ch)
    requires Read(file, n) == Some(Apply(After(keys, log), ch))
    ensures ValidLog(keys, log + [ch]) && FilesRead(n, keys, log + [ch], files + [file])
  {
    VersionOfLonger(keys, log, ch, 0);
    forall v: nat | v < |files| + 1 ensures Read((files + [file])[v], n) == Some(VersionAt(keys, log + [ch], v)) {
      if v < |files| { VersionOfLonger(keys, log, ch, v); }
    }
  }

  lemma RenameKeepsProcs(w: World, s: State, t: State, p: nat, a: Action)
    requires Inv(w, s) && ProcStep(w, s, t, p, a) && a.Rename? && HistoryOk(w, t)
    requires Enabled(Current(w, s), s.procs[p].change) && Current(w, t) == Apply(Current(w, s), s.procs[p].change)
    requires Extends(Current(w, s), Current(w, t))
    ensures ProcsOk(w, t)
  {
    forall q: nat | q < |t.procs| ensures PcOk(w.c, w.ops[q], Current(w, t), t.procs[q]) {
      assert PcOk(w.c, w.ops[q], Current(w, s), s.procs[q]);
      if q != p {
        assert Inside(s.procs[p]) && s.lock == Some(p);
        OutsiderOutlives(w.c, w.ops[q], Current(w, s), Current(w, t), s.procs[q]);
      } else {
        RenamedMayLeave(w.c, w.ops[p], Current(w, s), s.procs[p]);
      }
    }
  }

  /** A process outside the lock is none the worse for another's change. */
  lemma OutsiderOutlives(c: Config, op: Op, now: Keys, later: Keys, pc: Pc)
    requires PcOk(c, op, now, pc) && !Inside(pc) && Extends(now, later)
    ensures PcOk(c, op, later, pc)
  {
    if pc.Done? { ResultOutlives(c, op, now, later, pc.result); }
  }

  lemma RenamedMayLeave(c: Config, op: Op, now: Keys, pc: Pc)
    requires pc.Ready? && PcOk(c, op, now, pc)
    ensures PcOk(c, op, Apply(now, pc.change), Leaving(pc.outcome))
  {}

  lemma RenameKeepsOwners(w: World, s: State, t: State, p: nat, a: Action)
    requires |s.procs| == |w.ops| && s.files != [] && OwnersOk(w, s) && ProcStep(w, s, t, p, a) && a.Rename?
    requires Reports(w.c, w.ops[p], s.procs[p].outcome, s.procs[p].change)
    ensures OwnersOk(w, t)
  {
    assert !Committed(s.procs[p]) && Committed(t.procs[p]);
    forall i | 0 <= i < |t.owners|
      ensures t.owners[i] < |t.procs| && Committed(t.procs[t.owners[i]])
      ensures Reports(w.c, w.ops[t.owners[i]], t.procs[t.owners[i]].result, t.log[i])
    {
      if i < |s.owners| { assert s.owners[i] != p; }
    }
  }

  lemma RenameKeepsInv(w: World, s: State, t: State, p: nat, a: Action)
    requires Inv(w, s) && ProcStep(w, s, t, p, a) && a.Rename?
    ensures Inv(w, t)
  {
    assert PcOk(w.c, w.ops[p], Current(w, s), s.procs[p]);
    RenameKeepsHistory(w, s, t, s.procs[p].change, a.listing);
    ApplyExtends(Current(w, s), s.procs[p].change);
    RenameKeepsProcs(w, s, t, p, a);
    RenameKeepsOwners(w, s, t, p, a);
    LockStepKeepsOk(w, s, t, p, a);
    forall r | 0 <= r < |t.readers| ensures ReaderOk(w, t, t.readers[r]) { ReaderOutlives(w, s, t, s.readers[r]); }
  }

  lemma ReaderStepKeepsInv(w: World, s: State, t: State, r: nat, l: Label)
    requires Inv(w, s) && Step(w, s, t, l) && !l.Proc? && r == l.r
    ensures Inv(w, t)
  {
    assert ReaderOk(w, s, s.readers[r]);
    assert ReaderOk(w, t, t.readers[r]);
    forall q | 0 <= q < |t.readers| && q != r ensures ReaderOk(w, t, t.readers[q]) { assert ReaderOk(w, s, s.readers[q]); }
    assert FilesOk(w, t) && LockOk(t) && ProcsOk(w, t) && OwnersOk(w, t);
  }

  /** Every step of every process and reader keeps the invariant. */
  lemma StepKeepsInv(w: World, s: State, t: State, l: Label)
    requires Inv(w, s) && Step(w, s, t, l)
    ensures Inv(w, t)
  {
    if !l.Proc? {
      ReaderStepKeepsInv(w, s, t, l.r, l);
    } else if l.a.Rename? {
      RenameKeepsInv(w, s, t, l.p, l.a);
    } else {
      QuietStepKeepsInv(w, s, t, l.p, l.a);
    }
  }
}
