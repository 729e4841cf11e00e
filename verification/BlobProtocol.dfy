/** particles/corpus/blob_io.py: any number of writers and readers racing on one blob's name,
    as a state machine over their system calls. */
module BlobProtocol {
  import opened Options

  newtype Byte = b: int | 0 <= b < 256

  type Bytes = seq<Byte>

  type Inode = nat
  type Actor = nat

  /** The blob being written, the digest that names it, and whether the filesystem has hard links. */
  datatype Setting = Setting(blob: Bytes, sha256: Bytes -> string, hardLinks: bool)

  /** Two byte strings with one digest are one. */
  ghost predicate Injective(sha256: Bytes -> string) {
    forall a, b :: sha256(a) == sha256(b) ==> a == b
  }

  /** The bytes hash to the blob's name. */
  predicate Matches(e: Setting, bytes: Bytes) { e.sha256(bytes) == e.sha256(e.blob) }

  /** How `write_blob` ends: the path, a FileNotFoundError from a name that went away between two
      calls, or the refusal of `_install`. */
  datatype Outcome = Returned | NotFound | Refused

  /** The next system call of a writer. `again` marks the second attempt of `_install`. */
  datatype Writing =
    | Start                                            // _exists
    | JudgeOpen                                        // open in _holds_blob
    | JudgeRead(fd: Inode)
    | MakeTemp                                         // O_CREAT | O_EXCL
    | Filling(temp: Inode)                             // write, in any number of pieces
    | Link(temp: Inode, again: bool)
    | LinkJudgeOpen(temp: Inode, again: bool)
    | LinkJudgeRead(temp: Inode, again: bool, fd: Inode)
    | Unlink(temp: Inode)                              // of the blob's name
    | RenameCheck(temp: Inode, again: bool)            // no hard links: _exists
    | RenameJudgeOpen(temp: Inode, again: bool)
    | RenameJudgeRead(temp: Inode, again: bool, fd: Inode)
    | Rename(temp: Inode)
    | Cleanup(outcome: Outcome)                        // unlink of the temporary name
    | Done(outcome: Outcome)

  datatype ReadOutcome = Found(data: Bytes) | Missing | BadHash

  datatype Reading =
    | ReadStart
    | HashPass(fd: Inode)
    | BufferPass(fd: Inode)
    | ReadDone(result: ReadOutcome)

  /** The shard: file contents by inode, what the blob's name links to, and the actors. */
  datatype State = State(
    contents: map<Inode, Bytes>,
    entry: Option<Inode>,
    writers: map<Actor, Writing>,
    readers: map<Actor, Reading>)

  /** One step of one actor, with what the outside world decides: a new file's inode, how far a
      write got, and which of its two errors `link` reports on a filesystem without hard links
      when the name is taken. */
  datatype Move =
    | WriterMove(actor: Actor, inode: Inode, upTo: nat, taken: bool)
    | ReaderMove(actor: Actor)

  // ---- the steps ----------------------------------------------------------------

  predicate Enabled(e: Setting, s: State, m: Move) {
    match m
    case ReaderMove(r) => r in s.readers && !s.readers[r].ReadDone?
    case WriterMove(w, inode, upTo, _) =>
      && w in s.writers && !s.writers[w].Done?
      && (s.writers[w].MakeTemp? ==> inode !in s.contents)
      && (s.writers[w].Filling? ==>
            s.writers[w].temp in s.contents && |s.contents[s.writers[w].temp]| <= upTo <= |e.blob|
            && (|s.contents[s.writers[w].temp]| < upTo || upTo == |e.blob|))
  }

  function Content(s: State, fd: Inode): Bytes { if fd in s.contents then s.contents[fd] else [] }

  /** `os.link` makes the link; otherwise it fails, on a taken name or for want of hard links. */
  predicate Links(e: Setting, s: State) { e.hardLinks && s.entry.None? }

  function NextPc(e: Setting, s: State, pc: Writing, m: Move): Writing
    requires m.WriterMove?
  {
    match pc
    case Start => if s.entry.Some? then JudgeOpen else MakeTemp
    case JudgeOpen => if s.entry.Some? then JudgeRead(s.entry.value) else Done(NotFound)
    case JudgeRead(fd) => if Matches(e, Content(s, fd)) then Done(Returned) else MakeTemp
    case MakeTemp => Filling(m.inode)
    case Filling(temp) => if |Content(s, temp)| == |e.blob| then Link(temp, false) else Filling(temp)
    case Link(temp, again) =>
      if Links(e, s) then Cleanup(Returned)
      else if s.entry.Some? && (e.hardLinks || m.taken) then LinkJudgeOpen(temp, again)
      else RenameCheck(temp, again)
    case LinkJudgeOpen(temp, again) => if s.entry.Some? then LinkJudgeRead(temp, again, s.entry.value) else Cleanup(NotFound)
    case LinkJudgeRead(temp, again, fd) =>
      if Matches(e, Content(s, fd)) then Cleanup(Returned) else if again then Cleanup(Refused) else Unlink(temp)
    case Unlink(temp) => if s.entry.Some? then Link(temp, true) else Cleanup(NotFound)
    case RenameCheck(temp, again) => if s.entry.Some? then RenameJudgeOpen(temp, again) else Rename(temp)
    case RenameJudgeOpen(temp, again) => if s.entry.Some? then RenameJudgeRead(temp, again, s.entry.value) else Cleanup(NotFound)
    case RenameJudgeRead(temp, again, fd) => if Matches(e, Content(s, fd)) then Cleanup(Returned) else Rename(temp)
    case Rename(temp) => Cleanup(Returned)
    case Cleanup(outcome) => Done(outcome)
    case Done(outcome) => Done(outcome)
  }

  function NextEntry(e: Setting, s: State, pc: Writing): Option<Inode> {
    match pc
    case Link(temp, _) => if Links(e, s) then Some(temp) else s.entry
    case Unlink(_) => None
    case Rename(temp) => Some(temp)
    case _ => s.entry
  }

  function NextContents(e: Setting, s: State, pc: Writing, m: Move): map<Inode, Bytes>
    requires m.WriterMove?
    requires pc.Filling? ==> m.upTo <= |e.blob|
  {
    match pc
    case MakeTemp => s.contents[m.inode := []]
    case Filling(temp) => if |Content(s, temp)| == |e.blob| then s.contents else s.contents[temp := e.blob[..m.upTo]]
    case _ => s.contents
  }

  function WriterStep(e: Setting, s: State, m: Move): State
    requires m.WriterMove? && Enabled(e, s, m)
  {
    var pc := s.writers[m.actor];
    State(NextContents(e, s, pc, m), NextEntry(e, s, pc), s.writers[m.actor := NextPc(e, s, pc, m)], s.readers)
  }

  function ReaderStep(e: Setting, s: State, m: Move): State
    requires m.ReaderMove? && Enabled(e, s, m)
  {
    var r := m.actor;
    var next := match s.readers[r]
      case ReadStart => if s.entry.Some? then HashPass(s.entry.value) else ReadDone(Missing)
      case HashPass(fd) => if Matches(e, Content(s, fd)) then BufferPass(fd) else ReadDone(BadHash)
      case BufferPass(fd) => ReadDone(if Matches(e, Content(s, fd)) then Found(Content(s, fd)) else BadHash)
      case ReadDone(result) => ReadDone(result);
    s.(readers := s.readers[r := next])
  }

  function Next(e: Setting, s: State, m: Move): State
    requires Enabled(e, s, m)
  {
    if m.WriterMove? then WriterStep(e, s, m) else ReaderStep(e, s, m)
  }

  /** An interleaving: every move is one its actor can make then. */
  predicate Legal(e: Setting, s: State, moves: seq<Move>)
    decreases |moves|
  {
    moves != [] ==> Enabled(e, s, moves[0]) && Legal(e, Next(e, s, moves[0]), moves[1..])
  }

  function Exec(e: Setting, s: State, moves: seq<Move>): State
    requires Legal(e, s, moves)
    decreases |moves|
  {
    if moves == [] then s else Exec(e, Next(e, s, moves[0]), moves[1..])
  }

  /** Before anyone starts: the name is free, or links to some regular file. */
  ghost predicate Initial(s: State) {
    && (s.entry.None? ==> s.contents == map[])
    && (s.entry.Some? ==> s.contents.Keys == {s.entry.value})
    && (forall w :: w in s.writers ==> s.writers[w] == Start)
    && (forall r :: r in s.readers ==> s.readers[r] == ReadStart)
  }

  predicate HoldsBlob(e: Setting, s: State) {
    s.entry.Some? && s.entry.value in s.contents && s.contents[s.entry.value] == e.blob
  }

  /** A regular file with other bytes is planted at the name. */
  predicate Foreign(e: Setting, s: State) {
    s.entry.Some? && s.entry.value in s.contents && s.contents[s.entry.value] != e.blob
  }

  predicate Finished(s: State) { forall w :: w in s.writers ==> s.writers[w].Done? }

  // ---- files: what is linked is complete ----------------------------------------

  /** The inode of the writer's temporary file while it has one. */
  function Temp(pc: Writing): Option<Inode> {
    match pc
    case Filling(t) => Some(t)
    case Link(t, _) => Some(t)
    case LinkJudgeOpen(t, _) => Some(t)
    case LinkJudgeRead(t, _, _) => Some(t)
    case Unlink(t) => Some(t)
    case RenameCheck(t, _) => Some(t)
    case RenameJudgeOpen(t, _) => Some(t)
    case RenameJudgeRead(t, _, _) => Some(t)
    case Rename(t) => Some(t)
    case _ => None
  }

  /** The file a writer has open to judge. */
  function Judged(pc: Writing): Option<Inode> {
    match pc
    case JudgeRead(fd) => Some(fd)
    case LinkJudgeRead(_, _, fd) => Some(fd)
    case RenameJudgeRead(_, _, fd) => Some(fd)
    case _ => None
  }

  function Opened(pc: Reading): Option<Inode> {
    match pc
    case HashPass(fd) => Some(fd)
    case BufferPass(fd) => Some(fd)
    case _ => None
  }

  /** A file anyone may reach by the name: a whole blob, or the file that was there at first. */
  predicate Complete(e: Setting, init: State, s: State, i: Inode) {
    && i in s.contents
    && (s.contents[i] == e.blob || (init.entry == Some(i) && i in init.contents && s.contents[i] == init.contents[i]))
  }

  /** A temporary file is a prefix of the blob, and all of it once it may be linked. */
  predicate TempOk(e: Setting, init: State, s: State, pc: Writing)
    requires Temp(pc).Some?
  {
    var t := Temp(pc).value;
    && t in s.contents && s.contents[t] <= e.blob
    && (!pc.Filling? ==> s.contents[t] == e.blob)
    && init.entry != Some(t)
  }

  predicate WriterFiles(e: Setting, init: State, s: State, pc: Writing) {
    && (Judged(pc).Some? ==> Complete(e, init, s, Judged(pc).value))
    && (Temp(pc).Some? ==> TempOk(e, init, s, pc))
  }

  predicate ReaderFiles(e: Setting, init: State, s: State, pc: Reading) {
    Opened(pc).Some? ==> Complete(e, init, s, Opened(pc).value)
  }

  /** Whatever the name links to, and whatever anyone has open, is a complete file. */
  ghost predicate FilesOk(e: Setting, init: State, s: State) {
    && (init.entry.Some? ==> init.entry.value in s.contents)
    && (s.entry.Some? ==> Complete(e, init, s, s.entry.value))
    && (forall w :: w in s.writers ==> WriterFiles(e, init, s, s.writers[w]))
    && (forall r :: r in s.readers ==> ReaderFiles(e, init, s, s.readers[r]))
  }

  ghost predicate ReadsOk(e: Setting, s: State) {
    forall r :: r in s.readers && s.readers[r].ReadDone? && s.readers[r].result.Found? ==> s.readers[r].result.data == e.blob
  }

  /** Complete files are never changed: only an incomplete temporary file is written to. */
  lemma CompleteStays(e: Setting, init: State, s: State, m: Move, i: Inode)
    requires FilesOk(e, init, s) && Enabled(e, s, m) && Complete(e, init, s, i)
    ensures Complete(e, init, Next(e, s, m), i) && Next(e, s, m).contents[i] == s.contents[i]
  {
    if m.WriterMove? && s.writers[m.actor].Filling? { assert TempOk(e, init, s, s.writers[m.actor]); }
  }

  lemma TempStays(e: Setting, init: State, s: State, m: Move, pc: Writing)
    requires FilesOk(e, init, s) && Enabled(e, s, m) && Temp(pc).Some? && TempOk(e, init, s, pc)
    ensures TempOk(e, init, Next(e, s, m), pc)
  {
  }

  /** A step moves one actor and leaves the others' places alone. */
  lemma StepIsLocal(e: Setting, s: State, m: Move)
    requires Enabled(e, s, m)
    ensures var s' := Next(e, s, m);
      && s'.writers.Keys == s.writers.Keys && s'.readers.Keys == s.readers.Keys
      && (forall w :: w in s.writers && !(m.WriterMove? && m.actor == w) ==> s'.writers[w] == s.writers[w])
      && (forall r :: r in s.readers && !(m.ReaderMove? && m.actor == r) ==> s'.readers[r] == s.readers[r])
  {
  }

  lemma FilesStay(e: Setting, init: State, s: State, m: Move, pc: Writing)
    requires FilesOk(e, init, s) && Enabled(e, s, m) && WriterFiles(e, init, s, pc)
    ensures WriterFiles(e, init, Next(e, s, m), pc)
  {
    if Judged(pc).Some? { CompleteStays(e, init, s, m, Judged(pc).value); }
    if Temp(pc).Some? { TempStays(e, init, s, m, pc); }
  }

  lemma MovedWriterFiles(e: Setting, init: State, s: State, m: Move)
    requires FilesOk(e, init, s) && Enabled(e, s, m) && m.WriterMove?
    ensures WriterFiles(e, init, Next(e, s, m), Next(e, s, m).writers[m.actor])
    ensures Next(e, s, m).entry.Some? ==> Complete(e, init, Next(e, s, m), Next(e, s, m).entry.value)
  {
    var pc := s.writers[m.actor];
    FilesStay(e, init, s, m, pc);
    if s.entry.Some? { CompleteStays(e, init, s, m, s.entry.value); }
    if pc.Filling? && |Content(s, pc.temp)| == |e.blob| { assert s.contents[pc.temp] == e.blob; }
  }

  lemma StepKeepsFiles(e: Setting, init: State, s: State, m: Move)
    requires FilesOk(e, init, s) && Enabled(e, s, m)
    ensures FilesOk(e, init, Next(e, s, m))
  {
    var s' := Next(e, s, m);
    StepIsLocal(e, s, m);
    if m.WriterMove? { MovedWriterFiles(e, init, s, m); }
    forall w | w in s'.writers ensures WriterFiles(e, init, s', s'.writers[w]) {
      if !(m.WriterMove? && m.actor == w) { FilesStay(e, init, s, m, s.writers[w]); }
    }
    forall r | r in s'.readers ensures ReaderFiles(e, init, s', s'.readers[r]) {
      if Opened(s.readers[r]).Some? { CompleteStays(e, init, s, m, Opened(s.readers[r]).value); }
    }
  }

  lemma StepKeepsReads(e: Setting, s: State, m: Move)
    requires Injective(e.sha256) && ReadsOk(e, s) && Enabled(e, s, m)
    ensures ReadsOk(e, Next(e, s, m))
  {
  }

  // ---- with a planted file: someone always owes the name a blob ------------------

  /** The writer has removed the name, or is about to rename over it. */
  predicate Owes(pc: Writing) {
    || (pc.Link? && pc.again)
    || (pc.RenameCheck? && pc.again)
    || pc.Rename?
  }

  predicate SecondTry(pc: Writing) {
    || (pc.Link? && pc.again)
    || (pc.LinkJudgeOpen? && pc.again)
    || (pc.LinkJudgeRead? && pc.again)
    || (pc.RenameCheck? && pc.again)
    || (pc.RenameJudgeOpen? && pc.again)
    || (pc.RenameJudgeRead? && pc.again)
  }

  predicate Ended(pc: Writing) { pc.Cleanup? || pc.Done? }

  /** While the planted file is there, nobody has removed it, seen a blob there, or ended; and
      a second try finds nothing but the blob. */
  predicate PlantedWriter(e: Setting, init: State, s: State, pc: Writing) {
    && (s.entry == init.entry ==> !SecondTry(pc) && !Ended(pc) && (Judged(pc).Some? ==> Judged(pc) == init.entry))
    && (Ended(pc) ==> pc.outcome != Refused)
    && (pc.LinkJudgeRead? && pc.again ==> Content(s, pc.fd) == e.blob)
  }

  ghost predicate SomeoneOwes(s: State) { exists w :: w in s.writers && Owes(s.writers[w]) }

  ghost predicate PlantedOk(e: Setting, init: State, s: State) {
    && init.entry.Some? && Content(s, init.entry.value) == Content(init, init.entry.value)
    && (s.entry.None? ==> SomeoneOwes(s))
    && (forall w :: w in s.writers ==> PlantedWriter(e, init, s, s.writers[w]))
  }

  lemma OwedStays(e: Setting, s: State, m: Move)
    requires Enabled(e, s, m) && SomeoneOwes(s)
    ensures Next(e, s, m).entry.None? ==> SomeoneOwes(Next(e, s, m))
  {
    var w :| w in s.writers && Owes(s.writers[w]);
    var s' := Next(e, s, m);
    if s'.entry.None? {
      if m.WriterMove? && m.actor == w {
        assert Owes(s'.writers[w]);
      } else {
        assert s'.writers[w] == s.writers[w];
      }
    }
  }

  /** The planted file never comes back. */
  lemma PlantedFileGoes(e: Setting, init: State, s: State, m: Move)
    requires FilesOk(e, init, s) && init.entry.Some? && Enabled(e, s, m) && s.entry != init.entry
    ensures Next(e, s, m).entry != init.entry
  {
    if m.WriterMove? { assert WriterFiles(e, init, s, s.writers[m.actor]); }
  }

  lemma MovedWriterPlanted(e: Setting, init: State, s: State, m: Move)
    requires Injective(e.sha256) && Foreign(e, init) && FilesOk(e, init, s) && PlantedOk(e, init, s)
    requires Enabled(e, s, m) && m.WriterMove?
    ensures PlantedWriter(e, init, Next(e, s, m), Next(e, s, m).writers[m.actor])
  {
    var pc := s.writers[m.actor];
    assert PlantedWriter(e, init, s, pc) && WriterFiles(e, init, s, pc);
    if s.entry != init.entry { PlantedFileGoes(e, init, s, m); }
  }

  lemma StepKeepsPlanted(e: Setting, init: State, s: State, m: Move)
    requires Injective(e.sha256) && Foreign(e, init) && FilesOk(e, init, s) && PlantedOk(e, init, s) && Enabled(e, s, m)
    ensures PlantedOk(e, init, Next(e, s, m))
  {
    var s' := Next(e, s, m);
    StepIsLocal(e, s, m);
    CompleteStays(e, init, s, m, init.entry.value);
    if s.entry.None? { OwedStays(e, s, m); }
    if s.entry.Some? && s'.entry.None? { assert Owes(s'.writers[m.actor]); }
    if s.entry != init.entry { PlantedFileGoes(e, init, s, m); }
    if m.WriterMove? { MovedWriterPlanted(e, init, s, m); }
    forall w | w in s'.writers ensures PlantedWriter(e, init, s', s'.writers[w]) {
      if !(m.WriterMove? && m.actor == w) && Judged(s.writers[w]).Some? {
        CompleteStays(e, init, s, m, Judged(s.writers[w]).value);
      }
    }
  }

  // ---- with no planted file: the name, once it holds the blob, holds it ----------

  /** The writer found the name taken, or has ended. */
  predicate Seen(pc: Writing) {
    pc.JudgeOpen? || pc.JudgeRead? || pc.LinkJudgeOpen? || pc.LinkJudgeRead? || pc.RenameJudgeOpen? || pc.RenameJudgeRead? || Ended(pc)
  }

  predicate CleanWriter(e: Setting, s: State, pc: Writing) {
    && !SecondTry(pc) && !pc.Unlink?
    && (Seen(pc) ==> s.entry.Some?)
    && (Judged(pc).Some? ==> Content(s, Judged(pc).value) == e.blob)
    && (Ended(pc) ==> pc.outcome == Returned)
  }

  predicate CleanReader(e: Setting, s: State, pc: Reading) {
    && (Opened(pc).Some? ==> Content(s, Opened(pc).value) == e.blob)
    && pc != ReadDone(BadHash)
  }

  ghost predicate CleanOk(e: Setting, s: State) {
    && (s.entry.Some? ==> HoldsBlob(e, s))
    && (forall w :: w in s.writers ==> CleanWriter(e, s, s.writers[w]))
    && (forall r :: r in s.readers ==> CleanReader(e, s, s.readers[r]))
  }

  lemma MovedWriterClean(e: Setting, init: State, s: State, m: Move)
    requires Injective(e.sha256) && FilesOk(e, init, s) && CleanOk(e, s) && Enabled(e, s, m) && m.WriterMove?
    ensures CleanWriter(e, Next(e, s, m), Next(e, s, m).writers[m.actor])
    ensures Next(e, s, m).entry.Some? ==> HoldsBlob(e, Next(e, s, m))
    ensures s.entry.Some? ==> Next(e, s, m).entry.Some?
  {
    var pc := s.writers[m.actor];
    assert CleanWriter(e, s, pc) && WriterFiles(e, init, s, pc);
    if s.entry.Some? { CompleteStays(e, init, s, m, s.entry.value); }
  }

  /** Nothing removes the name, and it never links to anything but the blob. */
  lemma StepKeepsClean(e: Setting, init: State, s: State, m: Move)
    requires Injective(e.sha256) && FilesOk(e, init, s) && CleanOk(e, s) && Enabled(e, s, m)
    ensures CleanOk(e, Next(e, s, m)) && (s.entry.Some? ==> Next(e, s, m).entry.Some?)
  {
    var s' := Next(e, s, m);
    StepIsLocal(e, s, m);
    if m.WriterMove? { MovedWriterClean(e, init, s, m); }
    forall w | w in s'.writers ensures CleanWriter(e, s', s'.writers[w]) {
      if !(m.WriterMove? && m.actor == w) && Judged(s.writers[w]).Some? {
        CompleteStays(e, init, s, m, Judged(s.writers[w]).value);
      }
    }
    forall r | r in s'.readers ensures CleanReader(e, s', s'.readers[r]) {
      if Opened(s.readers[r]).Some? { CompleteStays(e, init, s, m, Opened(s.readers[r]).value); }
    }
  }
}
