/** What holds over every interleaving of the blob writers and readers. */
module BlobRuns {
  import opened Options
  import opened BlobProtocol

  lemma InitialInvariants(e: Setting, init: State)
    requires Initial(init)
    ensures FilesOk(e, init, init) && ReadsOk(e, init)
    ensures Foreign(e, init) ==> PlantedOk(e, init, init)
    ensures !Foreign(e, init) ==> CleanOk(e, init)
  {
  }

  lemma {:induction false} RunKeeps(e: Setting, init: State, s: State, moves: seq<Move>)
    requires Injective(e.sha256) && Legal(e, s, moves) && FilesOk(e, init, s) && ReadsOk(e, s)
    ensures FilesOk(e, init, Exec(e, s, moves)) && ReadsOk(e, Exec(e, s, moves))
    ensures Foreign(e, init) && PlantedOk(e, init, s) ==> PlantedOk(e, init, Exec(e, s, moves))
    ensures CleanOk(e, s) ==> CleanOk(e, Exec(e, s, moves)) && (s.entry.Some? ==> Exec(e, s, moves).entry.Some?)
    ensures Exec(e, s, moves).writers.Keys == s.writers.Keys
    decreases |moves|
  {
    if moves != [] {
      var m := moves[0];
      StepIsLocal(e, s, m);
      StepKeepsFiles(e, init, s, m);
      StepKeepsReads(e, s, m);
      if Foreign(e, init) && PlantedOk(e, init, s) { StepKeepsPlanted(e, init, s, m); }
      if CleanOk(e, s) { StepKeepsClean(e, init, s, m); }
      RunKeeps(e, init, Next(e, s, m), moves[1..]);
    }
  }

  /** In every reachable state the blob's name is absent, the file that was there at first with its
      first bytes, or a whole blob: never a partial write. A read that returns bytes returns the
      blob's. No writer is ever refused a name that regular files alone contend for. */
  lemma NameIsNeverPartial(e: Setting, init: State, moves: seq<Move>)
    requires Injective(e.sha256) && Initial(init) && Legal(e, init, moves)
    ensures var s := Exec(e, init, moves);
      && (s.entry.None? || HoldsBlob(e, s) || (s.entry == init.entry && Content(s, s.entry.value) == Content(init, s.entry.value)))
      && (forall r :: r in s.readers && s.readers[r].ReadDone? && s.readers[r].result.Found? ==> s.readers[r].result.data == e.blob)
      && (forall w :: w in s.writers ==> s.writers[w] != Done(Refused))
  {
    InitialInvariants(e, init);
    RunKeeps(e, init, init, moves);
    var s := Exec(e, init, moves);
    forall w | w in s.writers ensures s.writers[w] != Done(Refused) {
      assert PlantedOk(e, init, s) ==> PlantedWriter(e, init, s, s.writers[w]);
      assert CleanOk(e, s) ==> CleanWriter(e, s, s.writers[w]);
    }
  }

  /** A writer returns only with the blob: its call left the name holding it, or it had just read it
      whole from the file it judged; and a writer that has judged a file to hold the blob returns,
      and leaves the name alone. */
  lemma ReturnsOnlyWithTheBlob(e: Setting, init: State, moves: seq<Move>, m: Move)
    requires Injective(e.sha256) && Initial(init) && Legal(e, init, moves)
    requires m.WriterMove? && Enabled(e, Exec(e, init, moves), m) && !Ended(Exec(e, init, moves).writers[m.actor])
    ensures var s := Exec(e, init, moves); var s' := Next(e, s, m); var pc, pc' := s.writers[m.actor], s'.writers[m.actor];
      && (pc' == Cleanup(Returned) || pc' == Done(Returned) ==>
            HoldsBlob(e, s') || (Judged(pc).Some? && Content(s, Judged(pc).value) == e.blob))
      && (Judged(pc).Some? && Content(s, Judged(pc).value) == e.blob ==>
            (pc' == Cleanup(Returned) || pc' == Done(Returned)) && s'.entry == s.entry)
  {
    InitialInvariants(e, init);
    RunKeeps(e, init, init, moves);
    var s := Exec(e, init, moves);
    assert WriterFiles(e, init, s, s.writers[m.actor]);
  }

  /** Quiescence: from any initial regular file at the name, however the writers interleave, once
      every one of them has ended, by returning or by raising, the name holds exactly the blob. */
  lemma QuiescentNameHoldsBlob(e: Setting, init: State, moves: seq<Move>)
    requires Injective(e.sha256) && Initial(init) && Legal(e, init, moves)
    requires init.writers != map[] && Finished(Exec(e, init, moves))
    ensures HoldsBlob(e, Exec(e, init, moves))
  {
    InitialInvariants(e, init);
    RunKeeps(e, init, init, moves);
    var s := Exec(e, init, moves);
    var w :| w in init.writers;
    assert w in s.writers.Keys && s.writers[w].Done?;
    if Foreign(e, init) {
      assert PlantedWriter(e, init, s, s.writers[w]);
    } else {
      assert CleanWriter(e, s, s.writers[w]);
    }
  }

  /** With no planted file: every writer that ends returns, the name once it holds the blob holds
      it for good, whoever has returned left it holding the blob, and no read is refused. */
  lemma BlobOncePresentStays(e: Setting, init: State, before: seq<Move>, after: seq<Move>)
    requires Injective(e.sha256) && Initial(init) && !Foreign(e, init)
    requires Legal(e, init, before) && Legal(e, Exec(e, init, before), after)
    ensures var mid := Exec(e, init, before);
      var s := Exec(e, mid, after);
      && (HoldsBlob(e, mid) ==> HoldsBlob(e, s))
      && (forall w :: w in s.writers && s.writers[w].Done? ==> s.writers[w].outcome == Returned && HoldsBlob(e, s))
      && (forall r :: r in s.readers && s.readers[r].ReadDone? ==> s.readers[r].result == Found(e.blob) || s.readers[r].result == Missing)
  {
    InitialInvariants(e, init);
    RunKeeps(e, init, init, before);
    var mid := Exec(e, init, before);
    RunKeeps(e, init, mid, after);
    var s := Exec(e, mid, after);
    forall w | w in s.writers ensures CleanWriter(e, s, s.writers[w]) {}
    forall r | r in s.readers ensures CleanReader(e, s, s.readers[r]) {}
  }

  /** A reader's place while the name holds the blob for good. */
  predicate WillFind(e: Setting, s: State, r: Actor) {
    && r in s.readers && CleanReader(e, s, s.readers[r])
    && s.readers[r] != ReadDone(Missing)
  }

  /** With no planted file, a read that starts after the name held the blob finds it. */
  lemma {:induction false} LaterReadFinds(e: Setting, init: State, s: State, moves: seq<Move>, r: Actor)
    requires Injective(e.sha256) && Legal(e, s, moves) && FilesOk(e, init, s) && ReadsOk(e, s) && CleanOk(e, s)
    requires HoldsBlob(e, s) && WillFind(e, s, r)
    ensures WillFind(e, Exec(e, s, moves), r)
    ensures Exec(e, s, moves).readers[r].ReadDone? ==> Exec(e, s, moves).readers[r].result == Found(e.blob)
    decreases |moves|
  {
    if moves != [] {
      var m := moves[0];
      StepIsLocal(e, s, m);
      StepKeepsFiles(e, init, s, m);
      StepKeepsReads(e, s, m);
      StepKeepsClean(e, init, s, m);
      assert CleanReader(e, Next(e, s, m), Next(e, s, m).readers[r]);
      LaterReadFinds(e, init, Next(e, s, m), moves[1..], r);
    }
  }

  /** With no planted file, a read that starts once some writer has returned finds the blob. */
  lemma ReadAfterReturnFinds(e: Setting, init: State, before: seq<Move>, after: seq<Move>, w: Actor, r: Actor)
    requires Injective(e.sha256) && Initial(init) && !Foreign(e, init)
    requires Legal(e, init, before) && Legal(e, Exec(e, init, before), after)
    requires var mid := Exec(e, init, before);
      w in mid.writers && mid.writers[w] == Done(Returned) && r in mid.readers && mid.readers[r] == ReadStart
    ensures var s := Exec(e, Exec(e, init, before), after);
      r in s.readers && (s.readers[r].ReadDone? ==> s.readers[r].result == Found(e.blob))
  {
    InitialInvariants(e, init);
    RunKeeps(e, init, init, before);
    var mid := Exec(e, init, before);
    assert CleanWriter(e, mid, mid.writers[w]);
    LaterReadFinds(e, init, mid, after, r);
  }

  // ---- each writer removes the name at most once, and ends ----------------------

  /** How often `w` unlinks the blob's name in the run. */
  function Removals(e: Setting, s: State, moves: seq<Move>, w: Actor): nat
    requires Legal(e, s, moves)
    decreases |moves|
  {
    if moves == [] then 0
    else
      var m := moves[0];
      (if m.WriterMove? && m.actor == w && s.writers[w].Unlink? && s.entry.Some? then 1 else 0)
      + Removals(e, Next(e, s, m), moves[1..], w)
  }

  /** The unlinks a writer at `pc` may still make. */
  function RemovalsLeft(pc: Writing): nat {
    match pc
    case Start => 1
    case JudgeOpen => 1
    case JudgeRead(_) => 1
    case MakeTemp => 1
    case Filling(_) => 1
    case Link(_, again) => if again then 0 else 1
    case LinkJudgeOpen(_, again) => if again then 0 else 1
    case LinkJudgeRead(_, again, _) => if again then 0 else 1
    case Unlink(_) => 1
    case _ => 0
  }

  lemma {:induction false} RemovalsRunOut(e: Setting, s: State, moves: seq<Move>, w: Actor)
    requires Legal(e, s, moves) && w in s.writers
    ensures Removals(e, s, moves, w) <= RemovalsLeft(s.writers[w])
    decreases |moves|
  {
    if moves != [] {
      var m := moves[0];
      StepIsLocal(e, s, m);
      RemovalsRunOut(e, Next(e, s, m), moves[1..], w);
    }
  }

  /** No writer removes the blob's name twice. */
  lemma RemovesAtMostOnce(e: Setting, init: State, moves: seq<Move>, w: Actor)
    requires Initial(init) && Legal(e, init, moves) && w in init.writers
    ensures Removals(e, init, moves, w) <= 1
  {
    RemovalsRunOut(e, init, moves, w);
  }

  /** The calls a writer at `pc` may still make, one for each byte not yet written included. */
  function CallsLeft(e: Setting, s: State, pc: Writing): nat {
    match pc
    case Start => 15 + |e.blob|
    case JudgeOpen => 14 + |e.blob|
    case JudgeRead(_) => 13 + |e.blob|
    case MakeTemp => 12 + |e.blob|
    case Filling(t) => 11 + if |Content(s, t)| >= |e.blob| then 0 else |e.blob| - |Content(s, t)|
    case Link(_, again) => if again then 6 else 10
    case LinkJudgeOpen(_, again) => if again then 3 else 9
    case LinkJudgeRead(_, again, _) => if again then 2 else 8
    case Unlink(_) => 7
    case RenameCheck(_, _) => 5
    case RenameJudgeOpen(_, _) => 4
    case RenameJudgeRead(_, _, _) => 3
    case Rename(_) => 2
    case Cleanup(_) => 1
    case Done(_) => 0
  }

  function MovesOf(moves: seq<Move>, w: Actor): nat {
    if moves == [] then 0
    else (if moves[0].WriterMove? && moves[0].actor == w then 1 else 0) + MovesOf(moves[1..], w)
  }

  lemma OthersDoNotDelay(e: Setting, s: State, m: Move, pc: Writing)
    requires Enabled(e, s, m)
    ensures CallsLeft(e, Next(e, s, m), pc) <= CallsLeft(e, s, pc)
  {
  }

  lemma MoverAdvances(e: Setting, s: State, m: Move)
    requires Enabled(e, s, m) && m.WriterMove?
    ensures CallsLeft(e, Next(e, s, m), Next(e, s, m).writers[m.actor]) < CallsLeft(e, s, s.writers[m.actor])
  {
    var pc := s.writers[m.actor];
    if pc.Filling? && |Content(s, pc.temp)| < |e.blob| {
      assert Next(e, s, m).contents[pc.temp] == e.blob[..m.upTo];
    }
  }

  /** Whatever the others do, a writer ends within a fixed number of calls of its own. */
  lemma {:induction false} WriterEnds(e: Setting, s: State, moves: seq<Move>, w: Actor)
    requires Legal(e, s, moves) && w in s.writers
    ensures MovesOf(moves, w) <= CallsLeft(e, s, s.writers[w])
    decreases |moves|
  {
    if moves != [] {
      var m := moves[0];
      StepIsLocal(e, s, m);
      WriterEnds(e, Next(e, s, m), moves[1..], w);
      if m.WriterMove? && m.actor == w { MoverAdvances(e, s, m); } else { OthersDoNotDelay(e, s, m, s.writers[w]); }
    }
  }

  lemma FreshInode(contents: map<Inode, Bytes>) returns (x: Inode)
    ensures x !in contents
  {
    x := Ceiling(contents.Keys);
  }

  lemma {:induction false} Ceiling(used: set<Inode>) returns (x: Inode)
    ensures forall i :: i in used ==> i < x
    decreases used
  {
    x := 0;
    if used != {} {
      var i :| i in used;
      x := Ceiling(used - {i});
      if x <= i { x := i + 1; }
      assert forall j :: j in used ==> j == i || j in used - {i};
    }
  }

  /** In every reachable state a writer that has not ended has a call it can make, whatever the
      others hold; with the bound above, every writer that keeps running ends. */
  lemma UnfinishedWriterCanMove(e: Setting, init: State, moves: seq<Move>, w: Actor) returns (m: Move)
    requires Injective(e.sha256) && Initial(init) && Legal(e, init, moves)
    requires var s := Exec(e, init, moves); w in s.writers && !s.writers[w].Done?
    ensures m.WriterMove? && m.actor == w && Enabled(e, Exec(e, init, moves), m)
    ensures CallsLeft(e, Next(e, Exec(e, init, moves), m), Next(e, Exec(e, init, moves), m).writers[w])
            < CallsLeft(e, Exec(e, init, moves), Exec(e, init, moves).writers[w])
  {
    InitialInvariants(e, init);
    RunKeeps(e, init, init, moves);
    var s := Exec(e, init, moves);
    var x := FreshInode(s.contents);
    m := WriterMove(w, x, |e.blob|, true);
    assert WriterFiles(e, init, s, s.writers[w]);
    MoverAdvances(e, s, m);
  }

  // ---- when a returned write stays readable -------------------------------------

  ghost predicate Reaches(e: Setting, init: State, s: State) {
    exists moves :: Legal(e, init, moves) && Exec(e, init, moves) == s
  }

  lemma {:induction false} ExecAppend(e: Setting, s: State, moves: seq<Move>, m: Move)
    requires Legal(e, s, moves) && Enabled(e, Exec(e, s, moves), m)
    ensures Legal(e, s, moves + [m]) && Exec(e, s, moves + [m]) == Next(e, Exec(e, s, moves), m)
    decreases |moves|
  {
    if moves == [] {
      assert (moves + [m])[1..] == [];
    } else {
      assert (moves + [m])[1..] == moves[1..] + [m];
      ExecAppend(e, Next(e, s, moves[0]), moves[1..], m);
    }
  }

  lemma ReachesNext(e: Setting, init: State, s: State, m: Move)
    requires Reaches(e, init, s) && Enabled(e, s, m)
    ensures Reaches(e, init, Next(e, s, m))
  {
    var moves :| Legal(e, init, moves) && Exec(e, init, moves) == s;
    ExecAppend(e, init, moves, m);
  }

  /** The property survives every step. */
  ghost predicate Closed(e: Setting, p: State -> bool) {
    forall s, m :: p(s) && Enabled(e, s, m) ==> p(Next(e, s, m))
  }

  /** One call of writer `w`. */
  lemma Call(e: Setting, p: State -> bool, s: State, w: Actor, x: Inode) returns (s': State)
    requires Closed(e, p) && p(s) && w in s.writers && !s.writers[w].Done?
    requires s.writers[w].MakeTemp? ==> x !in s.contents
    requires s.writers[w].Filling? ==> s.writers[w].temp in s.contents && |s.contents[s.writers[w].temp]| <= |e.blob|
    ensures p(s')
    ensures var m := WriterMove(w, x, |e.blob|, true);
      s' == State(NextContents(e, s, s.writers[w], m), NextEntry(e, s, s.writers[w]),
                  s.writers[w := NextPc(e, s, s.writers[w], m)], s.readers)
  {
    var m := WriterMove(w, x, |e.blob|, true);
    assert Enabled(e, s, m);
    s' := Next(e, s, m);
  }

  /** A writer alone judges the planted file and makes a complete temporary file. */
  lemma CallsToLink(e: Setting, p: State -> bool, s0: State, w: Actor, x: Inode) returns (s: State)
    requires Injective(e.sha256) && Closed(e, p) && p(s0) && Foreign(e, s0)
    requires w in s0.writers && s0.writers[w] == Start && x !in s0.contents
    ensures p(s)
    ensures s == s0.(writers := s0.writers[w := Link(x, false)], contents := s0.contents[x := e.blob])
  {
    s := Call(e, p, s0, w, x);
    s := Call(e, p, s, w, x);
    s := Call(e, p, s, w, x);
    assert s == s0.(writers := s0.writers[w := MakeTemp]);
    s := Call(e, p, s, w, x);
    if e.blob != [] {
      s := Call(e, p, s, w, x);
    }
    assert s == s0.(writers := s0.writers[w := Filling(x)], contents := s0.contents[x := e.blob]) by {
      assert e.blob[..|e.blob|] == e.blob;
    }
    s := Call(e, p, s, w, x);
  }

  /** It finds the name taken, judges the file again, and is about to remove it. */
  lemma CallsToUnlink(e: Setting, p: State -> bool, s0: State, w: Actor, x: Inode) returns (s: State)
    requires Injective(e.sha256) && Closed(e, p) && p(s0) && Foreign(e, s0)
    requires w in s0.writers && s0.writers[w] == Start && x !in s0.contents
    ensures p(s)
    ensures s == s0.(writers := s0.writers[w := Unlink(x)], contents := s0.contents[x := e.blob])
  {
    s := CallsToLink(e, p, s0, w, x);
    s := Call(e, p, s, w, x);
    s := Call(e, p, s, w, x);
    s := Call(e, p, s, w, x);
  }

  /** It removes the name, installs its own file, and returns. */
  lemma CallsToReturn(e: Setting, p: State -> bool, s0: State, w: Actor, x: Inode) returns (s: State)
    requires Closed(e, p) && p(s0) && w in s0.writers && s0.writers[w] == Unlink(x) && s0.entry.Some?
    ensures p(s)
    ensures s == s0.(writers := s0.writers[w := Done(Returned)], entry := Some(x))
  {
    s := Call(e, p, s0, w, x);
    s := Call(e, p, s, w, x);
    if !e.hardLinks {
      s := Call(e, p, s, w, x);
      s := Call(e, p, s, w, x);
    }
    s := Call(e, p, s, w, x);
  }

  /** With a planted file, a second writer that judged it too removes the first one's blob. */
  lemma ReturnedBlobCanVanish(e: Setting, init: State, a: Actor, b: Actor) returns (s: State)
    requires Injective(e.sha256) && Initial(init) && Foreign(e, init)
    requires a in init.writers && b in init.writers && a != b
    ensures Reaches(e, init, s) && a in s.writers && s.writers[a] == Done(Returned) && s.entry.None?
  {
    assert Legal(e, init, []) && Exec(e, init, []) == init;
    var p := (s: State) => Reaches(e, init, s);
    forall s, m | p(s) && Enabled(e, s, m) ensures p(Next(e, s, m)) { ReachesNext(e, init, s, m); }
    s := VanishingCalls(e, p, init, a, b);
  }

  lemma VanishingCalls(e: Setting, p: State -> bool, init: State, a: Actor, b: Actor) returns (s: State)
    requires Injective(e.sha256) && Closed(e, p) && p(init) && Initial(init) && Foreign(e, init)
    requires a in init.writers && b in init.writers && a != b
    ensures p(s) && a in s.writers && s.writers[a] == Done(Returned) && s.entry.None?
  {
    var x, y := init.entry.value + 1, init.entry.value + 2;
    s := CallsToUnlink(e, p, init, a, x);
    s := CallsToUnlink(e, p, s, b, y);
    s := CallsToReturn(e, p, s, a, x);
    s := Call(e, p, s, b, y);
  }

  /** Whenever some writer has returned, the name holds the blob. */
  ghost predicate ReturnedStaysReadable(e: Setting, init: State) {
    forall s :: Reaches(e, init, s) && (exists w :: w in s.writers && s.writers[w] == Done(Returned)) ==> HoldsBlob(e, s)
  }

  /** "A write that returns leaves its blob readable whatever another writer did meanwhile" holds
      exactly when no other file was planted at the name; with one, only quiescence is left. */
  lemma ReturnedStaysReadableExactly(e: Setting, init: State, a: Actor, b: Actor)
    requires Injective(e.sha256) && Initial(init)
    requires a in init.writers && b in init.writers && a != b
    ensures ReturnedStaysReadable(e, init) <==> !Foreign(e, init)
  {
    if Foreign(e, init) {
      var s := ReturnedBlobCanVanish(e, init, a, b);
      assert !HoldsBlob(e, s);
    } else {
      CleanStaysReadable(e, init);
    }
  }

  lemma CleanStaysReadable(e: Setting, init: State)
    requires Injective(e.sha256) && Initial(init) && !Foreign(e, init)
    ensures ReturnedStaysReadable(e, init)
  {
    forall s | Reaches(e, init, s) && exists w :: w in s.writers && s.writers[w] == Done(Returned)
      ensures HoldsBlob(e, s)
    {
      var moves :| Legal(e, init, moves) && Exec(e, init, moves) == s;
      InitialInvariants(e, init);
      RunKeeps(e, init, init, moves);
      var w :| w in s.writers && s.writers[w] == Done(Returned);
      assert CleanWriter(e, s, s.writers[w]);
    }
  }
}
