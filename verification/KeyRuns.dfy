/** particles/api/_keys.py: what holds over every run of mint, revoke and reader processes. */
module KeyRuns {
  import opened Options
  import opened KeyFormat
  import opened KeyRules
  import opened KeyHistory
  import opened KeyFile

  ghost predicate Shaped(w: World, s: State) { s.files != [] && |s.procs| == |w.ops| }

  /** Any interleaving of the processes' and readers' steps. */
  ghost predicate IsRun(w: World, run: seq<State>, labels: seq<Label>) {
    && |run| == |labels| + 1
    && Init(w, run[0])
    && forall i: nat :: i < |labels| ==> StepAt(w, run, labels, i)
  }

  ghost predicate StepAt(w: World, run: seq<State>, labels: seq<Label>, i: nat)
    requires |run| == |labels| + 1 && i < |labels|
  {
    Shaped(w, run[i]) && Step(w, run[i], run[i + 1], labels[i])
  }

  lemma {:induction false} RunKeepsInv(w: World, run: seq<State>, labels: seq<Label>, i: nat)
    requires IsRun(w, run, labels) && i < |run|
    ensures Inv(w, run[i])
  {
    if i == 0 {
      InitKeepsInv(w, run[0]);
    } else {
      RunKeepsInv(w, run, labels, i - 1);
      assert StepAt(w, run, labels, i - 1);
      StepKeepsInv(w, run[i - 1], run[i], labels[i - 1]);
    }
  }

  /** What was renamed into place stays in the history. */
  ghost predicate Grows(s: State, t: State) {
    && s.log <= t.log && s.owners <= t.owners && s.files <= t.files
    && |s.procs| == |t.procs| && |s.readers| == |t.readers|
  }

  lemma StepGrows(w: World, s: State, t: State, l: Label)
    requires Shaped(w, s) && Step(w, s, t, l)
    ensures Grows(s, t)
  {}

  lemma {:induction false} RunGrows(w: World, run: seq<State>, labels: seq<Label>, i: nat, j: nat)
    requires IsRun(w, run, labels) && i <= j < |run|
    ensures Grows(run[i], run[j])
    decreases j - i
  {
    if i < j {
      RunGrows(w, run, labels, i, j - 1);
      assert StepAt(w, run, labels, j - 1);
      StepGrows(w, run[j - 1], run[j], labels[j - 1]);
    }
  }

  // ---- the key file is linearizable --------------------------------------------------

  /** In every reachable state the file reads as a sequential history's map, in which every
      process past its rename has exactly one change, the one its result reports, and no other
      process has any; and no command ever finds the file unusable. */
  lemma FileIsLinearizable(w: World, run: seq<State>, labels: seq<Label>, i: nat)
    requires IsRun(w, run, labels) && i < |run|
    ensures var s := run[i];
      && ValidLog(w.keys, s.log) && s.files != [] && Read(File(s), w.c.names) == Some(After(w.keys, s.log))
      && |s.procs| == |w.ops| && |s.owners| == |s.log|
      && (forall a, b :: 0 <= a < b < |s.owners| ==> s.owners[a] != s.owners[b])
      && (forall p: nat :: p < |s.procs| ==> (p in s.owners <==> Committed(s.procs[p])))
      && (forall a :: 0 <= a < |s.log| ==>
            s.owners[a] < |s.procs| && Committed(s.procs[s.owners[a]])
            && Reports(w.c, w.ops[s.owners[a]], s.procs[s.owners[a]].result, s.log[a]))
      && (forall p: nat :: p < |s.procs| ==> s.procs[p] != Leaving(Unusable) && s.procs[p] != Done(Unusable))
  {
    RunKeepsInv(w, run, labels, i);
    FileReads(w, run[i]);
    forall p: nat | p < |run[i].procs| ensures run[i].procs[p] != Leaving(Unusable) && run[i].procs[p] != Done(Unusable) {
      assert PcOk(w.c, w.ops[p], Current(w, run[i]), run[i].procs[p]);
    }
  }

  lemma EarlierOwner(s: State, t: State, b: nat)
    requires Grows(s, t) && b < |t.owners|
    ensures b < |s.owners| ==> t.owners[b] in s.owners
  {}

  /** The history respects real time: a change made by one moment precedes a change whose
      process had not made it by then. */
  lemma HistoryRespectsRealTime(w: World, run: seq<State>, labels: seq<Label>, i: nat, j: nat, a: nat, b: nat)
    requires IsRun(w, run, labels) && i <= j < |run|
    requires a < |run[j].owners| && b < |run[j].owners|
    requires run[j].owners[a] < |run[i].procs| && run[j].owners[b] < |run[i].procs|
    requires Committed(run[i].procs[run[j].owners[a]]) && !Committed(run[i].procs[run[j].owners[b]])
    ensures a < b
  {
    RunKeepsInv(w, run, labels, i);
    RunKeepsInv(w, run, labels, j);
    RunGrows(w, run, labels, i, j);
    var p := run[j].owners[a];
    assert p in run[i].owners;
    var k :| 0 <= k < |run[i].owners| && run[i].owners[k] == p;
    assert run[j].owners[k] == p;
    assert k == a;
    EarlierOwner(run[i], run[j], b);
  }

  /** Version `v` of the history explains the result: it is what the command, run alone on the
      records of that version, answers; and a change it reports is the one made there. */
  ghost predicate ExplainedAt(w: World, log: seq<Change>, op: Op, r: Result, v: nat)
    requires ValidLog(w.keys, log) && v <= |log|
  {
    var keys := VersionAt(w.keys, log, v);
    match r
    case RuleRefused(refusal) => op.MintOp? && Prepare(w.c, op.request) == Refused(refusal)
    case TimedOut => true
    case Unusable => false
    case Made(id, secret, now) =>
      && op.MintOp? && Prepare(w.c, op.request).Draft? && id !in keys
      && v < |log| && log[v] == Added(Minted(w.c, op.request, id, secret, now))
    case Missing => op.RevokeOp? && op.id !in keys
    case Already(record) => op.RevokeOp? && op.id in keys && !keys[op.id].Live() && record == keys[op.id]
    case Revoked(record) =>
      && op.RevokeOp? && op.id in keys && keys[op.id].Live() && v < |log|
      && log[v].Stamped? && log[v].id == op.id && record == keys[op.id].(revokedAt := Str(log[v].time))
  }

  /** A process with a result has it from some version no older than `from`. */
  ghost predicate Explained(w: World, s: State, p: nat, from: nat)
    requires ValidLog(w.keys, s.log) && |s.procs| == |w.ops| && p < |s.procs|
  {
    (s.procs[p].Leaving? || s.procs[p].Done?) ==>
      exists v: nat :: from <= v <= |s.log| && ExplainedAt(w, s.log, w.ops[p], s.procs[p].result, v)
  }

  lemma ExplainedInLonger(w: World, log: seq<Change>, longer: seq<Change>, op: Op, r: Result, v: nat)
    requires ValidLog(w.keys, longer) && log <= longer && ValidLog(w.keys, log) && v <= |log| && ExplainedAt(w, log, op, r, v)
    ensures ExplainedAt(w, longer, op, r, v)
  {
    assert longer[..v] == log[..v];
  }

  /** The process's own step to a result: a rename, a plan that writes nothing, or giving up. */
  lemma OwnStepIsExplained(w: World, s: State, t: State, p: nat, a: Action, from: nat)
    requires Inv(w, s) && ProcStep(w, s, t, p, a) && ValidLog(w.keys, t.log) && from <= |s.log|
    requires !s.procs[p].Leaving? && (t.procs[p].Leaving? || t.procs[p].Done?)
    ensures ExplainedAt(w, t.log, w.ops[p], t.procs[p].result, |s.log|)
  {
    assert PcOk(w.c, w.ops[p], Current(w, s), s.procs[p]);
    WholeVersion(w.keys, s.log, |s.log|);
    assert t.log[..|s.log|] == s.log;
    FileReads(w, s);
  }

  lemma StepIsExplained(w: World, s: State, t: State, l: Label, p: nat, from: nat)
    requires Inv(w, s) && Step(w, s, t, l) && Inv(w, t) && p < |s.procs| && from <= |s.log| && Explained(w, s, p, from)
    ensures Explained(w, t, p, from)
  {
    StepGrows(w, s, t, l);
    if t.procs[p].Leaving? || t.procs[p].Done? {
      if s.procs[p].Leaving? || s.procs[p].Done? {
        var v: nat :| from <= v <= |s.log| && ExplainedAt(w, s.log, w.ops[p], s.procs[p].result, v);
        ExplainedInLonger(w, s.log, t.log, w.ops[p], s.procs[p].result, v);
        SameResult(w, s, t, l, p);
      } else {
        OwnStepIsExplained(w, s, t, p, l.a, from);
      }
    }
  }

  lemma SameResult(w: World, s: State, t: State, l: Label, p: nat)
    requires Shaped(w, s) && Step(w, s, t, l) && p < |s.procs| && (s.procs[p].Leaving? || s.procs[p].Done?)
    ensures (t.procs[p].Leaving? || t.procs[p].Done?) && t.procs[p].result == s.procs[p].result
  {}

  /** Linearizability of every command, the ones that change nothing included: its result is the
      sequential answer at some version between its start and its end. */
  lemma {:induction false} EveryResultIsSequential(w: World, run: seq<State>, labels: seq<Label>, i: nat, j: nat, p: nat)
    requires IsRun(w, run, labels) && i <= j < |run| && p < |run[i].procs| && run[i].procs[p] == Start
    ensures ValidLog(w.keys, run[j].log) && |run[j].procs| == |w.ops| && p < |run[j].procs|
    ensures Explained(w, run[j], p, |run[i].log|)
    decreases j - i
  {
    RunShape(w, run, labels, j);
    if i < j {
      EveryResultIsSequential(w, run, labels, i, j - 1, p);
      RunGrows(w, run, labels, i, j - 1);
      NextIsExplained(w, run, labels, j - 1, p, |run[i].log|);
    }
  }

  lemma RunShape(w: World, run: seq<State>, labels: seq<Label>, i: nat)
    requires IsRun(w, run, labels) && i < |run|
    ensures ValidLog(w.keys, run[i].log) && |run[i].procs| == |w.ops|
  {
    RunKeepsInv(w, run, labels, i);
  }

  lemma NextIsExplained(w: World, run: seq<State>, labels: seq<Label>, i: nat, p: nat, from: nat)
    requires IsRun(w, run, labels) && i < |labels|
    requires ValidLog(w.keys, run[i].log) && |run[i].procs| == |w.ops| && p < |run[i].procs| && from <= |run[i].log|
    requires Explained(w, run[i], p, from)
    requires ValidLog(w.keys, run[i + 1].log) && |run[i + 1].procs| == |w.ops|
    ensures Explained(w, run[i + 1], p, from)
  {
    RunKeepsInv(w, run, labels, i);
    RunKeepsInv(w, run, labels, i + 1);
    assert StepAt(w, run, labels, i);
    StepIsExplained(w, run[i], run[i + 1], labels[i], p, from);
  }

  /** So a revocation begun once a key's mint had returned never answers that there is no such key. */
  lemma RevokeAfterMintFindsTheKey(w: World, run: seq<State>, labels: seq<Label>, i: nat, j: nat, p: nat, q: nat)
    requires IsRun(w, run, labels) && i <= j < |run| && p < |run[i].procs| && q < |run[i].procs| && |run[i].procs| == |w.ops|
    requires run[i].procs[p].Done? && run[i].procs[p].result.Made?
    requires run[i].procs[q] == Start && w.ops[q] == RevokeOp(run[i].procs[p].result.id)
    ensures q < |run[j].procs|
    ensures run[j].procs[q].Done? ==> run[j].procs[q].result == TimedOut || run[j].procs[q].result.Revoked? || run[j].procs[q].result.Already?
  {
    EveryResultIsSequential(w, run, labels, i, j, q);
    RunKeepsInv(w, run, labels, i);
    RunKeepsInv(w, run, labels, j);
    RunGrows(w, run, labels, i, j);
    assert PcOk(w.c, w.ops[p], Current(w, run[i]), run[i].procs[p]);
    if run[j].procs[q].Done? {
      var v: nat :| |run[i].log| <= v <= |run[j].log| && ExplainedAt(w, run[j].log, w.ops[q], run[j].procs[q].result, v);
      VersionPastPrefix(w, run[i].log, run[j], v);
    }
  }

  /** Any later content of the file holds every record of an earlier one, and a revoked record
      exactly as it was. */
  lemma LaterFilesExtendEarlier(w: World, run: seq<State>, labels: seq<Label>, i: nat, j: nat)
    requires IsRun(w, run, labels) && i <= j < |run|
    ensures run[i].files != [] && run[j].files != []
    ensures Read(File(run[i]), w.c.names).Some? && Read(File(run[j]), w.c.names).Some?
    ensures Extends(Read(File(run[i]), w.c.names).value, Read(File(run[j]), w.c.names).value)
  {
    RunKeepsInv(w, run, labels, i);
    RunKeepsInv(w, run, labels, j);
    RunGrows(w, run, labels, i, j);
    FileReads(w, run[i]);
    FileReads(w, run[j]);
    WholeVersion(w.keys, run[j].log, |run[i].log|);
    WholeVersion(w.keys, run[j].log, |run[j].log|);
    VersionsExtend(w.keys, run[j].log, |run[i].log|, |run[j].log|);
    assert run[j].log[..|run[i].log|] == run[i].log;
  }

  lemma WholeVersion(keys: Keys, log: seq<Change>, v: nat)
    requires ValidLog(keys, log) && v <= |log|
    ensures v == |log| ==> VersionAt(keys, log, v) == After(keys, log)
  {
    assert log[..|log|] == log;
  }

  /** A mint that has written is never lost. */
  lemma CompletedMintIsNeverLost(w: World, run: seq<State>, labels: seq<Label>, i: nat, j: nat, p: nat, id: string, secret: string, now: string)
    requires IsRun(w, run, labels) && i <= j < |run| && p < |run[i].procs| && p < |w.ops|
    requires run[i].procs[p] == Leaving(Made(id, secret, now)) || run[i].procs[p] == Done(Made(id, secret, now))
    ensures w.ops[p].MintOp? && Prepare(w.c, w.ops[p].request).Draft? && IsId(id) && IsSecret(secret)
    ensures run[j].files != [] && Read(File(run[j]), w.c.names).Some?
    ensures var keys := Read(File(run[j]), w.c.names).value;
      && WellFormed(keys, w.c.names) && id in keys && SameKey(Minted(w.c, w.ops[p].request, id, secret, now), keys[id])
      && Records(w.c, w.ops[p].request, id, secret, now, keys[id].(revokedAt := Null))
  {
    RunKeepsInv(w, run, labels, i);
    RunKeepsInv(w, run, labels, j);
    LaterFilesExtendEarlier(w, run, labels, i, j);
    FileReads(w, run[i]);
    FileReads(w, run[j]);
    assert PcOk(w.c, w.ops[p], Current(w, run[i]), run[i].procs[p]);
    HistoryIsWellFormed(w.keys, run[j].log, w.c.names);
    MintedRecordsTheRequest(w.c, w.ops[p].request, id, secret, now);
  }

  // ---- readers ------------------------------------------------------------------------

  /** A reader that is not in a read at `s` has, at `t`, answered since then, or not. */
  ghost predicate ReadsFrom(s: State, t: State, r: nat)
    requires r < |s.readers| == |t.readers|
  {
    && t.readers[r].count >= s.readers[r].count
    && (t.readers[r].fd.Some? ==> t.readers[r].fd.value >= |s.log|)
    && (t.readers[r].count == s.readers[r].count ==> t.readers[r].last == s.readers[r].last)
    && (t.readers[r].count > s.readers[r].count ==> t.readers[r].last >= |s.log|)
  }

  lemma RunSizes(w: World, run: seq<State>, labels: seq<Label>, i: nat, r: nat)
    requires IsRun(w, run, labels) && i < |run| && r < |run[i].readers|
    ensures Shaped(w, run[i]) && |run[i].files| == |run[i].log| + 1
    ensures run[i].readers[r].fd.Some? ==> run[i].readers[r].last <= run[i].readers[r].fd.value
    ensures i < |labels| ==> Step(w, run[i], run[i + 1], labels[i])
  {
    RunKeepsInv(w, run, labels, i);
    assert ReaderOk(w, run[i], run[i].readers[r]);
    if i < |labels| { assert StepAt(w, run, labels, i); }
  }

  lemma StepReads(w: World, s: State, mid: State, t: State, l: Label, r: nat)
    requires Shaped(w, mid) && Step(w, mid, t, l) && r < |s.readers| == |mid.readers| && ReadsFrom(s, mid, r)
    requires |mid.files| == |mid.log| + 1 && |s.log| <= |mid.log|
    ensures |t.readers| == |s.readers| && ReadsFrom(s, t, r)
  {}

  lemma {:induction false} ReaderIsFresh(w: World, run: seq<State>, labels: seq<Label>, i: nat, j: nat, r: nat)
    requires IsRun(w, run, labels) && i <= j < |run| && r < |run[i].readers| && run[i].readers[r].fd.None?
    ensures |run[j].readers| == |run[i].readers| && ReadsFrom(run[i], run[j], r)
    decreases j - i
  {
    if i < j {
      ReaderIsFresh(w, run, labels, i, j - 1, r);
      RunGrows(w, run, labels, i, j - 1);
      RunSizes(w, run, labels, j - 1, r);
      StepReads(w, run[i], run[j - 1], run[j], labels[j - 1], r);
    }
  }

  /** Every answer is a committed version; a reader's answers never go back; and a read begun
      after a moment answers from a version no older than that moment's. */
  lemma ReadersSeeCommittedVersions(w: World, run: seq<State>, labels: seq<Label>, i: nat, j: nat, r: nat)
    requires IsRun(w, run, labels) && i <= j < |run| && r < |run[i].readers|
    ensures ValidLog(w.keys, run[j].log) && |run[j].readers| == |run[i].readers|
    ensures run[j].readers[r].count > 0 ==>
      run[j].readers[r].last <= |run[j].log| && run[j].readers[r].answer == VersionAt(w.keys, run[j].log, run[j].readers[r].last)
    ensures run[i].readers[r].last <= run[j].readers[r].last
    ensures run[i].readers[r].fd.None? && run[j].readers[r].count > run[i].readers[r].count
            ==> run[j].readers[r].last >= |run[i].log|
  {
    RunKeepsInv(w, run, labels, j);
    RunGrows(w, run, labels, i, j);
    assert ReaderOk(w, run[j], run[j].readers[r]);
    LastNeverGoesBack(w, run, labels, i, j, r);
    if run[i].readers[r].fd.None? { ReaderIsFresh(w, run, labels, i, j, r); }
  }

  lemma {:induction false} LastNeverGoesBack(w: World, run: seq<State>, labels: seq<Label>, i: nat, j: nat, r: nat)
    requires IsRun(w, run, labels) && i <= j < |run| && r < |run[i].readers|
    ensures r < |run[j].readers| && run[i].readers[r].last <= run[j].readers[r].last
    decreases j - i
  {
    if i < j {
      LastNeverGoesBack(w, run, labels, i, j - 1, r);
      RunSizes(w, run, labels, j - 1, r);
      LastStep(w, run[j - 1], run[j], labels[j - 1], r);
    }
  }

  lemma LastStep(w: World, s: State, t: State, l: Label, r: nat)
    requires Shaped(w, s) && Step(w, s, t, l) && r < |s.readers|
    requires s.readers[r].fd.Some? ==> s.readers[r].last <= s.readers[r].fd.value
    ensures r < |t.readers| && s.readers[r].last <= t.readers[r].last
  {}

  // ---- from the mint to the request ----------------------------------------------------

  lemma VersionPastPrefix(w: World, log: seq<Change>, t: State, v: nat)
    requires WorldOk(w) && HistoryOk(w, t) && log <= t.log && |log| <= v <= |t.log| && ValidLog(w.keys, log)
    ensures Extends(After(w.keys, log), VersionAt(w.keys, t.log, v))
    ensures WellFormed(VersionAt(w.keys, t.log, v), w.c.names)
  {
    VersionsExtend(w.keys, t.log, |log|, v);
    assert t.log[..|log|] == log;
    Prefix(w.keys, t.log, v);
    HistoryIsWellFormed(w.keys, t.log[..v], w.c.names);
  }

  /** What a read begun after moment `i` answers extends what the file held then. */
  lemma FreshAnswerExtends(w: World, run: seq<State>, labels: seq<Label>, i: nat, j: nat, r: nat)
    requires IsRun(w, run, labels) && i <= j < |run| && r < |run[i].readers| && r < |run[j].readers|
    requires run[i].readers[r].fd.None? && run[j].readers[r].count > run[i].readers[r].count
    ensures HistoryOk(w, run[i]) && Extends(Current(w, run[i]), run[j].readers[r].answer)
    ensures WellFormed(run[j].readers[r].answer, w.c.names)
  {
    RunKeepsInv(w, run, labels, i);
    RunKeepsInv(w, run, labels, j);
    ReadersSeeCommittedVersions(w, run, labels, i, j, r);
    RunGrows(w, run, labels, i, j);
    VersionPastPrefix(w, run[i].log, run[j], run[j].readers[r].last);
  }

  /** From the moment a mint has written, whichever way the commands interleave, every reader
      that starts a read authenticates the new token exactly while the version it read holds
      the key unrevoked, and takes no other text for it. */
  lemma MintedKeyAuthenticates(w: World, run: seq<State>, labels: seq<Label>, i: nat, j: nat, r: nat,
                               p: nat, id: string, secret: string, now: string, token: string)
    requires IsRun(w, run, labels) && i <= j < |run| && r < |run[i].readers| && r < |run[j].readers|
    requires run[i].readers[r].fd.None? && run[j].readers[r].count > run[i].readers[r].count
    requires p < |run[i].procs| && p < |w.ops| && run[i].procs[p] == Done(Made(id, secret, now))
    ensures w.ops[p].MintOp? && id in run[j].readers[r].answer
    ensures var keys, made := run[j].readers[r].answer, Token(w.ops[p].request.role, id, secret);
      && Lookup(w.c, keys, made) == (if keys[id].Live() then Some(keys[id]) else None)
      && (Lookup(w.c, keys, token).Some? && Lookup(w.c, keys, token).value.keyId == id
          <==> keys[id].Live() && (token == made || token == made + "\n"))
  {
    RunKeepsInv(w, run, labels, i);
    FreshAnswerExtends(w, run, labels, i, j, r);
    assert PcOk(w.c, w.ops[p], Current(w, run[i]), run[i].procs[p]);
    MintedAuthenticatesExactly(w.c, w.ops[p].request, id, secret, now, run[j].readers[r].answer, token);
  }

  /** Once a revocation has returned, no reader that starts a read accepts any token as that key. */
  lemma RevokedKeyNeverAuthenticates(w: World, run: seq<State>, labels: seq<Label>, i: nat, j: nat, r: nat, p: nat, token: string)
    requires IsRun(w, run, labels) && i <= j < |run| && r < |run[i].readers| && r < |run[j].readers|
    requires run[i].readers[r].fd.None? && run[j].readers[r].count > run[i].readers[r].count
    requires p < |run[i].procs| && p < |w.ops| && w.ops[p].RevokeOp?
    requires run[i].procs[p].Done? && (run[i].procs[p].result.Revoked? || run[i].procs[p].result.Already?)
    ensures var found := Lookup(w.c, run[j].readers[r].answer, token);
      found.Some? ==> found.value.keyId != w.ops[p].id
  {
    RunKeepsInv(w, run, labels, i);
    FreshAnswerExtends(w, run, labels, i, j, r);
    assert PcOk(w.c, w.ops[p], Current(w, run[i]), run[i].procs[p]);
    var keys := run[j].readers[r].answer;
    assert !keys[w.ops[p].id].Live();
  }

  // ---- a file that cannot be read --------------------------------------------------------

  /** No command is past its read. */
  ghost predicate Untouched(w: World, s: State, file: Option<Json>) {
    && s.files == [file] && |s.procs| == |w.ops| && s.log == []
    && (forall p: nat :: p < |s.procs| ==> !s.procs[p].Loaded? && !s.procs[p].Ready?)
    && (forall r: nat :: r < |s.readers| ==> s.readers[r].count == 0 && s.readers[r].cache.None?)
  }

  /** An unusable file is left as it is, and no reader takes it for a file with no keys. */
  lemma {:induction false} UnusableFileIsLeftAlone(w: World, trace: seq<State>, labels: seq<Label>, file: Option<Json>, i: nat)
    requires |trace| == |labels| + 1 && i < |trace|
    requires Read(file, w.c.names).None? && Untouched(w, trace[0], file)
    requires forall j: nat :: j < |labels| ==> StepAt(w, trace, labels, j)
    ensures Untouched(w, trace[i], file)
  {
    if i > 0 {
      UnusableFileIsLeftAlone(w, trace, labels, file, i - 1);
      assert StepAt(w, trace, labels, i - 1);
      UnusableStep(w, trace[i - 1], trace[i], labels[i - 1], file);
    }
  }

  lemma UnusableStep(w: World, s: State, t: State, l: Label, file: Option<Json>)
    requires Untouched(w, s, file) && Read(file, w.c.names).None? && Step(w, s, t, l)
    ensures Untouched(w, t, file)
  {
    match l
    case Proc(p, a) => { assert !s.procs[p].Loaded? && !s.procs[p].Ready?; }
    case Open(r) => { assert s.readers[r].cache.None?; }
    case Answer(r, young) =>
  }
}
