/** particles/api/_keys.py: what a sequence of changes to the key map keeps. */
module KeyHistory {
  import opened KeyFormat
  import opened KeyRules

  /** The two changes made under the lock: a mint's new record, and a revocation's stamp. */
  datatype Change = Added(record: KeyRecord) | Stamped(id: string, time: string)

  /** A mint draws an id the map does not hold; only a live key is stamped. */
  predicate Enabled(keys: Keys, ch: Change) {
    match ch
    case Added(r) => r.keyId !in keys && r.Live()
    case Stamped(id, time) => id in keys && keys[id].Live()
  }

  function Apply(keys: Keys, ch: Change): Keys
    requires Enabled(keys, ch)
  {
    match ch
    case Added(r) => keys[r.keyId := r]
    case Stamped(id, time) => keys[id := keys[id].(revokedAt := Str(time))]
  }

  /** Each change was enabled where it was made. */
  predicate ValidLog(keys: Keys, log: seq<Change>)
    decreases |log|
  {
    log == [] || (Enabled(keys, log[0]) && ValidLog(Apply(keys, log[0]), log[1..]))
  }

  /** The map after `log`. */
  function After(keys: Keys, log: seq<Change>): Keys
    requires ValidLog(keys, log)
    decreases |log|
  {
    if log == [] then keys else After(Apply(keys, log[0]), log[1..])
  }

  lemma {:induction false} AfterConcat(keys: Keys, log: seq<Change>, more: seq<Change>)
    requires ValidLog(keys, log)
    ensures ValidLog(keys, log + more) <==> ValidLog(After(keys, log), more)
    ensures ValidLog(keys, log + more) ==> After(keys, log + more) == After(After(keys, log), more)
    decreases |log|
  {
    if log == [] {
      assert log + more == more;
    } else {
      assert (log + more)[1..] == log[1..] + more;
      AfterConcat(Apply(keys, log[0]), log[1..], more);
    }
  }

  /** A later map holds every record of an earlier one, changed at most by a first revocation. */
  ghost predicate Extends(earlier: Keys, later: Keys) {
    forall k :: k in earlier ==> k in later && SameKey(earlier[k], later[k]) && (!earlier[k].Live() ==> later[k] == earlier[k])
  }

  lemma ApplyExtends(keys: Keys, ch: Change)
    requires Enabled(keys, ch)
    ensures Extends(keys, Apply(keys, ch))
  {}

  /** No run of changes loses a record, alters it otherwise, or clears or moves a revocation. */
  lemma {:induction false} HistoryExtends(keys: Keys, log: seq<Change>)
    requires ValidLog(keys, log)
    ensures Extends(keys, After(keys, log))
    decreases |log|
  {
    if log != [] { HistoryExtends(Apply(keys, log[0]), log[1..]); }
  }

  /** Ids are never reused: two mints add two ids, revoked ones included. */
  lemma IdsAreNeverReused(keys: Keys, log: seq<Change>, i: nat, j: nat)
    requires ValidLog(keys, log) && i < j < |log| && log[i].Added? && log[j].Added?
    ensures log[i].record.keyId != log[j].record.keyId
  {
    var id := log[i].record.keyId;
    At(keys, log, i);
    At(keys, log, j);
    var mid := Apply(After(keys, log[..i]), log[i]);
    var between := log[i + 1..j];
    assert log[..j] == log[..i] + ([log[i]] + between);
    AfterConcat(keys, log[..i], [log[i]] + between);
    assert ([log[i]] + between)[1..] == between;
    HistoryExtends(mid, between);
    assert id in mid;
  }

  /** The change at `i` was enabled after the ones before it. */
  lemma At(keys: Keys, log: seq<Change>, i: nat)
    requires ValidLog(keys, log) && i < |log|
    ensures ValidLog(keys, log[..i]) && Enabled(After(keys, log[..i]), log[i])
  {
    Prefix(keys, log, i);
    assert log == log[..i] + log[i..];
    AfterConcat(keys, log[..i], log[i..]);
  }

  lemma {:induction false} Prefix(keys: Keys, log: seq<Change>, i: nat)
    requires ValidLog(keys, log) && i <= |log|
    ensures ValidLog(keys, log[..i])
    decreases |log|
  {
    if i > 0 {
      Prefix(Apply(keys, log[0]), log[1..], i - 1);
      assert log[..i][1..] == log[1..][..i - 1];
    }
  }

  /** A key is revoked at most once, and only after it is there. */
  lemma StampedOnce(keys: Keys, log: seq<Change>, i: nat, j: nat)
    requires ValidLog(keys, log) && i < j < |log| && log[i].Stamped? && log[j].Stamped?
    ensures log[i].id != log[j].id
  {
    var id := log[i].id;
    At(keys, log, i);
    At(keys, log, j);
    var mid := Apply(After(keys, log[..i]), log[i]);
    var between := log[i + 1..j];
    assert log[..j] == log[..i] + ([log[i]] + between);
    AfterConcat(keys, log[..i], [log[i]] + between);
    assert ([log[i]] + between)[1..] == between;
    HistoryExtends(mid, between);
    assert id in mid && !mid[id].Live();
  }

  /** The map at version `v` of a history. */
  function VersionAt(keys: Keys, log: seq<Change>, v: nat): Keys
    requires ValidLog(keys, log) && v <= |log|
  {
    Prefix(keys, log, v);
    After(keys, log[..v])
  }

  lemma VersionsExtend(keys: Keys, log: seq<Change>, v: nat, w: nat)
    requires ValidLog(keys, log) && v <= w <= |log|
    ensures Extends(VersionAt(keys, log, v), VersionAt(keys, log, w))
  {
    Prefix(keys, log, v);
    Prefix(keys, log, w);
    assert log[..w] == log[..v] + log[v..w];
    AfterConcat(keys, log[..v], log[v..w]);
    HistoryExtends(VersionAt(keys, log, v), log[v..w]);
  }

  lemma {:induction false} HistoryIsWellFormed(keys: Keys, log: seq<Change>, n: Names)
    requires ValidLog(keys, log) && WellFormed(keys, n)
    requires forall i :: 0 <= i < |log| && log[i].Added? ==> Storable(log[i].record.project, n)
    ensures WellFormed(After(keys, log), n)
    decreases |log|
  {
    if log != [] {
      assert forall i :: 0 <= i < |log| - 1 ==> log[1..][i] == log[i + 1];
      HistoryIsWellFormed(Apply(keys, log[0]), log[1..], n);
    }
  }
}
