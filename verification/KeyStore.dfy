/** particles/api/_keys.py: one process's view of the key file, its cache, and the two commands
    as they run while holding the lock. */
module KeyStore {
  import opened Options
  import opened KeyFormat
  import opened KeyRules
  import opened KeyHistory
  import opened KeyFile

  /** How long a cached read is served (`_RELOAD_SECONDS`). */
  const RELOAD_SECONDS: real := 10.0

  predicate AnyLive(keys: Keys) { exists k :: k in keys && keys[k].Live() }

  class Store {
    var file: Option<Json>
    var stamp: nat              // the file's stat, which each rename changes
    var cacheStamp: Option<nat>
    var cached: Keys
    var readAt: real
    var seen: bool              // a live key was read from the file

    /** A cache under the file's stamp holds what the file parses to. */
    ghost predicate Valid(n: Names)
      reads this
    {
      cacheStamp.Some? ==>
        && cacheStamp.value <= stamp
        && (AnyLive(cached) ==> seen)
        && (cacheStamp.value == stamp && file.Some? ==> Parse(file.value, n) == Some(cached))
    }

    /** The records the file stands for: one that held live keys and is gone is unusable. */
    ghost function Records(n: Names): Option<Keys>
      reads this
    {
      if file.Some? then Parse(file.value, n) else if seen then None else Some(map[])
    }

    constructor (file: Option<Json>, n: Names)
      ensures Valid(n) && this.file == file && !seen && cacheStamp.None?
    {
      this.file, stamp, cacheStamp, cached, readAt, seen := file, 0, None, map[], 0.0, false;
    }

    /** `_load`: whatever the cache does, the answer is what the file stands for now. */
    method Load(n: Names, now: real) returns (records: Option<Keys>)
      requires Valid(n)
      modifies this`cacheStamp, this`cached, this`readAt, this`seen
      ensures Valid(n)
      ensures records == old(Records(n))
      ensures seen == (old(seen) || (file.Some? && records.Some? && AnyLive(records.value)))
      ensures Records(n) == records
    {
      if file.None? {
        if seen { return None; }
        cacheStamp := None;
        return Some(map[]);
      }
      if cacheStamp == Some(stamp) && now - readAt < RELOAD_SECONDS {
        return Some(cached);
      }
      records := Parse(file.value, n);
      if records.None? { return; }
      if AnyLive(records.value) { seen := true; }
      cacheStamp, readAt, cached := Some(stamp), now, records.value;
    }

    /** `_write`: the file is replaced whole by the records' document. */
    method Write(n: Names, records: Keys)
      requires NamesContract(n) && WellFormed(records, n) && Valid(n)
      modifies this`file, this`stamp, this`cacheStamp
      ensures Valid(n) && Records(n) == Some(records) && file.Some? && cacheStamp.None?
    {
      var data, listing := Serialise(records);
      ParseInvertsSerialise(records, listing, n);
      file, stamp, cacheStamp := Some(data), stamp + 1, None;
    }

    /** `mint`, with the ids and the secret the random source yields; `enough` bounds the draws
        that hit a recorded id. Either nothing is written, or exactly the new record is. */
    method Mint(c: Config, q: Request, draw: nat -> string, ghost enough: nat, secret: string, now: string, clock: real) returns (r: Result)
      requires ConfigContract(c) && Valid(c.names) && IsSecret(secret)
      requires forall i :: IsId(draw(i))
      requires Records(c.names).Some? ==> draw(enough) !in Records(c.names).value
      modifies this
      ensures Valid(c.names)
      ensures match r
        case RuleRefused(refusal) => Prepare(c, q) == Refused(refusal) && file == old(file)
        case Unusable => Prepare(c, q).Draft? && old(Records(c.names)).None? && file == old(file)
        case Made(id, s, time) =>
          && Prepare(c, q).Draft? && s == secret && time == now && IsId(id)
          && old(Records(c.names)).Some?
          && Enabled(old(Records(c.names)).value, Added(Minted(c, q, id, secret, now)))
          && Records(c.names) == Some(Apply(old(Records(c.names)).value, Added(Minted(c, q, id, secret, now))))
          && KeyRules.Records(c, q, id, secret, now, Minted(c, q, id, secret, now))
          && Records(c.names) == Some(old(Records(c.names)).value[id := Minted(c, q, id, secret, now)])
        case _ => false
    {
      var prepared := Prepare(c, q);
      if prepared.Refused? { return RuleRefused(prepared.refusal); }
      cacheStamp := None;
      var read := Load(c.names, clock);
      if read.None? { return Unusable; }
      var records := read.value;
      var n := 0;
      while draw(n) in records
        invariant n <= enough
        decreases enough - n
      {
        assert n != enough;
        n := n + 1;
      }
      var id := draw(n);
      RecordsAreWellFormed(c.names);
      MintedIsUsable(c, q, id, secret, now);
      MintedRecordsTheRequest(c, q, id, secret, now);
      Write(c.names, records[id := Minted(c, q, id, secret, now)]);
      return Made(id, secret, now);
    }

    lemma RecordsAreWellFormed(n: Names)
      requires NamesContract(n) && Records(n).Some?
      ensures WellFormed(Records(n).value, n)
    {
      if file.Some? { ParsedIsWellFormed(file.value, n); }
    }

    /** `revoke`: a missing key is refused, a revoked one returned as it is, a live one stamped. */
    method Revoke(c: Config, id: string, now: string, clock: real) returns (r: Result)
      requires ConfigContract(c) && Valid(c.names)
      modifies this
      ensures Valid(c.names)
      ensures match r
        case Unusable => old(Records(c.names)).None? && file == old(file)
        case Missing => old(Records(c.names)).Some? && id !in old(Records(c.names)).value && file == old(file)
        case Already(record) =>
          && old(Records(c.names)).Some? && id in old(Records(c.names)).value && file == old(file)
          && old(Records(c.names)).value[id] == record && !record.Live()
        case Revoked(record) =>
          && old(Records(c.names)).Some? && Enabled(old(Records(c.names)).value, Stamped(id, now))
          && Records(c.names) == Some(Apply(old(Records(c.names)).value, Stamped(id, now)))
          && Records(c.names) == Some(old(Records(c.names)).value[id := record])
          && record == old(Records(c.names)).value[id].(revokedAt := Str(now))
        case _ => false
    {
      cacheStamp := None;
      var read := Load(c.names, clock);
      if read.None? { return Unusable; }
      var records := read.value;
      if id !in records { return Missing; }
      if !records[id].Live() { return Already(records[id]); }
      var revoked := records[id].(revokedAt := Str(now));
      RecordsAreWellFormed(c.names);
      Write(c.names, records[id := revoked]);
      return Revoked(revoked);
    }

    /** `lookup` through the cache: the answer is the one for the file as it is now. */
    method Authenticate(c: Config, token: string, clock: real) returns (answer: Option<KeyRecord>, usable: bool)
      requires Valid(c.names)
      modifies this`cacheStamp, this`cached, this`readAt, this`seen
      ensures Valid(c.names) && Records(c.names) == old(Records(c.names))
      ensures usable <==> ParseToken(token).None? || Records(c.names).Some?
      ensures answer == if Records(c.names).Some? then Lookup(c, Records(c.names).value, token) else None
    {
      if ParseToken(token).None? { return None, true; }
      var records := Load(c.names, clock);
      if records.None? { return None, false; }
      return Lookup(c, records.value, token), true;
    }
  }
}
