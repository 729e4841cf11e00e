/** particles/api/_rate_limit.py: the token-bucket limiter, its bounded table and the per-request meter. */
module RateLimit {
  import opened Options

  type Key = string

  /** Tokens left, and the monotonic time they were counted at. */
  datatype Bucket = Bucket(tokens: real, last: real)

  type Table = map<Key, Bucket>

  const MAX_BUCKETS: nat := 10_000

  // ---- one bucket ---------------------------------------------------------------

  function Min(a: real, b: real): real { if a < b then a else b }

  /** Tokens refilled over `seconds`. */
  function Gain(rate: real, seconds: real): real {
    seconds * rate / 60.0
  }

  lemma GainLaws(rate: real, a: real, b: real)
    requires rate >= 0.0
    ensures Gain(rate, a + b) == Gain(rate, a) + Gain(rate, b)
    ensures Gain(rate, 60.0) == rate && Gain(rate, 0.0) == 0.0
    ensures a >= 0.0 ==> Gain(rate, a) >= 0.0
    ensures a >= 60.0 ==> Gain(rate, a) >= rate
  {
    assert (a + b) * rate == a * rate + b * rate;
    if a >= 60.0 { assert (a - 60.0) * rate >= 0.0; }
  }

  function Refilled(b: Bucket, rate: real, now: real): real {
    Min(rate, b.tokens + Gain(rate, now - b.last))
  }

  lemma FreshBucketIsFull(rate: real, now: real)
    ensures Refilled(Bucket(rate, now), rate, now) == rate
  {
    assert (now - now) * rate == 0.0;
  }

  /** What `key` could spend at `now`; a key with no bucket has a full one. */
  function Level(t: Table, key: Key, rate: real, now: real): real {
    if key in t then Refilled(t[key], rate, now) else rate
  }

  // ---- the table ----------------------------------------------------------------

  predicate Idle(b: Bucket, now: real) { now - b.last >= 60.0 }

  function Awake(t: Table, now: real): Table {
    map k | k in t && !Idle(t[k], now) :: t[k]
  }

  predicate NeedsRoom(t: Table, key: Key) { key !in t && |t| >= MAX_BUCKETS }

  /** The least-recently-seen branch fires: dropping idle buckets did not make room. */
  predicate DropsEarly(t: Table, key: Key, now: real) {
    NeedsRoom(t, key) && |Awake(t, now)| >= MAX_BUCKETS
  }

  /** `victims` are the `n` least recently seen keys of `t`; ties may fall either way. */
  ghost predicate LeastRecent(t: Table, victims: set<Key>, n: nat) {
    && victims <= t.Keys && |victims| == n
    && forall v, k :: v in victims && k in t && k !in victims ==> t[v].last <= t[k].last
  }

  /** The buckets dropped before their minute, if any. */
  ghost predicate Victims(t: Table, key: Key, now: real, victims: set<Key>) {
    if DropsEarly(t, key, now)
    then LeastRecent(Awake(t, now), victims, |Awake(t, now)| - MAX_BUCKETS + 1)
    else victims == {}
  }

  function Room(t: Table, key: Key, now: real, victims: set<Key>): Table {
    if NeedsRoom(t, key) then Awake(t, now) - victims else t
  }

  /** Spend one token from `key`'s level in a table that has room. */
  function Spend(t: Table, key: Key, rate: real, now: real): (Table, bool) {
    var level := Level(t, key, rate, now);
    if level < 1.0 then (t[key := Bucket(level, now)], false) else (t[key := Bucket(level - 1.0, now)], true)
  }

  function Allowed(t: Table, key: Key, rate: real, now: real, victims: set<Key>): (Table, bool) {
    Spend(Room(t, key, now, victims), key, rate, now)
  }

  lemma {:induction false} SubsetSize<T>(a: set<T>, b: set<T>)
    requires a <= b
    ensures |a| <= |b| && |b - a| == |b| - |a|
  {
    assert b == a + (b - a);
  }

  lemma RoomFits(t: Table, key: Key, now: real, victims: set<Key>)
    requires Victims(t, key, now, victims)
    ensures key in t || |Room(t, key, now, victims)| < MAX_BUCKETS
  {
    if NeedsRoom(t, key) {
      var awake := Awake(t, now);
      SubsetSize(victims * awake.Keys, awake.Keys);
      var room := Room(t, key, now, victims);
      assert |room| == |room.Keys| && |awake| == |awake.Keys|;
      assert room.Keys == awake.Keys - victims * awake.Keys;
      if DropsEarly(t, key, now) { assert victims * awake.Keys == victims; }
    }
  }

  lemma DropOldest(awake: Table, victims: set<Key>, v: Key)
    requires LeastRecent(awake, victims, |awake| - |awake - victims|)
    requires v in awake - victims && forall k :: k in awake - victims ==> awake[v].last <= awake[k].last
    ensures (awake - victims) - {v} == awake - (victims + {v})
    ensures |(awake - victims) - {v}| == |awake - victims| - 1
    ensures LeastRecent(awake, victims + {v}, |awake| - |(awake - victims) - {v}|)
  {
    var before, after := awake - victims, (awake - victims) - {v};
    assert before.Keys == after.Keys + {v} && |before| == |before.Keys| && |after| == |after.Keys|;
  }

  /** The process-wide limiter, updated in place. */
  class Limiter {
    var buckets: Table

    constructor ()
      ensures buckets == map[]
    {
      buckets := map[];
    }

    /** Drop buckets until a new one fits: idle ones first, then the least recently seen. */
    method MakeRoom(now: real) returns (ghost victims: set<Key>)
      modifies this
      ensures var awake := Awake(old(buckets), now);
        && buckets == awake - victims
        && LeastRecent(awake, victims, if |awake| < MAX_BUCKETS then 0 else |awake| - MAX_BUCKETS + 1)
    {
      buckets := Awake(buckets, now);
      victims := DropLeastRecent();
    }

    method DropLeastRecent() returns (ghost victims: set<Key>)
      modifies this
      ensures buckets == old(buckets) - victims
      ensures LeastRecent(old(buckets), victims, if |old(buckets)| < MAX_BUCKETS then 0 else |old(buckets)| - MAX_BUCKETS + 1)
    {
      ghost var awake := buckets;
      victims := {};
      assert awake - {} == awake;
      while |buckets| >= MAX_BUCKETS
        invariant buckets == awake - victims
        invariant LeastRecent(awake, victims, |awake| - |buckets|)
        invariant |awake| < MAX_BUCKETS ==> |buckets| == |awake|
        invariant |awake| >= MAX_BUCKETS ==> |buckets| >= MAX_BUCKETS - 1
        decreases |buckets|
      {
        ghost var oldest := OldestExists(buckets);
        var v :| v in buckets && forall k :: k in buckets ==> buckets[v].last <= buckets[k].last;
        DropOldest(awake, victims, v);
        buckets := buckets - {v};
        victims := victims + {v};
      }
    }

    method Allow(key: Key, rate: int, now: real) returns (ok: bool, ghost victims: set<Key>)
      modifies this
      ensures Victims(old(buckets), key, now, victims)
      ensures (buckets, ok) == Allowed(old(buckets), key, rate as real, now, victims)
    {
      var capacity := rate as real;
      victims := {};
      if key !in buckets && |buckets| >= MAX_BUCKETS {
        victims := MakeRoom(now);
      }
      var b := if key in buckets then buckets[key] else Bucket(capacity, now);
      FreshBucketIsFull(capacity, now);
      var tokens := Refilled(b, capacity, now);
      if tokens < 1.0 {
        buckets := buckets[key := Bucket(tokens, now)];
        return false, victims;
      }
      buckets := buckets[key := Bucket(tokens - 1.0, now)];
      return true, victims;
    }
  }

  lemma {:induction false} OldestExists(t: Table) returns (v: Key)
    requires |t| > 0
    ensures v in t && forall k :: k in t ==> t[v].last <= t[k].last
    decreases |t|
  {
    assert |t.Keys| > 0;
    v :| v in t.Keys;
    var rest := t - {v};
    assert t.Keys == rest.Keys + {v} && |t| == |t.Keys| && |rest| == |rest.Keys|;
    if |rest| > 0 {
      var w := OldestExists(rest);
      assert forall k :: k in t ==> k == v || (k in rest && rest[k] == t[k]);
      if t[w].last < t[v].last { v := w; }
    }
  }

  // ---- runs of calls ------------------------------------------------------------

  datatype Call = Call(key: Key, now: real, victims: set<Key>)

  ghost function After(t: Table, calls: seq<Call>, rate: real): Table
    decreases |calls|
  {
    if calls == [] then t else After(Allowed(t, calls[0].key, rate, calls[0].now, calls[0].victims).0, calls[1..], rate)
  }

  /** The calls are what the limiter may do from `t`, with time never running back. */
  ghost predicate Valid(t: Table, calls: seq<Call>, rate: real, from: real)
    decreases |calls|
  {
    calls != [] ==>
      && calls[0].now >= from
      && Victims(t, calls[0].key, calls[0].now, calls[0].victims)
      && Valid(Allowed(t, calls[0].key, rate, calls[0].now, calls[0].victims).0, calls[1..], rate, calls[0].now)
  }

  function EndTime(calls: seq<Call>, from: real): real {
    if calls == [] then from else EndTime(calls[1..], calls[0].now)
  }

  /** How many of the calls spent a token of `key`. */
  ghost function Admitted(t: Table, calls: seq<Call>, rate: real, key: Key): nat
    decreases |calls|
  {
    if calls == [] then 0
    else
      var (t', ok) := Allowed(t, calls[0].key, rate, calls[0].now, calls[0].victims);
      (if ok && calls[0].key == key then 1 else 0) + Admitted(t', calls[1..], rate, key)
  }

  /** How many of the calls dropped `key`'s bucket early. */
  ghost function EarlyDrops(calls: seq<Call>, key: Key): nat {
    if calls == [] then 0 else (if key in calls[0].victims then 1 else 0) + EarlyDrops(calls[1..], key)
  }

  /** `n` early drops' worth of tokens. */
  ghost function Times(n: nat, rate: real): real {
    if n == 0 then 0.0 else rate + Times(n - 1, rate)
  }

  lemma {:induction false} TimesIsProduct(n: nat, rate: real)
    ensures Times(n, rate) == rate * n as real
  {
    if n > 0 {
      TimesIsProduct(n - 1, rate);
      assert rate * n as real == rate + rate * (n - 1) as real;
    }
  }

  /** The refill over the calls, waited out one call at a time. */
  ghost function Refill(calls: seq<Call>, rate: real, from: real): real {
    if calls == [] then 0.0 else Gain(rate, calls[0].now - from) + Refill(calls[1..], rate, calls[0].now)
  }

  lemma {:induction false} RefillIsGain(calls: seq<Call>, rate: real, from: real)
    requires rate >= 0.0
    ensures Refill(calls, rate, from) == Gain(rate, EndTime(calls, from) - from)
    decreases |calls|
  {
    if calls == [] {
      assert (from - from) * rate == 0.0;
    } else {
      RefillIsGain(calls[1..], rate, calls[0].now);
      GainLaws(rate, calls[0].now - from, EndTime(calls, from) - calls[0].now);
    }
  }

  /** Every bucket was last touched by `now` and holds between none and a minute's tokens. */
  ghost predicate Sound(t: Table, rate: real, now: real) {
    forall k :: k in t ==> 0.0 <= t[k].tokens <= rate && t[k].last <= now
  }

  lemma LevelRange(t: Table, key: Key, rate: real, now: real)
    requires rate >= 0.0 && Sound(t, rate, now)
    ensures 0.0 <= Level(t, key, rate, now) <= rate
  {
    if key in t { GainLaws(rate, now - t[key].last, 0.0); }
  }

  lemma AllowedIsSound(t: Table, c: Call, rate: real, from: real)
    requires rate >= 0.0 && Sound(t, rate, from) && c.now >= from
    ensures Sound(Allowed(t, c.key, rate, c.now, c.victims).0, rate, c.now)
  {
    var room := Room(t, c.key, c.now, c.victims);
    LevelRange(room, c.key, rate, c.now);
  }

  /** Waiting raises a level by no more than the refill. */
  lemma LevelRises(b: Bucket, rate: real, from: real, now: real)
    requires rate >= 0.0 && b.last <= from <= now
    ensures Refilled(b, rate, now) <= Refilled(b, rate, from) + Gain(rate, now - from)
  {
    GainLaws(rate, from - b.last, now - from);
    GainLaws(rate, now - from, 0.0);
    assert now - b.last == (from - b.last) + (now - from);
  }

  /** A bucket idle for a minute is full, so dropping it changes no level. */
  lemma IdleIsFull(b: Bucket, rate: real, now: real)
    requires rate >= 0.0 && b.tokens >= 0.0 && Idle(b, now)
    ensures Refilled(b, rate, now) == rate
  {
    GainLaws(rate, now - b.last, 0.0);
  }

  /** What a call does to a key's level: its spend is paid for by the refill, or by an early drop. */
  lemma CallIsPaidFor(t: Table, c: Call, rate: real, key: Key, from: real)
    requires rate >= 1.0 && Sound(t, rate, from) && c.now >= from
    requires Victims(t, c.key, c.now, c.victims)
    ensures var (t', ok) := Allowed(t, c.key, rate, c.now, c.victims);
      Level(t', key, rate, c.now) + (if ok && c.key == key then 1.0 else 0.0)
        <= Level(t, key, rate, from) + Gain(rate, c.now - from) + (if key in c.victims then rate else 0.0)
  {
    var room := Room(t, c.key, c.now, c.victims);
    var (t', ok) := Allowed(t, c.key, rate, c.now, c.victims);
    LevelRange(t, key, rate, from);
    LevelRange(room, key, rate, c.now);
    LevelRange(room, c.key, rate, c.now);
    GainLaws(rate, c.now - from, 0.0);
    if key in t {
      LevelRises(t[key], rate, from, c.now);
      if Idle(t[key], c.now) { IdleIsFull(t[key], rate, c.now); }
    }
    assert key !in c.victims ==> Level(room, key, rate, c.now) <= Level(t, key, rate, from) + Gain(rate, c.now - from);
    if c.key == key {
      assert key in t ==> room == t;
      assert key !in c.victims || key !in t;
      GainLaws(rate, c.now - c.now, 0.0);
      assert Gain(rate, c.now - c.now) == 0.0;
      assert Level(t', key, rate, c.now) == Min(rate, t'[key].tokens);
    } else {
      assert Level(t', key, rate, c.now) == Level(room, key, rate, c.now);
    }
  }

  /** Spends are paid for: the level the key started with, the refill, and its early drops. */
  lemma {:induction false} SpendsArePaidFor(t: Table, calls: seq<Call>, rate: real, key: Key, from: real)
    requires rate >= 1.0 && Sound(t, rate, from) && Valid(t, calls, rate, from)
    ensures Admitted(t, calls, rate, key) as real
         <= Level(t, key, rate, from) + Refill(calls, rate, from) + Times(EarlyDrops(calls, key), rate)
    decreases |calls|
  {
    if calls == [] {
      LevelRange(t, key, rate, from);
    } else {
      var c := calls[0];
      AllowedIsSound(t, c, rate, from);
      SpendsArePaidFor(Allowed(t, c.key, rate, c.now, c.victims).0, calls[1..], rate, key, c.now);
      CallIsPaidFor(t, c, rate, key, from);
    }
  }

  /** r (1 + k) + r T / 60, for `drops` early drops of the key and a run of `seconds`. */
  function Allowance(rate: int, drops: nat, seconds: real): real {
    rate as real * (1 + drops) as real + rate as real * seconds / 60.0
  }

  lemma AllowanceCovers(rate: int, drops: nat, seconds: real)
    ensures rate as real + Gain(rate as real, seconds) + Times(drops, rate as real) == Allowance(rate, drops, seconds)
  {
    TimesIsProduct(drops, rate as real);
    assert rate as real * (1 + drops) as real == rate as real + rate as real * drops as real;
  }

  /** Over any run of length T seconds, at a fixed rate r, a bucket admits at most
      r (1 + k) + r T / 60 spends, where k counts the early drops of that key. */
  lemma RateBound(t: Table, calls: seq<Call>, rate: int, key: Key)
    requires rate >= 1 && calls != []
    requires Sound(t, rate as real, calls[0].now) && Valid(t, calls, rate as real, calls[0].now)
    ensures Admitted(t, calls, rate as real, key) as real
         <= Allowance(rate, EarlyDrops(calls, key), EndTime(calls, calls[0].now) - calls[0].now)
  {
    var from, r := calls[0].now, rate as real;
    SpendsArePaidFor(t, calls, r, key, from);
    LevelRange(t, key, r, from);
    RefillIsGain(calls, r, from);
    AllowanceCovers(rate, EarlyDrops(calls, key), EndTime(calls, from) - from);
  }

  // ---- what the limiter does admit -------------------------------------------------

  /** How many of the calls were `key`'s. */
  function CallsBy(calls: seq<Call>, key: Key): nat {
    if calls == [] then 0 else (if calls[0].key == key then 1 else 0) + CallsBy(calls[1..], key)
  }

  /** `key` never calls before `next`, nor within `gap` seconds of its last call. */
  predicate Paced(calls: seq<Call>, key: Key, gap: real, next: real) {
    calls != [] ==>
      if calls[0].key == key then calls[0].now >= next && Paced(calls[1..], key, gap, calls[0].now + gap)
      else Paced(calls[1..], key, gap, next)
  }

  /** From `next` on, `key` has a token to spend. */
  ghost predicate Ready(t: Table, key: Key, rate: real, next: real) {
    forall at: real :: at >= next ==> Level(t, key, rate, at) >= 1.0
  }

  lemma ReadyAfterGap(b: Bucket, rate: real, gap: real, at: real)
    requires rate >= 1.0 && Gain(rate, gap) >= 1.0 && b.tokens >= 0.0 && at >= b.last + gap
    ensures Refilled(b, rate, at) >= 1.0
  {
    GainLaws(rate, at - b.last - gap, gap);
    assert at - b.last == (at - b.last - gap) + gap;
  }

  lemma ReadyStep(t: Table, c: Call, rate: real, key: Key, gap: real, next: real)
    requires rate >= 1.0 && Gain(rate, gap) >= 1.0 && Ready(t, key, rate, next)
    requires c.key == key ==> c.now >= next
    ensures var (t', ok) := Allowed(t, c.key, rate, c.now, c.victims);
      && (c.key == key ==> ok)
      && Ready(t', key, rate, if c.key == key then c.now + gap else next)
  {
    var room := Room(t, c.key, c.now, c.victims);
    var (t', ok) := Allowed(t, c.key, rate, c.now, c.victims);
    assert key in room ==> key in t && room[key] == t[key];
    if c.key == key {
      assert Level(t, key, rate, c.now) >= 1.0;
      forall at: real | at >= c.now + gap ensures Level(t', key, rate, at) >= 1.0 { ReadyAfterGap(t'[key], rate, gap, at); }
    } else {
      forall at: real | at >= next ensures Level(t', key, rate, at) >= 1.0 { assert Level(t, key, rate, at) >= 1.0; }
    }
  }

  /** A client that waits out one token's refill between its calls is never refused, whatever
      the others do and whatever is evicted. */
  lemma {:induction false} PacedClientIsNeverRefused(t: Table, calls: seq<Call>, rate: real, key: Key, gap: real, next: real)
    requires rate >= 1.0 && Gain(rate, gap) >= 1.0 && Ready(t, key, rate, next) && Paced(calls, key, gap, next)
    ensures Admitted(t, calls, rate, key) == CallsBy(calls, key)
    decreases |calls|
  {
    if calls != [] {
      var c := calls[0];
      ReadyStep(t, c, rate, key, gap, next);
      PacedClientIsNeverRefused(Allowed(t, c.key, rate, c.now, c.victims).0, calls[1..], rate, key, gap,
                                if c.key == key then c.now + gap else next);
    }
  }

  /** `n` calls of one key at one moment, the first of which may have to make room. */
  function Burst(key: Key, now: real, n: nat, victims: set<Key>): seq<Call> {
    if n == 0 then [] else [Call(key, now, victims)] + Burst(key, now, n - 1, {})
  }

  /** A burst, of a client with a bucket or a new one, is admitted exactly as far as its whole
      tokens reach. */
  lemma {:induction false} BurstIsAdmittedExactly(t: Table, rate: real, key: Key, now: real, n: nat, victims: set<Key>)
    requires 0.0 <= Level(t, key, rate, now) <= rate && Victims(t, key, now, victims)
    ensures var whole := Level(t, key, rate, now).Floor;
      Admitted(t, Burst(key, now, n, victims), rate, key) == if n < whole then n else whole
    decreases n
  {
    if n > 0 {
      var t' := Allowed(t, key, rate, now, victims).0;
      BurstCall(t, rate, key, now, victims);
      BurstIsAdmittedExactly(t', rate, key, now, n - 1, {});
      CallThen(t, Call(key, now, victims), Burst(key, now, n - 1, {}), rate, key, now);
      assert n == 1 ==> Burst(key, now, 0, {}) == [];
    }
  }

  /** One call of a burst: it is admitted on a whole token, and costs that. */
  lemma BurstCall(t: Table, rate: real, key: Key, now: real, victims: set<Key>)
    requires 0.0 <= Level(t, key, rate, now) <= rate && Victims(t, key, now, victims)
    ensures var level := Level(t, key, rate, now); var (t', ok) := Allowed(t, key, rate, now, victims);
      && (ok <==> level.Floor >= 1) && Victims(t', key, now, {})
      && 0.0 <= Level(t', key, rate, now) <= rate
      && Level(t', key, rate, now).Floor == level.Floor - (if ok then 1 else 0)
  {
    var t' := Allowed(t, key, rate, now, victims).0;
    SameMoment(t'[key], rate);
    var level := Level(t, key, rate, now);
    assert (level - 1.0).Floor == level.Floor - 1;
  }

  lemma SameMoment(b: Bucket, rate: real)
    requires b.tokens <= rate
    ensures Refilled(b, rate, b.last) == b.tokens
  {
    assert (b.last - b.last) * rate == 0.0;
  }

  // ---- when exactly a call is refused --------------------------------------------------

  /** Counting a bucket at some moment between changes nothing later. */
  lemma RefillsCompose(b: Bucket, rate: real, mid: real, now: real)
    requires rate >= 0.0 && b.last <= mid <= now
    ensures Refilled(Bucket(Refilled(b, rate, mid), mid), rate, now) == Refilled(b, rate, now)
  {
    GainLaws(rate, mid - b.last, now - mid);
    GainLaws(rate, now - mid, 0.0);
    assert now - b.last == (mid - b.last) + (now - mid);
  }

  /** A refused call costs nothing: at every later moment the key's level is what it would have been
      without the call. */
  lemma RefusalCostsNothing(t: Table, c: Call, rate: real, later: real)
    requires rate >= 1.0 && (c.key in t ==> t[c.key].last <= c.now) && c.now <= later && Victims(t, c.key, c.now, c.victims)
    requires !Allowed(t, c.key, rate, c.now, c.victims).1
    ensures Level(Allowed(t, c.key, rate, c.now, c.victims).0, c.key, rate, later) == Level(t, c.key, rate, later)
  {
    assert c.key in t;
    RefillsCompose(t[c.key], rate, c.now, later);
  }

  /** The moments of `key`'s admitted calls. */
  ghost function Spends(t: Table, calls: seq<Call>, rate: real, key: Key): seq<real>
    decreases |calls|
  {
    if calls == [] then []
    else
      var (t', ok) := Allowed(t, calls[0].key, rate, calls[0].now, calls[0].victims);
      (if ok && calls[0].key == key then [calls[0].now] else []) + Spends(t', calls[1..], rate, key)
  }

  /** What is left of a full bucket at spend `k`'s moment, refilled until `now`, after that spend and
      the later ones. */
  function WindowLeft(spends: seq<real>, rate: real, k: nat, now: real): real
    requires k < |spends|
  {
    rate + Gain(rate, now - spends[k]) - (|spends| - k) as real
  }

  /** What is left of `start` tokens at `from`, refilled until `now`, after all the spends. */
  function StartLeft(start: real, spends: seq<real>, rate: real, from: real, now: real): real {
    start + Gain(rate, now - from) - |spends| as real
  }

  /** `level` is the least of a full bucket, what is left since the start, and what is left in each
      window that opens with a spend. */
  ghost predicate Least(level: real, start: real, spends: seq<real>, rate: real, from: real, now: real) {
    && level <= rate && level <= StartLeft(start, spends, rate, from, now)
    && (forall k: nat :: k < |spends| ==> level <= WindowLeft(spends, rate, k, now))
    && (|| level == rate || level == StartLeft(start, spends, rate, from, now)
        || exists k: nat :: k < |spends| && level == WindowLeft(spends, rate, k, now))
  }

  /** From `last` on, the key's level is that. */
  ghost predicate Accounted(t: Table, key: Key, start: real, spends: seq<real>, rate: real, from: real, last: real) {
    && (key in t ==> t[key].last <= last)
    && forall now: real :: now >= last ==> Least(Level(t, key, rate, now), start, spends, rate, from, now)
  }

  lemma AccountedAtStart(t: Table, key: Key, rate: real, from: real)
    requires rate >= 1.0 && (key in t ==> t[key].last <= from)
    ensures Accounted(t, key, Level(t, key, rate, from), [], rate, from, from)
  {
    forall now: real | now >= from ensures Least(Level(t, key, rate, now), Level(t, key, rate, from), [], rate, from, now) {
      GainLaws(rate, now - from, 0.0);
      if key in t { RefillsCompose(t[key], rate, from, now); }
    }
  }

  /** A spend at `at` lowers what is left in every window by one, and opens a new one. */
  lemma SpendAccounted(level: real, start: real, spends: seq<real>, rate: real, from: real, at: real, now: real)
    requires rate >= 1.0 && at <= now && Least(level, start, spends, rate, from, at)
    ensures Least(Min(rate, level - 1.0 + Gain(rate, now - at)), start, spends + [at], rate, from, now)
  {
    var more, left := spends + [at], level - 1.0 + Gain(rate, now - at);
    GainLaws(rate, at - from, now - at);
    GainLaws(rate, now - at, 0.0);
    assert now - from == (at - from) + (now - at);
    assert StartLeft(start, more, rate, from, now) == StartLeft(start, spends, rate, from, at) - 1.0 + Gain(rate, now - at);
    forall k: nat | k < |more|
      ensures left <= WindowLeft(more, rate, k, now)
      ensures k < |spends| ==> WindowLeft(more, rate, k, now) == WindowLeft(spends, rate, k, at) - 1.0 + Gain(rate, now - at)
    {
      if k < |spends| { WindowShifts(spends, rate, k, at, now); } else { assert more[k] == at; }
    }
    LeastOfShifted(level, start, spends, rate, from, at, now);
  }

  lemma WindowShifts(spends: seq<real>, rate: real, k: nat, at: real, now: real)
    requires rate >= 0.0 && k < |spends|
    ensures WindowLeft(spends + [at], rate, k, now) == WindowLeft(spends, rate, k, at) - 1.0 + Gain(rate, now - at)
  {
    GainLaws(rate, at - spends[k], now - at);
    assert now - spends[k] == (at - spends[k]) + (now - at);
  }

  /** The least before the spend is the least after it. */
  lemma LeastOfShifted(level: real, start: real, spends: seq<real>, rate: real, from: real, at: real, now: real)
    requires rate >= 0.0 && Least(level, start, spends, rate, from, at)
    ensures var more, left := spends + [at], level - 1.0 + Gain(rate, now - at);
      || left == StartLeft(start, more, rate, from, now)
      || exists k: nat :: k < |more| && left == WindowLeft(more, rate, k, now)
  {
    var more, left := spends + [at], level - 1.0 + Gain(rate, now - at);
    if level == rate {
      assert more[|spends|] == at;
      assert left == WindowLeft(more, rate, |spends|, now);
    } else if level == StartLeft(start, spends, rate, from, at) {
      GainLaws(rate, at - from, now - at);
      assert now - from == (at - from) + (now - at);
    } else {
      var k: nat :| k < |spends| && level == WindowLeft(spends, rate, k, at);
      WindowShifts(spends, rate, k, at, now);
    }
  }

  /** A call keeps the account of a key it does not drop early. */
  lemma CallIsAccounted(t: Table, c: Call, key: Key, start: real, spends: seq<real>, rate: real, from: real, last: real)
    requires rate >= 1.0 && Accounted(t, key, start, spends, rate, from, last) && c.now >= last
    requires (key in t ==> t[key].tokens >= 0.0) && Victims(t, c.key, c.now, c.victims) && key !in c.victims
    ensures var (t', ok) := Allowed(t, c.key, rate, c.now, c.victims);
      && Accounted(t', key, start, if ok && c.key == key then spends + [c.now] else spends, rate, from, c.now)
      && (key in t' ==> t'[key].tokens >= 0.0)
  {
    var (t', ok) := Allowed(t, c.key, rate, c.now, c.victims);
    LevelStays(t, c, key, rate);
    if c.key == key && ok {
      forall now: real | now >= c.now ensures Least(Level(t', key, rate, now), start, spends + [c.now], rate, from, now) {
        SpendAccounted(Level(t, key, rate, c.now), start, spends, rate, from, c.now, now);
      }
    } else {
      forall now: real | now >= c.now ensures Least(Level(t', key, rate, now), start, spends, rate, from, now) {
        if c.key == key { RefusalCostsNothing(t, c, rate, now); } else { OtherCallCostsNothing(t, c, key, rate, now); }
      }
    }
  }

  /** Where the call finds and leaves the key's bucket. */
  lemma LevelStays(t: Table, c: Call, key: Key, rate: real)
    requires rate >= 1.0 && (key in t ==> t[key].last <= c.now && t[key].tokens >= 0.0)
    requires Victims(t, c.key, c.now, c.victims) && key !in c.victims
    ensures var (t', ok) := Allowed(t, c.key, rate, c.now, c.victims);
      && (key in t' ==> t'[key].last <= c.now && t'[key].tokens >= 0.0)
      && (c.key == key ==> (ok <==> Level(t, key, rate, c.now) >= 1.0))
      && (c.key == key && ok ==> t'[key] == Bucket(Level(t, key, rate, c.now) - 1.0, c.now))
  {
    if key in t { GainLaws(rate, c.now - t[key].last, 0.0); }
  }

  /** Another key's call, which may drop this one's bucket when it has been idle a minute. */
  lemma OtherCallCostsNothing(t: Table, c: Call, key: Key, rate: real, later: real)
    requires rate >= 1.0 && c.key != key && (key in t ==> t[key].last <= c.now && t[key].tokens >= 0.0) && c.now <= later
    requires Victims(t, c.key, c.now, c.victims) && key !in c.victims
    ensures Level(Allowed(t, c.key, rate, c.now, c.victims).0, key, rate, later) == Level(t, key, rate, later)
  {
    if key in t && Idle(t[key], c.now) { IdleIsFull(t[key], rate, later); }
  }

  /** Over every run that never drops the key early, the key's level is its account. */
  lemma {:induction false} RunIsAccounted(t: Table, calls: seq<Call>, key: Key, start: real, spends: seq<real>, rate: real, from: real, last: real)
    requires rate >= 1.0 && Accounted(t, key, start, spends, rate, from, last) && (key in t ==> t[key].tokens >= 0.0)
    requires Valid(t, calls, rate, last) && forall i :: 0 <= i < |calls| ==> key !in calls[i].victims
    ensures Accounted(After(t, calls, rate), key, start, spends + Spends(t, calls, rate, key), rate, from, EndTime(calls, last))
    decreases |calls|
  {
    if calls == [] {
      assert spends + [] == spends;
    } else {
      var c := calls[0];
      var (t', ok) := Allowed(t, c.key, rate, c.now, c.victims);
      var more := if ok && c.key == key then spends + [c.now] else spends;
      assert key !in c.victims;
      CallIsAccounted(t, c, key, start, spends, rate, from, last);
      assert forall i :: 0 <= i < |calls| - 1 ==> calls[1..][i] == calls[i + 1];
      RunIsAccounted(t', calls[1..], key, start, more, rate, from, c.now);
      assert spends + Spends(t, calls, rate, key) == more + Spends(t', calls[1..], rate, key);
    }
  }

  /** The exact law of the bucket: after any run that never drops the key early, its next call is
      refused if and only if some window is used up, from the run's start or from one of its spends:
      the spends in it leave less than one token of what was there and was refilled. */
  lemma RefusedExactly(t: Table, calls: seq<Call>, rate: real, key: Key, from: real, now: real, victims: set<Key>)
    requires rate >= 1.0 && Sound(t, rate, from) && Valid(t, calls, rate, from) && now >= EndTime(calls, from)
    requires forall i :: 0 <= i < |calls| ==> key !in calls[i].victims
    requires Victims(After(t, calls, rate), key, now, victims)
    ensures var spends := Spends(t, calls, rate, key);
      !Allowed(After(t, calls, rate), key, rate, now, victims).1 <==>
        || StartLeft(Level(t, key, rate, from), spends, rate, from, now) < 1.0
        || exists k: nat :: k < |spends| && WindowLeft(spends, rate, k, now) < 1.0
  {
    var spends, end := Spends(t, calls, rate, key), After(t, calls, rate);
    AccountedAtStart(t, key, rate, from);
    RunIsAccounted(t, calls, key, Level(t, key, rate, from), [], rate, from, from);
    assert [] + spends == spends;
    assert Least(Level(end, key, rate, now), Level(t, key, rate, from), spends, rate, from, now);
  }

  /** In any run from an empty table the table never holds more than `MAX_BUCKETS` keys. */
  lemma {:induction false} TableIsBounded(t: Table, calls: seq<Call>, rate: real, from: real)
    requires |t| <= MAX_BUCKETS && Valid(t, calls, rate, from)
    ensures |After(t, calls, rate)| <= MAX_BUCKETS
    decreases |calls|
  {
    if calls != [] {
      var c := calls[0];
      var room := Room(t, c.key, c.now, c.victims);
      RoomFits(t, c.key, c.now, c.victims);
      var t' := Allowed(t, c.key, rate, c.now, c.victims).0;
      assert t'.Keys == room.Keys + {c.key} && |t'| == |t'.Keys| && |room| == |room.Keys|;
      TableIsBounded(t', calls[1..], rate, c.now);
    }
  }

  // ---- the bounded table refines the unbounded one ------------------------------

  /** A call with the rate configured when it is made. */
  datatype Ask = Ask(key: Key, rate: int, now: real)

  ghost predicate Timed(asks: seq<Ask>, from: real) {
    asks != [] ==> asks[0].now >= from && asks[0].rate > 0 && Timed(asks[1..], asks[0].now)
  }

  /** No ask reaches the least-recently-seen branch of the bounded table. */
  ghost predicate NeverEarly(t: Table, asks: seq<Ask>)
    decreases |asks|
  {
    asks != [] ==>
      && !DropsEarly(t, asks[0].key, asks[0].now)
      && NeverEarly(Allowed(t, asks[0].key, asks[0].rate as real, asks[0].now, {}).0, asks[1..])
  }

  ghost function BoundedAnswers(t: Table, asks: seq<Ask>): seq<bool>
    decreases |asks|
  {
    if asks == [] then []
    else
      var (t', ok) := Allowed(t, asks[0].key, asks[0].rate as real, asks[0].now, {});
      [ok] + BoundedAnswers(t', asks[1..])
  }

  /** The limiter that never forgets a key. */
  ghost function UnboundedAnswers(t: Table, asks: seq<Ask>): seq<bool>
    decreases |asks|
  {
    if asks == [] then []
    else
      var (t', ok) := Spend(t, asks[0].key, asks[0].rate as real, asks[0].now);
      [ok] + UnboundedAnswers(t', asks[1..])
  }

  /** The bounded table has forgotten only buckets that had been idle for a minute. */
  ghost predicate Forgets(bounded: Table, full: Table, now: real) {
    && (forall k :: k in bounded ==> k in full && full[k] == bounded[k])
    && (forall k :: k in full && k !in bounded ==> Idle(full[k], now))
    && (forall k :: k in full ==> full[k].tokens >= 0.0 && full[k].last <= now)
  }

  lemma SameLevel(bounded: Table, full: Table, key: Key, rate: real, now: real)
    requires Forgets(bounded, full, now) && rate >= 0.0
    ensures Level(bounded, key, rate, now) == Level(full, key, rate, now) >= 0.0
  {
    if key in full {
      GainLaws(rate, now - full[key].last, 0.0);
      if key !in bounded { IdleIsFull(full[key], rate, now); }
    }
  }

  lemma ForgetsStep(bounded: Table, full: Table, a: Ask, from: real)
    requires Forgets(bounded, full, from) && a.now >= from && a.rate > 0
    ensures var (b', ok) := Allowed(bounded, a.key, a.rate as real, a.now, {});
      var (f', ok') := Spend(full, a.key, a.rate as real, a.now);
      ok == ok' && Forgets(b', f', a.now)
  {
    var room := Room(bounded, a.key, a.now, {});
    assert Forgets(room, full, a.now);
    SameLevel(room, full, a.key, a.rate as real, a.now);
  }

  lemma {:induction false} AnswersAgree(bounded: Table, full: Table, asks: seq<Ask>, from: real)
    requires Forgets(bounded, full, from) && Timed(asks, from) && NeverEarly(bounded, asks)
    ensures BoundedAnswers(bounded, asks) == UnboundedAnswers(full, asks)
    decreases |asks|
  {
    if asks != [] {
      var a := asks[0];
      ForgetsStep(bounded, full, a, from);
      AnswersAgree(Allowed(bounded, a.key, a.rate as real, a.now, {}).0, Spend(full, a.key, a.rate as real, a.now).0, asks[1..], a.now);
    }
  }

  /** Dropping idle buckets never changes an answer, at any sequence of rates: until the
      least-recently-seen branch fires, the bounded limiter answers as the unbounded one. */
  lemma BoundedRefinesUnbounded(asks: seq<Ask>, from: real)
    requires Timed(asks, from) && NeverEarly(map[], asks)
    ensures BoundedAnswers(map[], asks) == UnboundedAnswers(map[], asks)
  {
    AnswersAgree(map[], map[], asks, from);
  }

  // ---- what an early drop changes, key by key ------------------------------------

  /** A call with the rate configured when it is made, and the buckets it dropped early. */
  datatype Turn = Turn(key: Key, rate: int, now: real, victims: set<Key>)

  function TurnOf(t: Table, u: Turn): (Table, bool) { Allowed(t, u.key, u.rate as real, u.now, u.victims) }

  /** The turns are what the bounded limiter may do from `t`. */
  ghost predicate Turns(t: Table, turns: seq<Turn>, from: real)
    decreases |turns|
  {
    turns != [] ==>
      && turns[0].now >= from && turns[0].rate > 0
      && Victims(t, turns[0].key, turns[0].now, turns[0].victims)
      && Turns(TurnOf(t, turns[0]).0, turns[1..], turns[0].now)
  }

  ghost function BoundedAfter(t: Table, turns: seq<Turn>): Table
    decreases |turns|
  {
    if turns == [] then t else BoundedAfter(TurnOf(t, turns[0]).0, turns[1..])
  }

  ghost function UnboundedAfter(t: Table, turns: seq<Turn>): Table
    decreases |turns|
  {
    if turns == [] then t else UnboundedAfter(Spend(t, turns[0].key, turns[0].rate as real, turns[0].now).0, turns[1..])
  }

  /** The answers `key` gets, from the bounded table and from the one that never forgets. */
  ghost function BoundedAnswersTo(t: Table, turns: seq<Turn>, key: Key): seq<bool>
    decreases |turns|
  {
    if turns == [] then []
    else
      var (t', ok) := TurnOf(t, turns[0]);
      (if turns[0].key == key then [ok] else []) + BoundedAnswersTo(t', turns[1..], key)
  }

  ghost function UnboundedAnswersTo(t: Table, turns: seq<Turn>, key: Key): seq<bool>
    decreases |turns|
  {
    if turns == [] then []
    else
      var (t', ok) := Spend(t, turns[0].key, turns[0].rate as real, turns[0].now);
      (if turns[0].key == key then [ok] else []) + UnboundedAnswersTo(t', turns[1..], key)
  }

  /** The two tables hold the same bucket for `key`, unless the bounded one dropped an idle one. */
  ghost predicate SameFor(key: Key, bounded: Table, full: Table, now: real) {
    && (key in bounded ==> key in full && full[key] == bounded[key])
    && (key in full ==> full[key].tokens >= 0.0 && full[key].last <= now && (key !in bounded ==> Idle(full[key], now)))
  }

  lemma SameForLevel(key: Key, bounded: Table, full: Table, rate: real, now: real)
    requires SameFor(key, bounded, full, now) && rate >= 0.0
    ensures Level(bounded, key, rate, now) == Level(full, key, rate, now) >= 0.0
  {
    if key in full {
      GainLaws(rate, now - full[key].last, 0.0);
      if key !in bounded { IdleIsFull(full[key], rate, now); }
    }
  }

  lemma SameForStep(key: Key, bounded: Table, full: Table, u: Turn, from: real)
    requires SameFor(key, bounded, full, from) && u.now >= from && u.rate > 0 && key !in u.victims
    ensures var (b', ok) := TurnOf(bounded, u);
      var (f', ok') := Spend(full, u.key, u.rate as real, u.now);
      SameFor(key, b', f', u.now) && (u.key == key ==> ok == ok')
  {
    var room := Room(bounded, u.key, u.now, u.victims);
    assert SameFor(key, room, full, u.now);
    SameForLevel(key, room, full, u.rate as real, u.now);
  }

  /** Whatever happens to other keys, one whose bucket is never dropped early gets exactly the
      answers of the unbounded table, and its bucket stays the same. */
  lemma {:induction false} UndroppedKeyIsUnaffected(key: Key, bounded: Table, full: Table, turns: seq<Turn>, from: real)
    requires SameFor(key, bounded, full, from) && Turns(bounded, turns, from)
    requires forall i :: 0 <= i < |turns| ==> key !in turns[i].victims
    ensures BoundedAnswersTo(bounded, turns, key) == UnboundedAnswersTo(full, turns, key)
    ensures SameFor(key, BoundedAfter(bounded, turns), UnboundedAfter(full, turns), if turns == [] then from else turns[|turns| - 1].now)
    decreases |turns|
  {
    if turns != [] {
      var u := turns[0];
      SameForStep(key, bounded, full, u, from);
      assert forall i :: 0 <= i < |turns| - 1 ==> turns[1..][i] == turns[i + 1];
      UndroppedKeyIsUnaffected(key, TurnOf(bounded, u).0, Spend(full, u.key, u.rate as real, u.now).0, turns[1..], u.now);
    }
  }

  /** While others call, a dropped key stays out of the bounded table and keeps its bucket in the other. */
  lemma {:induction false} OthersLeaveItSo(key: Key, bounded: Table, full: Table, turns: seq<Turn>)
    requires key !in bounded && forall i :: 0 <= i < |turns| ==> turns[i].key != key
    ensures key !in BoundedAfter(bounded, turns)
    ensures key in UnboundedAfter(full, turns) <==> key in full
    ensures key in full ==> UnboundedAfter(full, turns)[key] == full[key]
    decreases |turns|
  {
    if turns != [] {
      var u := turns[0];
      assert forall i :: 0 <= i < |turns| - 1 ==> turns[1..][i] == turns[i + 1];
      OthersLeaveItSo(key, TurnOf(bounded, u).0, Spend(full, u.key, u.rate as real, u.now).0, turns[1..]);
    }
  }

  /** The exact effect of an early drop: after any turns of other keys, the dropped key's next call
      is admitted; so the answer differs from the unbounded table's if and only if the key had less
      than one token then. */
  lemma EarlyDropDecidesExactly(key: Key, bounded: Table, full: Table, drop: Turn, turns: seq<Turn>, ask: Turn)
    requires key in bounded && key in full && full[key] == bounded[key] && Victims(bounded, drop.key, drop.now, drop.victims)
    requires key in drop.victims && ask.key == key && ask.rate > 0
    requires forall i :: 0 <= i < |turns| ==> turns[i].key != key
    ensures var b, f := BoundedAfter(bounded, [drop] + turns), UnboundedAfter(full, [drop] + turns);
      var answer, reference := TurnOf(b, ask).1, Spend(f, key, ask.rate as real, ask.now).1;
      answer && (answer != reference <==> Level(full, key, ask.rate as real, ask.now) < 1.0)
  {
    assert drop.key != key;
    assert ([drop] + turns)[0] == drop && ([drop] + turns)[1..] == turns;
    OthersLeaveItSo(key, TurnOf(bounded, drop).0, Spend(full, drop.key, drop.rate as real, drop.now).0, turns);
  }

  /** `n` clients, each with a bucket counted at `now`. */
  function Crowd(n: nat, now: real): Table {
    if n == 0 then map[] else Crowd(n - 1, now)[Name(n) := Bucket(0.0, now)]
  }

  lemma {:induction false} CrowdIsMany(n: nat, now: real)
    ensures |Crowd(n, now)| == n
    ensures forall k :: k in Crowd(n, now) ==> 1 <= |k| <= n && k[0] == 'c' && Crowd(n, now)[k] == Bucket(0.0, now)
  {
    if n > 0 {
      CrowdIsMany(n - 1, now);
      var before, name := Crowd(n - 1, now), Name(n);
      assert |name| == n && name !in before;
      var t := before[name := Bucket(0.0, now)];
      assert t.Keys == before.Keys + {name} && |t| == |t.Keys| && |before| == |before.Keys|;
    }
  }

  /** Every bucket was emptied at `now`. */
  ghost predicate JustSpent(t: Table, now: real) { forall k :: k in t ==> t[k] == Bucket(0.0, now) }

  /** A newcomer to a full table of clients seen at that moment takes the place of any one of them. */
  lemma NewcomerReplaces(t: Table, x: Key, out: Key, now: real)
    requires |t| == MAX_BUCKETS && JustSpent(t, now) && x !in t && out in t
    ensures Victims(t, x, now, {out})
    ensures Allowed(t, x, 1.0, now, {out}) == ((t - {out})[x := Bucket(0.0, now)], true)
    ensures var t' := (t - {out})[x := Bucket(0.0, now)]; |t'| == MAX_BUCKETS && JustSpent(t', now)
  {
    assert Awake(t, now) == t;
    var rest := t - {out};
    assert t.Keys == rest.Keys + {out} && |t| == |t.Keys| && |rest| == |rest.Keys|;
    var t' := rest[x := Bucket(0.0, now)];
    assert t'.Keys == rest.Keys + {x} && |t'| == |t'.Keys|;
  }

  /** What one more call in front adds to a run. */
  lemma CallThen(t: Table, c: Call, rest: seq<Call>, rate: real, key: Key, from: real)
    ensures var (t', ok) := Allowed(t, c.key, rate, c.now, c.victims);
      && (c.now >= from && Victims(t, c.key, c.now, c.victims) && Valid(t', rest, rate, c.now) ==> Valid(t, [c] + rest, rate, from))
      && Admitted(t, [c] + rest, rate, key) == (if ok && c.key == key then 1 else 0) + Admitted(t', rest, rate, key)
      && EndTime([c] + rest, from) == EndTime(rest, c.now)
  {
    assert ([c] + rest)[0] == c && ([c] + rest)[1..] == rest;
  }

  function Name(n: nat): Key { seq(n, _ => 'c') }

  /** New clients `k + 1` to `n`, one after the other, at the moment 1, and then `rest`. */
  function Arrivals(k: nat, n: nat, rest: seq<Call>): seq<Call>
    requires k <= n
    decreases n - k
  {
    if k == n then rest else [Call(Name(k + 1), 1.0, {})] + Arrivals(k + 1, n, rest)
  }

  /** `a`, who called at 0, and `k` clients who called at 1. */
  function Waiting(k: nat): Table { Crowd(k, 1.0)["a" := Bucket(0.0, 0.0)] }

  lemma WaitingIsMany(k: nat)
    ensures |Waiting(k)| == k + 1 && "b" !in Waiting(k)
    ensures forall x :: x in Waiting(k) ==> Waiting(k)[x] == Bucket(0.0, if x == "a" then 0.0 else 1.0)
  {
    CrowdIsMany(k, 1.0);
    var t, crowd := Waiting(k), Crowd(k, 1.0);
    assert t.Keys == crowd.Keys + {"a"} && |t| == |t.Keys| && |crowd| == |crowd.Keys|;
  }

  lemma OneArrives(k: nat)
    requires k < MAX_BUCKETS - 1
    ensures Victims(Waiting(k), Name(k + 1), 1.0, {}) && Allowed(Waiting(k), Name(k + 1), 1.0, 1.0, {}) == (Waiting(k + 1), true)
    ensures Name(k + 1) != "a"
  {
    WaitingIsMany(k);
    CrowdIsMany(k, 1.0);
    var name := Name(k + 1);
    assert |name| == k + 1 && name[0] == 'c';
    assert name !in Crowd(k, 1.0);
    assert Waiting(k)[name := Bucket(0.0, 1.0)] == Waiting(k + 1);
  }

  /** Client `i + 1` arrives, and takes table `i` to the next. */
  ghost predicate Arrives(tables: nat -> Table, i: nat) {
    && Name(i + 1) != "a" && Victims(tables(i), Name(i + 1), 1.0, {})
    && Allowed(tables(i), Name(i + 1), 1.0, 1.0, {}) == (tables(i + 1), true)
  }

  /** The arrivals spend none of `a`'s tokens, and leave the table for what follows. */
  lemma {:induction false} AllArrive(tables: nat -> Table, k: nat, n: nat, rest: seq<Call>, from: real)
    requires k <= n && rest != [] && from <= 1.0 && Valid(tables(n), rest, 1.0, 1.0) && forall i: nat :: k <= i < n ==> Arrives(tables, i)
    ensures Valid(tables(k), Arrivals(k, n, rest), 1.0, from)
    ensures Admitted(tables(k), Arrivals(k, n, rest), 1.0, "a") == Admitted(tables(n), rest, 1.0, "a")
    ensures EndTime(Arrivals(k, n, rest), from) == EndTime(rest, 1.0)
    decreases n - k
  {
    if k == n {
      FromEarlier(tables(n), rest, 1.0, from);
    } else {
      assert Arrives(tables, k);
      AllArrive(tables, k + 1, n, rest, 1.0);
      ArriveThen(tables(k), tables(k + 1), Name(k + 1), Arrivals(k + 1, n, rest), from);
    }
  }

  lemma FromEarlier(t: Table, calls: seq<Call>, rate: real, from: real)
    requires calls != [] && from <= 1.0 && Valid(t, calls, rate, 1.0)
    ensures Valid(t, calls, rate, from) && EndTime(calls, from) == EndTime(calls, 1.0)
  {}

  lemma ArriveThen(t: Table, t': Table, x: Key, rest: seq<Call>, from: real)
    requires Victims(t, x, 1.0, {}) && Allowed(t, x, 1.0, 1.0, {}) == (t', true) && x != "a" && from <= 1.0 && Valid(t', rest, 1.0, 1.0)
    ensures Valid(t, [Call(x, 1.0, {})] + rest, 1.0, from)
    ensures Admitted(t, [Call(x, 1.0, {})] + rest, 1.0, "a") == Admitted(t', rest, 1.0, "a")
    ensures EndTime([Call(x, 1.0, {})] + rest, from) == EndTime(rest, 1.0)
  {
    CallThen(t, Call(x, 1.0, {}), rest, 1.0, "a", from);
  }

  /** In the full table `a` is the strictly oldest: one more client drops `a`, and can drop no other. */
  lemma OnlyTheOldestGoes(t: Table)
    requires t == Waiting(MAX_BUCKETS - 1)
    ensures Victims(t, "b", 1.0, {"a"}) && forall v :: Victims(t, "b", 1.0, v) ==> v == {"a"}
    ensures Allowed(t, "b", 1.0, 1.0, {"a"}) == (Crowd(MAX_BUCKETS - 1, 1.0)["b" := Bucket(0.0, 1.0)], true)
  {
    var n := MAX_BUCKETS - 1;
    WaitingIsMany(n);
    CrowdIsMany(n, 1.0);
    assert Awake(t, 1.0) == t;
    forall v | Victims(t, "b", 1.0, v) ensures v == {"a"} { OldestIsIt(t, v, "a"); }
    assert t - {"a"} == Crowd(n, 1.0);
  }

  lemma OldestIsIt(t: Table, v: set<Key>, a: Key)
    requires LeastRecent(t, v, 1) && a in t && forall k :: k in t && k != a ==> t[a].last < t[k].last
    ensures v == {a}
  {
    var x :| x in v;
    assert v == {x} by { if y :| y in v && y != x { assert {x, y} <= v; SubsetSize({x, y}, v); } }
    assert x == a || t[a].last < t[x].last;
  }

  /** `a` calls at 0; 9,999 new clients at 1; `b` at 1, who drops `a`; and `a` again at 1, who drops
      the first of the others. */
  function Evicted(): seq<Call> {
    var n := MAX_BUCKETS - 1;
    [Call("a", 0.0, {})] + Arrivals(0, n, Tail())
  }

  /** So from an empty table, at a rate of one, a client can spend twice within a second, with no
      choice of whom to drop deciding it: the bound without the early drops, r + r T / 60, is exceeded. */
  lemma EarlyDropExceedsTheRate()
    ensures Valid(map[], Evicted(), 1.0, 0.0)
    ensures Admitted(map[], Evicted(), 1.0, "a") as real > 1.0 + Gain(1.0, EndTime(Evicted(), 0.0) - 0.0)
  {
    var n := MAX_BUCKETS - 1;
    var tail := Tail();
    TailSpendsOnce(n);
    CrowdArrives(n, tail);
    assert Waiting(0) == map["a" := Bucket(0.0, 0.0)];
    CallThen(map[], Call("a", 0.0, {}), Arrivals(0, n, tail), 1.0, "a", 0.0);
  }

  /** `b` at 1, who drops `a`; and `a` again at 1, who drops the first of the others. */
  function Tail(): seq<Call> { [Call("b", 1.0, {"a"})] + ([Call("a", 1.0, {"c"})] + []) }

  lemma CrowdArrives(n: nat, rest: seq<Call>)
    requires n <= MAX_BUCKETS - 1 && rest != [] && Valid(Waiting(n), rest, 1.0, 1.0)
    ensures Valid(Waiting(0), Arrivals(0, n, rest), 1.0, 0.0)
    ensures Admitted(Waiting(0), Arrivals(0, n, rest), 1.0, "a") == Admitted(Waiting(n), rest, 1.0, "a")
    ensures EndTime(Arrivals(0, n, rest), 0.0) == EndTime(rest, 1.0)
  {
    var tables := (k: nat) => Waiting(k);
    forall i: nat | i < n ensures Arrives(tables, i) { OneArrives(i); }
    AllArrive(tables, 0, n, rest, 0.0);
  }

  lemma TailSpendsOnce(n: nat)
    requires n == MAX_BUCKETS - 1
    ensures Valid(Waiting(n), Tail(), 1.0, 1.0) && Admitted(Waiting(n), Tail(), 1.0, "a") == 1 && EndTime(Tail(), 1.0) == 1.0
  {
    var b, again := Call("b", 1.0, {"a"}), Call("a", 1.0, {"c"});
    OnlyTheOldestGoes(Waiting(n));
    BackAgain(n);
    var crowd := Crowd(n, 1.0)["b" := Bucket(0.0, 1.0)];
    CallThen(crowd, again, [], 1.0, "a", 1.0);
    CallThen(Waiting(n), b, [again] + [], 1.0, "a", 1.0);
  }

  /** `a` comes back to a full table of others, with a full bucket. */
  lemma BackAgain(n: nat)
    requires n == MAX_BUCKETS - 1
    ensures var t := Crowd(n, 1.0)["b" := Bucket(0.0, 1.0)]; Victims(t, "a", 1.0, {"c"}) && Allowed(t, "a", 1.0, 1.0, {"c"}).1
  {
    CrowdIsMany(n, 1.0);
    var crowd := Crowd(n, 1.0);
    var t := crowd["b" := Bucket(0.0, 1.0)];
    assert t.Keys == crowd.Keys + {"b"} && |t| == |t.Keys| && |crowd| == |crowd.Keys|;
    FirstOfCrowd(n, 1.0);
    NewcomerReplaces(t, "a", "c", 1.0);
  }

  lemma {:induction false} FirstOfCrowd(n: nat, now: real)
    requires n >= 1
    ensures "c" in Crowd(n, now)
  {
    if n > 1 { FirstOfCrowd(n - 1, now); } else { assert Name(1) == "c"; }
  }

  // ---- the meter ----------------------------------------------------------------

  /** What a request has paid for in advance, and how often it was turned down. */
  class RequestMeter {
    var prepaid: bool
    var refused: nat

    ghost function Value(): Meter reads this { Meter(prepaid, refused) }

    constructor ()
      ensures Value() == Meter(false, 0)
    {
      prepaid, refused := false, 0;
    }

    /** `enforce_rate_limit` for a request with this meter: whether it is admitted. */
    method Enforce(limiter: Limiter, key: Key, rate: int, now: real) returns (admitted: bool, ghost victims: set<Key>)
      modifies this, limiter
      ensures rate <= 0 ==> admitted && Value() == old(Value()) && limiter.buckets == old(limiter.buckets)
      ensures rate > 0 ==>
        && Victims(old(limiter.buckets), key, now, victims)
        && (limiter.buckets, admitted) == Allowed(old(limiter.buckets), key, rate as real, now, victims)
        && Value() == (if admitted then old(Value()).(prepaid := true) else old(Value()))
    {
      victims := {};
      if rate <= 0 { return true, victims; }
      admitted, victims := limiter.Allow(key, rate, now);
      if admitted { prepaid := true; }
    }

    /** Pay for one model call: whether it may be sent. */
    method Charge(limiter: Limiter, key: Key, rate: int, now: real) returns (sent: bool, ghost victims: set<Key>)
      modifies this, limiter
      ensures old(prepaid) ==> sent && Value() == old(Value()).(prepaid := false) && limiter.buckets == old(limiter.buckets)
      ensures !old(prepaid) && rate <= 0 ==> sent && Value() == old(Value()) && limiter.buckets == old(limiter.buckets)
      ensures !old(prepaid) && rate > 0 ==>
        && Victims(old(limiter.buckets), key, now, victims)
        && (limiter.buckets, sent) == Allowed(old(limiter.buckets), key, rate as real, now, victims)
        && Value() == (if sent then old(Value()) else Meter(false, old(refused) + 1))
    {
      victims := {};
      if prepaid {
        prepaid := false;
        return true, victims;
      }
      if rate <= 0 { return true, victims; }
      sent, victims := limiter.Allow(key, rate, now);
      if !sent { refused := refused + 1; }
    }
  }

  datatype Meter = Meter(prepaid: bool, refused: nat)

  type Req = nat

  /** A request's meter, and which bucket its prepaid call was paid from. */
  datatype Account = Account(prepaid: Option<Key>, refused: nat)

  /** The bucket table and the meters of the requests in flight. */
  datatype World = World(table: Table, meters: map<Req, Account>)

  /** `Enforce` admits a request (one without a meter holds an operator key), `Charge` pays
      for a model call of a metered one. Each resolves the request's bucket when it happens. */
  datatype Event =
    | Open(req: Req)
    | Enforce(req: Req, key: Key, now: real, victims: set<Key>)
    | Charge(req: Req, key: Key, now: real, victims: set<Key>)

  predicate HasPrepaid(w: World, req: Req) { req in w.meters && w.meters[req].prepaid.Some? }

  /** The one limiter call an event makes, if it makes one. */
  function CallsOf(w: World, e: Event): seq<Call> {
    match e
    case Open(_) => []
    case Enforce(_, key, now, victims) => [Call(key, now, victims)]
    case Charge(req, key, now, victims) => if req !in w.meters || HasPrepaid(w, req) then [] else [Call(key, now, victims)]
  }

  function Granted(w: World, e: Event, rate: real): bool {
    var calls := CallsOf(w, e);
    calls != [] && Allowed(w.table, calls[0].key, rate, calls[0].now, calls[0].victims).1
  }

  /** The event sends a model call. */
  predicate Sends(w: World, e: Event, rate: real) {
    e.Charge? && e.req in w.meters && (HasPrepaid(w, e.req) || Granted(w, e, rate))
  }

  /** The bucket whose token pays for the call the event sends: the one that admitted the request,
      for its prepaid call, and otherwise the one it resolves to now. */
  function Payer(w: World, e: Event): Key
    requires e.Charge?
  {
    if HasPrepaid(w, e.req) then w.meters[e.req].prepaid.value else e.key
  }

  ghost function Next(w: World, e: Event, rate: real): World {
    var table := After(w.table, CallsOf(w, e), rate);
    var meters := match e
      case Open(req) => if req in w.meters then w.meters else w.meters[req := Account(None, 0)]
      case Enforce(req, key, _, _) =>
        if req in w.meters && Granted(w, e, rate) then w.meters[req := w.meters[req].(prepaid := Some(key))] else w.meters
      case Charge(req, _, _, _) =>
        if req !in w.meters then w.meters
        else if HasPrepaid(w, req) then w.meters[req := w.meters[req].(prepaid := None)]
        else if Granted(w, e, rate) then w.meters
        else w.meters[req := Account(None, w.meters[req].refused + 1)];
    World(table, meters)
  }

  /** Every limiter call a run of events makes, in order. */
  ghost function AllCalls(w: World, es: seq<Event>, rate: real): seq<Call>
    decreases |es|
  {
    if es == [] then [] else CallsOf(w, es[0]) + AllCalls(Next(w, es[0], rate), es[1..], rate)
  }

  /** Model calls sent on `key`'s tokens. */
  ghost function Sent(w: World, es: seq<Event>, rate: real, key: Key): nat
    decreases |es|
  {
    if es == [] then 0
    else (if Sends(w, es[0], rate) && Payer(w, es[0]) == key then 1 else 0) + Sent(Next(w, es[0], rate), es[1..], rate, key)
  }

  /** The requests holding a first call prepaid from `key`'s bucket. */
  ghost function Prepaid(w: World, key: Key): set<Req> {
    set r | r in w.meters && w.meters[r].prepaid == Some(key)
  }

  lemma AdmittedByEvent(w: World, e: Event, rate: real, key: Key)
    requires !e.Open?
    ensures Admitted(w.table, CallsOf(w, e), rate, key) == if Granted(w, e, rate) && e.key == key then 1 else 0
  {
    var calls := CallsOf(w, e);
    if calls != [] {
      assert calls[1..] == [];
      assert Admitted(Allowed(w.table, calls[0].key, rate, calls[0].now, calls[0].victims).0, [], rate, key) == 0;
    }
  }

  lemma PrepaidAfter(w: World, e: Event, rate: real, key: Key)
    ensures var before, after := Prepaid(w, key), Prepaid(Next(w, e, rate), key);
      && (e.Charge? && e.req in before ==> after == before - {e.req})
      && (e.Charge? && e.req !in before ==> after == before)
      && (e.Open? ==> after == before)
      && (e.Enforce? ==> after == before || after == before - {e.req} || (Granted(w, e, rate) && e.key == key && after == before + {e.req}))
  {
  }

  lemma EventIsPaidFor(w: World, e: Event, rate: real, key: Key)
    ensures (if Sends(w, e, rate) && Payer(w, e) == key then 1 else 0) + |Prepaid(Next(w, e, rate), key)|
         <= |Prepaid(w, key)| + Admitted(w.table, CallsOf(w, e), rate, key)
  {
    PrepaidAfter(w, e, rate, key);
    if !e.Open? { AdmittedByEvent(w, e, rate, key); }
  }

  lemma {:induction false} AdmittedSplits(t: Table, a: seq<Call>, b: seq<Call>, rate: real, key: Key)
    ensures Admitted(t, a + b, rate, key) == Admitted(t, a, rate, key) + Admitted(After(t, a, rate), b, rate, key)
    decreases |a|
  {
    if a == [] {
      assert a + b == b;
    } else {
      assert (a + b)[1..] == a[1..] + b;
      AdmittedSplits(Allowed(t, a[0].key, rate, a[0].now, a[0].victims).0, a[1..], b, rate, key);
    }
  }

  /** Across all interleaved requests, wherever each resolves at each call, the model calls sent on
      a bucket's tokens never exceed the tokens spent from it, the prepaid first calls included. */
  lemma {:induction false} CallsSentArePaidFor(w: World, es: seq<Event>, rate: real, key: Key)
    ensures Sent(w, es, rate, key) <= |Prepaid(w, key)| + Admitted(w.table, AllCalls(w, es, rate), rate, key)
    decreases |es|
  {
    if es != [] {
      var w' := Next(w, es[0], rate);
      EventIsPaidFor(w, es[0], rate, key);
      CallsSentArePaidFor(w', es[1..], rate, key);
      AdmittedSplits(w.table, CallsOf(w, es[0]), AllCalls(w', es[1..], rate), rate, key);
    }
  }

  /** Tokens of `key` that admit a request without ever paying for a call: one of a request with no
      meter, and one prepaid before and overwritten now. */
  ghost function Unused(w: World, e: Event, rate: real, key: Key): nat {
    if !(e.Enforce? && Granted(w, e, rate)) then 0
    else if e.req !in w.meters then (if e.key == key then 1 else 0)
    else if w.meters[e.req].prepaid == Some(key) then 1 else 0
  }

  ghost function AllUnused(w: World, es: seq<Event>, rate: real, key: Key): nat
    decreases |es|
  {
    if es == [] then 0 else Unused(w, es[0], rate, key) + AllUnused(Next(w, es[0], rate), es[1..], rate, key)
  }

  ghost function WorldAfter(w: World, es: seq<Event>, rate: real): World
    decreases |es|
  {
    if es == [] then w else WorldAfter(Next(w, es[0], rate), es[1..], rate)
  }

  lemma EventIsAccountedFor(w: World, e: Event, rate: real, key: Key)
    ensures (if Sends(w, e, rate) && Payer(w, e) == key then 1 else 0) + |Prepaid(Next(w, e, rate), key)| + Unused(w, e, rate, key)
         == |Prepaid(w, key)| + Admitted(w.table, CallsOf(w, e), rate, key)
  {
    PrepaidExactly(w, e, rate, key);
    if !e.Open? {
      AdmittedByEvent(w, e, rate, key);
      var before := Prepaid(w, key);
      assert e.req in before ==> before + {e.req} == before;
      assert e.req !in before ==> before - {e.req} == before;
      assert e.req in before <==> e.req in w.meters && w.meters[e.req].prepaid == Some(key);
    }
  }

  lemma PrepaidExactly(w: World, e: Event, rate: real, key: Key)
    ensures var before, after := Prepaid(w, key), Prepaid(Next(w, e, rate), key);
      after == match e
        case Open(_) => before
        case Enforce(req, k, _, _) =>
          if !(req in w.meters && Granted(w, e, rate)) then before else if k == key then before + {req} else before - {req}
        case Charge(req, _, _, _) => before - {req}
  {}

  /** A metered call that is not sent is counted as refused, and no other. */
  lemma RefusalsAreCounted(w: World, e: Event, rate: real, req: Req)
    requires req in w.meters
    ensures req in Next(w, e, rate).meters
    ensures Next(w, e, rate).meters[req].refused == w.meters[req].refused + (if e.Charge? && e.req == req && !Sends(w, e, rate) then 1 else 0)
  {}

  /** No token is lost and none is found: the tokens spent from a bucket, with those prepaid from it
      before, are the model calls sent on them, those still prepaid, and those that admitted a
      request without paying for a call. */
  lemma {:induction false} TokensAreAccountedFor(w: World, es: seq<Event>, rate: real, key: Key)
    ensures Sent(w, es, rate, key) + |Prepaid(WorldAfter(w, es, rate), key)| + AllUnused(w, es, rate, key)
         == |Prepaid(w, key)| + Admitted(w.table, AllCalls(w, es, rate), rate, key)
    decreases |es|
  {
    if es != [] {
      var w' := Next(w, es[0], rate);
      EventIsAccountedFor(w, es[0], rate, key);
      TokensAreAccountedFor(w', es[1..], rate, key);
      AdmittedSplits(w.table, CallsOf(w, es[0]), AllCalls(w', es[1..], rate), rate, key);
    }
  }

  /** So from a fresh limiter at most r (1 + k) + r T / 60 model calls are sent on a bucket's tokens. */
  lemma ModelCallsAreBounded(es: seq<Event>, rate: int, key: Key)
    requires rate >= 1
    requires var calls := AllCalls(World(map[], map[]), es, rate as real);
      calls != [] && Valid(map[], calls, rate as real, calls[0].now)
    ensures var calls := AllCalls(World(map[], map[]), es, rate as real);
      Sent(World(map[], map[]), es, rate as real, key) as real
        <= Allowance(rate, EarlyDrops(calls, key), EndTime(calls, calls[0].now) - calls[0].now)
  {
    var w := World(map[], map[]);
    CallsSentArePaidFor(w, es, rate as real, key);
    assert Prepaid(w, key) == {};
    RateBound(map[], AllCalls(w, es, rate as real), rate, key);
  }
}
