/** particles/benchmark/equivalence.py: greedy one-to-one matching of emitted to expected claims. */
module GreedyMatch {

  datatype Judge = Embedding | Llm

  /** An emitted index and an expected index. */
  datatype Pair = Pair(i: nat, j: nat)

  /** One matching problem. `aligned` is the LLM judge's verdict on a pair; the matcher
      asks about a pair at most once. */
  datatype Problem = Problem(
    emitted: nat,
    expected: nat,
    sim: Pair -> real,
    judge: Judge,
    threshold: real,
    prefilter: real,
    aligned: Pair -> bool,
    confidence: nat -> real,
    confidenceMin: nat -> real,
    required: nat -> bool)

  datatype MatchResult = MatchResult(matched: seq<Pair>, underConfidence: seq<Pair>, spurious: seq<nat>, missedRequired: seq<nat>)

  predicate Candidate(t: Problem, p: Pair) {
    && p.i < t.emitted && p.j < t.expected
    && (t.judge == Embedding ==> t.sim(p) >= t.threshold)
    && (t.judge == Llm ==> t.sim(p) >= t.prefilter)
  }

  /** The judge accepts the pair. */
  predicate Acceptable(t: Problem, p: Pair) {
    Candidate(t, p) && (t.judge == Llm && t.sim(p) < t.threshold ==> t.aligned(p))
  }

  /** The order of `candidates.sort(reverse=True)` on `(similarity, i, j)`. */
  predicate Before(t: Problem, p: Pair, q: Pair) {
    || t.sim(p) > t.sim(q)
    || (t.sim(p) == t.sim(q) && (p.i > q.i || (p.i == q.i && p.j > q.j)))
  }

  predicate Meet(p: Pair, q: Pair) {
    p.i == q.i || p.j == q.j
  }

  ghost predicate OneToOne(a: set<Pair>) {
    forall p, q :: p in a && q in a && Meet(p, q) ==> p == q
  }

  ghost predicate AllAcceptable(t: Problem, a: set<Pair>) {
    forall p :: p in a ==> Acceptable(t, p)
  }

  /** Some chosen pair that shares an end with `p` is ahead of it. */
  ghost predicate Blocked(t: Problem, a: set<Pair>, p: Pair) {
    exists q :: q in a && Meet(p, q) && Before(t, q, p)
  }

  /** The reference: a one-to-one set of acceptable pairs in which every acceptable pair
      left out is beaten at one of its two ends. */
  ghost predicate Stable(t: Problem, a: set<Pair>) {
    OneToOne(a) && AllAcceptable(t, a) && forall p :: Acceptable(t, p) && p !in a ==> Blocked(t, a, p)
  }

  ghost function Chosen(r: MatchResult): set<Pair> {
    (set p | p in r.matched) + (set p | p in r.underConfidence)
  }

  // ---- candidates ---------------------------------------------------------------

  predicate Sorted(t: Problem, s: seq<Pair>) {
    forall a, b :: 0 <= a < b < |s| ==> Before(t, s[a], s[b])
  }

  /** Put one pair into a sorted list. */
  method Insert(t: Problem, p: Pair, s: seq<Pair>) returns (r: seq<Pair>)
    requires Sorted(t, s) && p !in s
    ensures Sorted(t, r)
    ensures forall q :: q in r <==> q == p || q in s
  {
    var k := 0;
    while k < |s| && Before(t, s[k], p)
      invariant k <= |s| && forall a :: 0 <= a < k ==> Before(t, s[a], p)
    {
      k := k + 1;
    }
    r := s[..k] + [p] + s[k..];
    InsertedIsSorted(t, p, s, k);
    assert forall q :: q in s <==> q in s[..k] || q in s[k..] by { assert s == s[..k] + s[k..]; }
  }

  lemma InsertedIsSorted(t: Problem, p: Pair, s: seq<Pair>, k: nat)
    requires Sorted(t, s) && p !in s && k <= |s| && forall a :: 0 <= a < k ==> Before(t, s[a], p)
    requires k < |s| ==> !Before(t, s[k], p)
    ensures Sorted(t, s[..k] + [p] + s[k..])
  {
    var r := s[..k] + [p] + s[k..];
    forall b | k <= b < |s| ensures Before(t, p, s[b]) {
      assert s[k] != p && Before(t, p, s[k]);
      assert b > k ==> Before(t, s[k], s[b]);
    }
    assert forall i :: 0 <= i < |r| ==> r[i] == if i < k then s[i] else if i == k then p else s[i - 1];
  }

  /** Every pair above the judge's floor, best first. */
  method BuildCandidates(t: Problem) returns (candidates: seq<Pair>)
    ensures Sorted(t, candidates)
    ensures forall p :: p in candidates <==> Candidate(t, p)
  {
    candidates := [];
    for i := 0 to t.emitted
      invariant Sorted(t, candidates)
      invariant forall p :: p in candidates <==> p.i < i && Candidate(t, p)
    {
      for j := 0 to t.expected
        invariant Sorted(t, candidates)
        invariant forall p :: p in candidates <==> (p.i < i || (p.i == i && p.j < j)) && Candidate(t, p)
      {
        var p := Pair(i, j);
        if !((t.judge == Embedding && t.sim(p) < t.threshold) || (t.judge == Llm && t.sim(p) < t.prefilter)) {
          candidates := Insert(t, p, candidates);
        }
      }
    }
  }

  // ---- the greedy pass ----------------------------------------------------------

  /** What the pass has decided after the first `n` candidates. */
  ghost predicate Decided(t: Problem, candidates: seq<Pair>, n: nat, a: set<Pair>) {
    && n <= |candidates|
    && OneToOne(a)
    && (forall p :: p in a ==> Acceptable(t, p) && p in candidates[..n])
    && forall k :: 0 <= k < n && Acceptable(t, candidates[k]) && candidates[k] !in a ==> Blocked(t, a, candidates[k])
  }

  lemma DecideNext(t: Problem, candidates: seq<Pair>, n: nat, a: set<Pair>, a': set<Pair>)
    requires Sorted(t, candidates) && n < |candidates| && Decided(t, candidates, n, a)
    requires var p := candidates[n];
      var free := Acceptable(t, p) && forall q :: q in a ==> !Meet(p, q);
      a' == if free then a + {p} else a
    ensures Decided(t, candidates, n + 1, a')
  {
    var p := candidates[n];
    assert candidates[..n + 1] == candidates[..n] + [p];
    forall q | q in a ensures Before(t, q, p) {
      var k :| 0 <= k < n && candidates[..n][k] == q;
      assert candidates[k] == q;
    }
    forall k | 0 <= k < n + 1 && Acceptable(t, candidates[k]) && candidates[k] !in a'
      ensures Blocked(t, a', candidates[k])
    {
      if k < n {
        var q :| q in a && Meet(candidates[k], q) && Before(t, q, candidates[k]);
        assert q in a';
      }
    }
  }

  /** `i` (or `j`) is already assigned. */
  ghost predicate Uses(a: set<Pair>, usedEmitted: set<nat>, usedExpected: set<nat>) {
    && usedEmitted == (set p | p in a :: p.i)
    && usedExpected == (set p | p in a :: p.j)
  }

  lemma UsesGrow(a: set<Pair>, e: set<nat>, x: set<nat>, p: Pair)
    requires Uses(a, e, x)
    ensures Uses(a + {p}, e + {p.i}, x + {p.j})
  {
    var a' := a + {p};
    assert p in a';
    forall i | i in e + {p.i} ensures i in (set q | q in a' :: q.i) {
      if i in e { var q :| q in a && q.i == i; assert q in a'; }
    }
    forall j | j in x + {p.j} ensures j in (set q | q in a' :: q.j) {
      if j in x { var q :| q in a && q.j == j; assert q in a'; }
    }
  }

  lemma UsesMeet(a: set<Pair>, e: set<nat>, x: set<nat>, p: Pair)
    requires Uses(a, e, x)
    ensures p.i in e || p.j in x <==> exists q :: q in a && Meet(p, q)
  {
  }

  ghost predicate Distinct(ps: seq<Pair>) {
    forall k, l :: 0 <= k < l < |ps| ==> ps[k] != ps[l]
  }

  ghost predicate SplitByConfidence(t: Problem, matched: seq<Pair>, under: seq<Pair>) {
    && (forall p :: p in matched ==> t.confidence(p.i) >= t.confidenceMin(p.j))
    && (forall p :: p in under ==> t.confidence(p.i) < t.confidenceMin(p.j))
  }

  method Assign(t: Problem, candidates: seq<Pair>)
    returns (matched: seq<Pair>, under: seq<Pair>, usedEmitted: set<nat>, usedExpected: set<nat>, ghost chosen: set<Pair>)
    requires Sorted(t, candidates)
    requires forall p :: p in candidates <==> Candidate(t, p)
    ensures chosen == (set p | p in matched) + (set p | p in under)
    ensures Stable(t, chosen)
    ensures Uses(chosen, usedEmitted, usedExpected)
    ensures SplitByConfidence(t, matched, under)
    ensures Distinct(matched)
    ensures Distinct(under)
  {
    matched, under, usedEmitted, usedExpected, chosen := [], [], {}, {}, {};
    for n := 0 to |candidates|
      invariant Decided(t, candidates, n, chosen)
      invariant chosen == (set p | p in matched) + (set p | p in under)
      invariant Uses(chosen, usedEmitted, usedExpected)
      invariant SplitByConfidence(t, matched, under)
      invariant Distinct(matched)
      invariant Distinct(under)
    {
      var p := candidates[n];
      ghost var before := chosen;
      UsesMeet(before, usedEmitted, usedExpected, p);
      if p.i in usedEmitted || p.j in usedExpected {
        // an end is taken
      } else if t.judge == Llm && t.sim(p) < t.threshold && !t.aligned(p) {
        // the judge says no
      } else {
        assert p !in before;
        if t.confidence(p.i) < t.confidenceMin(p.j) {
          under := under + [p];
        } else {
          matched := matched + [p];
        }
        UsesGrow(before, usedEmitted, usedExpected, p);
        usedEmitted, usedExpected, chosen := usedEmitted + {p.i}, usedExpected + {p.j}, before + {p};
      }
      DecideNext(t, candidates, n, before, chosen);
    }
    forall p | Acceptable(t, p) && p !in chosen ensures Blocked(t, chosen, p) {
      var k :| 0 <= k < |candidates| && candidates[k] == p;
    }
  }

  /** The indices below `n` outside `used` that pass `keep`, in order. */
  method Leftover(n: nat, used: set<nat>, keep: nat -> bool) returns (rest: seq<nat>)
    ensures forall k: nat :: k in rest <==> k < n && k !in used && keep(k)
    ensures forall a, b :: 0 <= a < b < |rest| ==> rest[a] < rest[b]
  {
    rest := [];
    for k := 0 to n
      invariant forall l: nat :: l in rest <==> l < k && l !in used && keep(l)
      invariant forall a, b :: 0 <= a < b < |rest| ==> rest[a] < rest[b]
    {
      if k !in used && keep(k) {
        assert forall a :: 0 <= a < |rest| ==> rest[a] in rest;
        rest := rest + [k];
      }
    }
  }

  /** The index is an emitted end of a pair in `ps`. */
  ghost predicate Emits(ps: seq<Pair>, i: nat) {
    exists p :: p in ps && p.i == i
  }

  ghost predicate ExactlyOne(a: bool, b: bool, c: bool) {
    (a || b || c) && !(a && b) && !(a && c) && !(b && c)
  }

  /** The matcher returns the stable assignment, and files every emitted and every
      required expected claim in exactly one place. */
  method MatchEmittedToExpected(t: Problem) returns (r: MatchResult)
    ensures Stable(t, Chosen(r))
    ensures SplitByConfidence(t, r.matched, r.underConfidence)
    ensures forall i :: 0 <= i < t.emitted ==>
              ExactlyOne(Emits(r.matched, i), Emits(r.underConfidence, i), i in r.spurious)
    ensures forall i :: i in r.spurious ==> i < t.emitted
    ensures forall j: nat :: j in r.missedRequired <==>
              j < t.expected && t.required(j) && forall p :: p in Chosen(r) ==> p.j != j
    ensures Distinct(r.matched)
    ensures Distinct(r.underConfidence)
    ensures forall k, l :: 0 <= k < l < |r.spurious| ==> r.spurious[k] < r.spurious[l]
  {
    var candidates := BuildCandidates(t);
    var matched, under, usedEmitted, usedExpected, chosen := Assign(t, candidates);
    var spurious := Leftover(t.emitted, usedEmitted, _ => true);
    var missed := Leftover(t.expected, usedExpected, t.required);
    r := MatchResult(matched, under, spurious, missed);
    forall i | 0 <= i < t.emitted
      ensures ExactlyOne(Emits(r.matched, i), Emits(r.underConfidence, i), i in r.spurious)
    {
      if i in usedEmitted {
        var p :| p in chosen && p.i == i;
        assert p in matched || p in under;
      }
      forall p, q | p in matched && q in under && p.i == i && q.i == i ensures false {
        assert p in chosen && q in chosen && Meet(p, q);
      }
    }
  }

  // ---- how good the greedy assignment is ----------------------------------------

  ghost function Total(a: set<Pair>, weight: Pair -> real): real {
    if a == {} then 0.0 else var p :| p in a; weight(p) + Total(a - {p}, weight)
  }

  lemma {:induction false} TotalWithout(a: set<Pair>, p: Pair, weight: Pair -> real)
    requires p in a
    ensures Total(a, weight) == weight(p) + Total(a - {p}, weight)
    decreases a
  {
    var q :| q in a && Total(a, weight) == weight(q) + Total(a - {q}, weight);
    if q != p {
      TotalWithout(a - {q}, p, weight);
      TotalWithout(a - {p}, q, weight);
      assert a - {q} - {p} == a - {p} - {q};
    }
  }

  lemma {:induction false} TotalOfUnion(a: set<Pair>, b: set<Pair>, weight: Pair -> real)
    requires a !! b
    ensures Total(a + b, weight) == Total(a, weight) + Total(b, weight)
    decreases a
  {
    if a == {} {
      assert a + b == b;
    } else {
      var p :| p in a;
      TotalWithout(a, p, weight);
      TotalWithout(a + b, p, weight);
      assert (a + b) - {p} == (a - {p}) + b;
      TotalOfUnion(a - {p}, b, weight);
    }
  }

  lemma {:induction false} TotalNonNegative(a: set<Pair>, weight: Pair -> real)
    requires forall p :: p in a ==> weight(p) >= 0.0
    ensures Total(a, weight) >= 0.0
    decreases a
  {
    if a != {} {
      var p :| p in a;
      TotalWithout(a, p, weight);
      TotalNonNegative(a - {p}, weight);
    }
  }

  predicate SharesEnd(left: bool, p: Pair, q: Pair) {
    if left then p.i == q.i else p.j == q.j
  }

  /** When every pair of `m` is matched, at one fixed side, by a pair of `a` at least as heavy,
      `m` weighs no more than `a`: one-to-one pairs are matched by different pairs. */
  lemma {:induction false} ChargedOnce(left: bool, m: set<Pair>, a: set<Pair>, weight: Pair -> real)
    requires OneToOne(m) && OneToOne(a)
    requires forall q :: q in a ==> weight(q) >= 0.0
    requires forall p :: p in m ==> exists q :: q in a && SharesEnd(left, p, q) && weight(p) <= weight(q)
    ensures Total(m, weight) <= Total(a, weight)
    decreases m
  {
    if m == {} {
      TotalNonNegative(a, weight);
    } else {
      var p :| p in m;
      var q :| q in a && SharesEnd(left, p, q) && weight(p) <= weight(q);
      TotalWithout(m, p, weight);
      TotalWithout(a, q, weight);
      forall p' | p' in m - {p}
        ensures exists q' :: q' in a - {q} && SharesEnd(left, p', q') && weight(p') <= weight(q')
      {
        var q' :| q' in a && SharesEnd(left, p', q') && weight(p') <= weight(q');
        assert Meet(p, p') ==> p == p';
        assert q' in a - {q};
      }
      ChargedOnce(left, m - {p}, a - {q}, weight);
    }
  }

  lemma HalfOfAny(t: Problem, a: set<Pair>, m: set<Pair>, weight: Pair -> real)
    requires Stable(t, a) && OneToOne(m) && AllAcceptable(t, m)
    requires forall p :: Acceptable(t, p) ==> weight(p) >= 0.0
    requires forall p, q :: t.sim(p) <= t.sim(q) ==> weight(p) <= weight(q)
    ensures Total(m, weight) <= 2.0 * Total(a, weight)
  {
    var byLeft := set p | p in m && exists q :: q in a && SharesEnd(true, p, q) && weight(p) <= weight(q);
    var byRight := m - byLeft;
    forall p | p in byRight
      ensures exists q :: q in a && SharesEnd(false, p, q) && weight(p) <= weight(q)
    {
      if p in a {
        assert SharesEnd(false, p, p);
      } else {
        var q :| q in a && Meet(p, q) && Before(t, q, p);
        assert weight(p) <= weight(q);
        assert SharesEnd(true, p, q) || SharesEnd(false, p, q);
      }
    }
    ChargedOnce(true, byLeft, a, weight);
    ChargedOnce(false, byRight, a, weight);
    TotalOfUnion(byLeft, byRight, weight);
    assert byLeft + byRight == m;
  }

  lemma {:induction false} TotalOfOnes(a: set<Pair>)
    ensures Total(a, _ => 1.0) == |a| as real
    decreases a
  {
    if a != {} {
      var p :| p in a;
      TotalWithout(a, p, _ => 1.0);
      TotalOfOnes(a - {p});
    }
  }

  /** A pair's similarity, counted as nothing where it is negative. */
  function Above(t: Problem): Pair -> real { p => if t.sim(p) < 0.0 then 0.0 else t.sim(p) }

  lemma {:induction false} TotalGrows(a: set<Pair>, weight: Pair -> real, more: Pair -> real)
    requires forall p :: p in a ==> weight(p) <= more(p)
    ensures Total(a, weight) <= Total(a, more)
    decreases a
  {
    if a != {} {
      var p :| p in a;
      TotalWithout(a, p, weight);
      TotalWithout(a, p, more);
      TotalGrows(a - {p}, weight, more);
    }
  }

  /** For every similarity function: the number of greedy pairs, and their similarity above zero,
      are each at least half those of any one-to-one assignment of acceptable pairs; and so is
      their total similarity, unless the greedy choice had to take a negative one. (When it never
      has to is `HalfOfTotalExactly`.) */
  lemma GreedyIsHalfOptimal(t: Problem, a: set<Pair>, m: set<Pair>)
    requires Stable(t, a) && OneToOne(m) && AllAcceptable(t, m)
    ensures |m| <= 2 * |a|
    ensures Total(m, Above(t)) <= 2.0 * Total(a, Above(t))
    ensures (forall p :: p in a ==> t.sim(p) >= 0.0) ==> Total(m, t.sim) <= 2.0 * Total(a, t.sim)
  {
    HalfOfAny(t, a, m, _ => 1.0);
    TotalOfOnes(m);
    TotalOfOnes(a);
    HalfOfAny(t, a, m, Above(t));
    if forall p :: p in a ==> t.sim(p) >= 0.0 {
      TotalGrows(m, t.sim, Above(t));
      TotalGrows(a, Above(t), t.sim);
    }
  }

  /** The least similarity the judge looks at. */
  function Floor(t: Problem): real { if t.judge == Embedding then t.threshold else t.prefilter }

  /** Whatever the similarities and the verdicts turn out to be, the greedy total is at least half
      that of any one-to-one assignment of acceptable pairs. */
  ghost predicate AlwaysHalf(t: Problem) {
    forall sim: Pair -> real, aligned: Pair -> bool, a: set<Pair>, m: set<Pair> ::
      var u := t.(sim := sim, aligned := aligned);
      Stable(u, a) && OneToOne(m) && AllAcceptable(u, m) ==> Total(m, sim) <= 2.0 * Total(a, sim)
  }

  /** Similarity at the floor for one pair, and under it for every other. */
  function OneAtFloor(t: Problem): Pair -> real { p => if p == Pair(0, 0) then Floor(t) else Floor(t) - 1.0 }

  /** Below zero the floor lets a negative pair in, and choosing nothing has the greater total. */
  lemma NegativeFloorBreaksTotal(t: Problem)
    requires t.emitted >= 1 && t.expected >= 1 && Floor(t) < 0.0
    ensures var u := t.(sim := OneAtFloor(t), aligned := _ => true);
      Stable(u, {Pair(0, 0)}) && Total({}, OneAtFloor(t)) > 2.0 * Total({Pair(0, 0)}, OneAtFloor(t))
  {
    var one := Pair(0, 0);
    TotalWithout({one}, one, OneAtFloor(t));
    assert {one} - {one} == {};
  }

  /** The guarantee on the total holds exactly when the judge's floor is not below zero. */
  lemma HalfOfTotalExactly(t: Problem)
    requires t.emitted >= 1 && t.expected >= 1
    ensures AlwaysHalf(t) <==> Floor(t) >= 0.0
  {
    if Floor(t) >= 0.0 {
      forall sim: Pair -> real, aligned: Pair -> bool, a: set<Pair>, m: set<Pair>
        | var u := t.(sim := sim, aligned := aligned); Stable(u, a) && OneToOne(m) && AllAcceptable(u, m)
        ensures Total(m, sim) <= 2.0 * Total(a, sim)
      {
        GreedyIsHalfOptimal(t.(sim := sim, aligned := aligned), a, m);
      }
    } else {
      NegativeFloorBreaksTotal(t);
    }
  }

  lemma {:induction false} FirstOf(t: Problem, d: set<Pair>) returns (p: Pair)
    requires d != {}
    ensures p in d && forall q :: q in d && q != p ==> Before(t, p, q)
    decreases d
  {
    var x :| x in d;
    p := x;
    if d != {x} {
      assert d - {x} != {};
      var q := FirstOf(t, d - {x});
      if Before(t, q, x) { p := q; }
      forall r | r in d && r != p ensures Before(t, p, r) {
        if r != x && r != q { assert r in d - {x} && Before(t, q, r); }
      }
    }
  }

  /** There is only one stable assignment, so the matcher's answer is determined by the
      similarities alone. */
  lemma StableIsUnique(t: Problem, a: set<Pair>, b: set<Pair>)
    requires Stable(t, a) && Stable(t, b)
    ensures a == b
  {
    var d := (a - b) + (b - a);
    if d != {} {
      var p := FirstOf(t, d);
      assert false;
    }
    assert a - b <= d && b - a <= d;
  }
}
