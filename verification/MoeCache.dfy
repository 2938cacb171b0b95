/**
 Replay of a request trace against an LRU cache and against the clairvoyant
 simulator of tools/sim-moe-cache.py.

 The LRU simulator is specified without its cache: a request hits exactly when its
 key was requested before and fewer than `capacity` distinct keys came since.
 */
module MoeCache {
  import opened Words

  datatype Key = Key(layer: nat, expert: nat)

  // ---------------------------------------------------------------- traces

  function Init<T>(s: seq<T>): (r: seq<T>)
    requires s != []
  {
    s[..|s| - 1]
  }

  function Last<T>(s: seq<T>): T
    requires s != []
  {
    s[|s| - 1]
  }

  function Distinct(s: seq<Key>): set<Key> {
    set k | k in s
  }

  ghost predicate NoDup(s: seq<Key>) {
    forall i, j :: 0 <= i < j < |s| ==> s[i] != s[j]
  }

  /** The index of the last request for `k`. */
  function LastUse(t: seq<Key>, k: Key): (i: nat)
    requires k in t
    ensures i < |t| && t[i] == k && k !in t[i + 1..]
  {
    if Last(t) == k then |t| - 1
    else
      assert t == Init(t) + [Last(t)];
      var i := LastUse(Init(t), k);
      assert t[i + 1..] == Init(t)[i + 1..] + [Last(t)];
      i
  }

  lemma LastUseIsLast(t: seq<Key>, k: Key, i: nat)
    requires i < |t| && t[i] == k
    ensures i <= LastUse(t, k)
  {
    var rest := t[LastUse(t, k) + 1..];
    assert forall j :: LastUse(t, k) < j < |t| ==> t[j] == rest[j - LastUse(t, k) - 1];
  }

  /** What LRU promises, stated on the trace alone. */
  predicate Hit(past: seq<Key>, k: Key, capacity: nat) {
    k in past && |Distinct(past[LastUse(past, k) + 1..])| < capacity
  }

  function LruHits(t: seq<Key>, capacity: nat): (n: nat)
    ensures n <= |t|
  {
    if t == [] then 0
    else LruHits(Init(t), capacity) + if Hit(Init(t), Last(t), capacity) then 1 else 0
  }

  function LruMisses(t: seq<Key>, capacity: nat): nat {
    |t| - LruHits(t, capacity)
  }

  // ---------------------------------------------------------------- LRU

  function Without(s: seq<Key>, k: Key): (r: seq<Key>)
    ensures |r| <= |s|
    ensures forall x :: x in r <==> x in s && x != k
    ensures k !in s ==> r == s
  {
    if s == [] then []
    else if s[0] == k then Without(s[1..], k)
    else [s[0]] + Without(s[1..], k)
  }

  /** All keys of the trace, least recently used first. */
  function Recency(t: seq<Key>): (r: seq<Key>) {
    if t == [] then [] else Without(Recency(Init(t)), Last(t)) + [Last(t)]
  }

  function LastN(s: seq<Key>, n: nat): (r: seq<Key>) {
    if |s| <= n then s else s[|s| - n..]
  }

  lemma {:induction false} WithoutSplit(a: seq<Key>, b: seq<Key>, k: Key)
    ensures Without(a + b, k) == Without(a, k) + Without(b, k)
  {
    if a == [] {
      assert a + b == b;
    } else {
      assert (a + b)[1..] == a[1..] + b;
      WithoutSplit(a[1..], b, k);
    }
  }

  lemma {:induction false} WithoutNoDup(s: seq<Key>, k: Key)
    requires NoDup(s)
    ensures NoDup(Without(s, k))
    ensures k in s ==> |Without(s, k)| == |s| - 1
  {
    if s != [] {
      assert forall i, j :: 0 <= i < j < |s[1..]| ==> s[1..][i] == s[i + 1] && s[1..][j] == s[j + 1];
      WithoutNoDup(s[1..], k);
      if s[0] == k {
        assert k !in s[1..];
      } else {
        assert s[0] !in s[1..];
        assert s[0] !in Without(s[1..], k);
      }
    }
  }

  lemma {:induction false} RecencyKeys(t: seq<Key>)
    ensures NoDup(Recency(t))
    ensures forall k :: k in Recency(t) <==> k in t
  {
    if t != [] {
      RecencyKeys(Init(t));
      WithoutNoDup(Recency(Init(t)), Last(t));
      assert t == Init(t) + [Last(t)];
    }
  }

  lemma LastUseSince(t: seq<Key>, k: Key)
    requires t != [] && k in Init(t) && k != Last(t)
    ensures k in t
    ensures Distinct(t[LastUse(t, k) + 1..]) == Distinct(Init(t)[LastUse(Init(t), k) + 1..]) + {Last(t)}
  {
    LastUseInit(t, k);
    SinceInit(t, LastUse(Init(t), k));
  }

  lemma LastUseInit(t: seq<Key>, k: Key)
    requires t != [] && k in Init(t) && k != Last(t)
    ensures k in t && LastUse(t, k) == LastUse(Init(t), k)
  {
    assert t == Init(t) + [Last(t)];
  }

  lemma SinceInit(t: seq<Key>, i: nat)
    requires i + 1 < |t|
    ensures Distinct(t[i + 1..]) == Distinct(Init(t)[i + 1..]) + {Last(t)}
  {
    FromInit(t, i + 1);
    DistinctAppend(Init(t)[i + 1..], Last(t));
  }

  lemma FromInit(t: seq<Key>, i: nat)
    requires i < |t|
    ensures t[i..] == Init(t)[i..] + [Last(t)]
  {
  }

  lemma DistinctAppend(s: seq<Key>, k: Key)
    ensures Distinct(s + [k]) == Distinct(s) + {k}
  {
  }

  /** The keys behind `k` in recency order are exactly those requested since its last use. */
  lemma {:induction false} RecencySplit(t: seq<Key>, k: Key) returns (older: seq<Key>, newer: seq<Key>)
    requires k in t
    ensures Recency(t) == older + [k] + newer
    ensures Distinct(newer) == Distinct(t[LastUse(t, k) + 1..])
  {
    if Last(t) == k {
      older, newer := Without(Recency(Init(t)), k), [];
      assert t[|t|..] == [];
    } else {
      assert t == Init(t) + [Last(t)];
      var a, b := RecencySplit(Init(t), k);
      older, newer := Without(a, Last(t)), Without(b, Last(t)) + [Last(t)];
      RecencyBack(t, k, a, b);
    }
  }

  lemma RecencyBack(t: seq<Key>, k: Key, a: seq<Key>, b: seq<Key>)
    requires t != [] && k in Init(t) && k != Last(t) && Recency(Init(t)) == a + [k] + b
    requires Distinct(b) == Distinct(Init(t)[LastUse(Init(t), k) + 1..])
    ensures Recency(t) == Without(a, Last(t)) + [k] + (Without(b, Last(t)) + [Last(t)])
    ensures k in t && Distinct(Without(b, Last(t)) + [Last(t)]) == Distinct(t[LastUse(t, k) + 1..])
  {
    LastUseSince(t, k);
    RecencyMove(a, k, b, Last(t));
  }

  lemma RecencyMove(a: seq<Key>, k: Key, b: seq<Key>, x: Key)
    requires x != k
    ensures Without(a + [k] + b, x) + [x] == Without(a, x) + [k] + (Without(b, x) + [x])
    ensures Distinct(Without(b, x) + [x]) == Distinct(b) + {x}
  {
    WithoutSplit(a + [k], b, x);
    WithoutSplit(a, [k], x);
    assert Without([k], x) == [k];
  }

  lemma {:induction false} DistinctSize(s: seq<Key>)
    requires NoDup(s)
    ensures |Distinct(s)| == |s|
  {
    if s != [] {
      assert NoDup(Init(s));
      DistinctSize(Init(s));
      assert Last(s) !in Init(s);
      assert s == Init(s) + [Last(s)];
      assert Distinct(s) == Distinct(Init(s)) + {Last(s)};
    }
  }

  lemma InLastN(older: seq<Key>, k: Key, newer: seq<Key>, c: nat)
    requires NoDup(older + [k] + newer)
    ensures k in LastN(older + [k] + newer, c) <==> |newer| < c
  {
    var r := older + [k] + newer;
    var l := LastN(r, c);
    assert r[|older|] == k;
    if |newer| < c {
      assert l[|l| - 1 - |newer|] == k;
    } else {
      forall j | 0 <= j < |l|
        ensures l[j] != k
      {
        assert l[j] == r[|r| - |l| + j];
      }
    }
  }

  /** Being among the `c` most recent keys is the same as the hit condition. */
  lemma HitIffRecent(t: seq<Key>, k: Key, c: nat)
    ensures k in LastN(Recency(t), c) <==> Hit(t, k, c)
  {
    RecencyKeys(t);
    if k in t {
      var older, newer := RecencySplit(t, k);
      NoDupSplit(older + [k], newer);
      DistinctSize(newer);
      InLastN(older, k, newer, c);
      assert |Distinct(t[LastUse(t, k) + 1..])| == |newer|;
    } else {
      NotInLastN(Recency(t), k, c);
    }
  }

  lemma NotInLastN(s: seq<Key>, k: Key, c: nat)
    requires k !in s
    ensures k !in LastN(s, c)
  {
  }

  /** One round of the loop body: what the OrderedDict holds afterwards. */
  function LruStep(cache: seq<Key>, k: Key, capacity: nat): (r: seq<Key>) {
    if k in cache then Without(cache, k) + [k] else LastN(cache + [k], capacity)
  }

  function LruCache(t: seq<Key>, capacity: nat): (r: seq<Key>) {
    if t == [] then [] else LruStep(LruCache(Init(t), capacity), Last(t), capacity)
  }

  lemma LastNDrop(a: seq<Key>, b: seq<Key>, c: nat)
    requires a == [] || |b| >= c
    ensures LastN(a + b, c) == LastN(b, c)
  {
    if a == [] {
      assert a + b == b;
    }
  }

  lemma NoDupSplit(a: seq<Key>, b: seq<Key>)
    requires NoDup(a + b)
    ensures NoDup(a) && NoDup(b)
    ensures forall x :: x in b ==> x !in a
  {
    var s := a + b;
    assert forall i :: 0 <= i < |a| ==> s[i] == a[i];
    assert forall i :: 0 <= i < |b| ==> s[|a| + i] == b[i];
  }

  lemma LruStepRecent(r: seq<Key>, k: Key, c: nat)
    requires NoDup(r) && c >= 1
    ensures LruStep(LastN(r, c), k, c) == LastN(Without(r, k) + [k], c)
  {
    var cache := LastN(r, c);
    var pre := r[..|r| - |cache|];
    assert r == pre + cache;
    NoDupSplit(pre, cache);
    WithoutNoDup(cache, k);
    LruStepSplit(pre, cache, k, c);
  }

  lemma LruStepSplit(pre: seq<Key>, cache: seq<Key>, k: Key, c: nat)
    requires |cache| <= c && (pre == [] || |cache| == c)
    requires k in cache ==> k !in pre && |Without(cache, k)| == |cache| - 1
    ensures LruStep(cache, k, c) == LastN(Without(pre + cache, k) + [k], c)
  {
    WithoutSplit(pre, cache, k);
    var kept := if k in cache then Without(cache, k) + [k] else cache + [k];
    assert Without(pre + cache, k) + [k] == Without(pre, k) + kept;
    LastNDrop(Without(pre, k), kept, c);
  }

  /** Stack property: the cache is the `capacity` most recently used keys in recency order. */
  lemma {:induction false} LruCacheIsMostRecent(t: seq<Key>, capacity: nat)
    requires capacity >= 1
    ensures LruCache(t, capacity) == LastN(Recency(t), capacity)
  {
    if t != [] {
      LruCacheIsMostRecent(Init(t), capacity);
      RecencyKeys(Init(t));
      LruStepRecent(Recency(Init(t)), Last(t), capacity);
    }
  }

  /** Recency order is the order of last uses. */
  lemma {:induction false} RecencyOrder(t: seq<Key>, i: nat, j: nat)
    requires i < j < |Recency(t)|
    ensures Recency(t)[i] in t && Recency(t)[j] in t
    ensures LastUse(t, Recency(t)[i]) < LastUse(t, Recency(t)[j])
  {
    RecencyKeys(t);
    var r := Recency(t);
    var older, newer := RecencySplit(t, r[i]);
    assert |older| == i by {
      assert r[|older|] == r[i];
    }
    assert r[j] == newer[j - i - 1];
    assert r[j] in Distinct(newer);
    var since := t[LastUse(t, r[i]) + 1..];
    assert r[j] in since;
    var m :| 0 <= m < |since| && since[m] == r[j];
    assert t[LastUse(t, r[i]) + 1 + m] == r[j];
    LastUseIsLast(t, r[j], LastUse(t, r[i]) + 1 + m);
  }

  /** Inclusion: a smaller LRU cache is a suffix of a larger one. */
  lemma LruInclusion(t: seq<Key>, c: nat, d: nat)
    requires 1 <= c <= d
    ensures var small, large := LruCache(t, c), LruCache(t, d);
            |small| <= |large| && small == large[|large| - |small|..]
  {
    LruCacheIsMostRecent(t, c);
    LruCacheIsMostRecent(t, d);
  }

  lemma {:induction false} LruHitsMonotone(t: seq<Key>, c: nat, d: nat)
    requires c <= d
    ensures LruHits(t, c) <= LruHits(t, d)
  {
    if t != [] {
      LruHitsMonotone(Init(t), c, d);
    }
  }

  lemma LruRound(t: seq<Key>, i: nat, capacity: nat)
    requires i < |t| && capacity >= 1
    ensures LruCache(t[..i + 1], capacity) == LruStep(LruCache(t[..i], capacity), t[i], capacity)
    ensures LruHits(t[..i + 1], capacity) == LruHits(t[..i], capacity) + if t[i] in LruCache(t[..i], capacity) then 1 else 0
  {
    assert Init(t[..i + 1]) == t[..i] && Last(t[..i + 1]) == t[i];
    LruCacheIsMostRecent(t[..i], capacity);
    HitIffRecent(t[..i], t[i], capacity);
  }

  /** Popping from the front until the cache fits. */
  method EvictOldest(cache: seq<Key>, capacity: nat) returns (kept: seq<Key>)
    ensures kept == LastN(cache, capacity)
  {
    kept := cache;
    while |kept| > capacity
      invariant |kept| <= |cache|
      invariant kept == cache[|cache| - |kept|..]
      invariant |kept| >= capacity || kept == cache
    {
      kept := kept[1..];
    }
  }

  method LruSim(requests: seq<Key>, capacity: int) returns (hits: nat, misses: nat)
    ensures capacity <= 0 ==> hits == 0 && misses == |requests|
    ensures capacity > 0 ==> hits == LruHits(requests, capacity) && misses == LruMisses(requests, capacity)
  {
    if capacity <= 0 {
      return 0, |requests|;
    }
    var cache: seq<Key> := [];
    hits, misses := 0, 0;
    for i := 0 to |requests|
      invariant cache == LruCache(requests[..i], capacity)
      invariant hits == LruHits(requests[..i], capacity)
      invariant hits + misses == i
    {
      LruRound(requests, i, capacity);
      var key := requests[i];
      if key in cache {
        hits := hits + 1;
        cache := Without(cache, key) + [key];
      } else {
        misses := misses + 1;
        cache := EvictOldest(cache + [key], capacity);
      }
    }
    assert requests[..|requests|] == requests;
  }

  // ---------------------------------------------------------------- demand caches

  ghost predicate DemandStep(cache: set<Key>, k: Key, c: nat, next: set<Key>) {
    k in next && next <= cache + {k} && |next| <= c
  }

  /** `run[i]` is the cache before request `i`: it starts empty, only ever gains the requested key,
      holds it afterwards, and never exceeds the capacity. */
  ghost predicate DemandRun(t: seq<Key>, c: nat, run: seq<set<Key>>) {
    && |run| == |t| + 1
    && run[0] == {}
    && forall i :: 0 <= i < |t| ==> DemandStep(run[i], t[i], c, run[i + 1])
  }

  ghost function Misses(t: seq<Key>, run: seq<set<Key>>): (m: nat)
    requires |run| == |t| + 1
    ensures m <= |t|
  {
    if t == [] then 0
    else Misses(Init(t), Init(run)) + if Last(t) in run[|t| - 1] then 0 else 1
  }

  lemma DemandRunInit(t: seq<Key>, c: nat, run: seq<set<Key>>)
    requires t != [] && DemandRun(t, c, run)
    ensures DemandRun(Init(t), c, Init(run))
  {
    forall i | 0 <= i < |Init(t)|
      ensures DemandStep(Init(run)[i], Init(t)[i], c, Init(run)[i + 1])
    {
      assert DemandStep(run[i], t[i], c, run[i + 1]);
    }
  }

  lemma SubsetSize(a: set<Key>, b: set<Key>)
    requires a <= b
    ensures |a| <= |b|
    ensures |a| == |b| ==> a == b
  {
    assert b == a + (b - a);
  }

  ghost predicate PhaseInv(t: seq<Key>, k: nat, run: seq<set<Key>>, p: nat, phase: nat, bound: set<Key>)
    requires |run| == |t| + 1
  {
    && p >= 1 && phase < |t| && |Distinct(t[phase..])| <= k
    && LruMisses(t, k) <= k * (p - 1) + |Distinct(t[phase..])|
    && Misses(t, run) >= p
    && (Misses(t, run) == p ==> Distinct(t[phase..]) <= bound && run[|t|] <= bound && |bound| <= k)
  }

  /** Phase argument. `phase` is where the current phase began, `p` counts phases; within a phase at most
      `k` distinct keys are requested, LRU misses each at most once, and every demand cache misses at
      least once between the starts of consecutive phases. */
  lemma {:induction false} Phases(t: seq<Key>, k: nat, run: seq<set<Key>>)
    returns (p: nat, phase: nat, bound: set<Key>)
    requires t != [] && k >= 1 && DemandRun(t, k, run)
    ensures PhaseInv(t, k, run, p, phase, bound)
  {
    if |t| == 1 {
      p, phase, bound := 1, 0, run[1];
      assert t[0..] == t && Distinct(t) == {t[0]};
      assert DemandStep(run[0], t[0], k, run[1]);
    } else {
      DemandRunInit(t, k, run);
      p, phase, bound := Phases(Init(t), k, Init(run));
      if Last(t) in Init(t)[phase..] || |Distinct(Init(t)[phase..])| < k {
        PhaseStay(t, k, run, p, phase, bound);
      } else {
        PhaseTurn(t, k, run, p, phase, bound);
        p, phase, bound := p + 1, |t| - 1, run[|t|];
      }
    }
  }

  lemma PhaseStay(t: seq<Key>, k: nat, run: seq<set<Key>>, p: nat, phase: nat, bound: set<Key>)
    requires |t| > 1 && DemandRun(t, k, run) && PhaseInv(Init(t), k, Init(run), p, phase, bound)
    requires Last(t) in Init(t)[phase..] || |Distinct(Init(t)[phase..])| < k
    ensures PhaseInv(t, k, run, p, phase, bound)
  {
    var past, x := Init(t), Last(t);
    assert DemandStep(run[|t| - 1], x, k, run[|t|]);
    assert t[phase..] == past[phase..] + [x];
    assert Distinct(t[phase..]) == Distinct(past[phase..]) + {x};
    if x in past[phase..] {
      PhaseHit(past, phase, x, k);
      assert Distinct(t[phase..]) == Distinct(past[phase..]);
    }
  }

  lemma PhaseTurn(t: seq<Key>, k: nat, run: seq<set<Key>>, p: nat, phase: nat, bound: set<Key>)
    requires |t| > 1 && DemandRun(t, k, run) && PhaseInv(Init(t), k, Init(run), p, phase, bound)
    requires Last(t) !in Init(t)[phase..] && |Distinct(Init(t)[phase..])| == k
    ensures PhaseInv(t, k, run, p + 1, |t| - 1, run[|t|])
  {
    var x := Last(t);
    NewPhase(Distinct(Init(t)[phase..]), bound, k, x);
    assert DemandStep(run[|t| - 1], x, k, run[|t|]);
    assert t[|t| - 1..] == [x] && Distinct([x]) == {x};
    assert k * p == k * (p - 1) + k;
  }

  lemma NewPhase(s: set<Key>, bound: set<Key>, k: nat, x: Key)
    requires |s| == k && x !in s
    ensures s <= bound && |bound| <= k ==> x !in bound
  {
    if s <= bound {
      SubsetSize(s, bound);
    }
  }

  lemma PhaseHit(past: seq<Key>, b: nat, x: Key, k: nat)
    requires b < |past| && x in past[b..] && |Distinct(past[b..])| <= k
    ensures Hit(past, x, k)
  {
    var j :| 0 <= j < |past[b..]| && past[b..][j] == x;
    assert past[b + j] == x;
    var u := LastUse(past, x);
    LastUseIsLast(past, x, b + j);
    var since := Distinct(past[u + 1..]);
    assert past[u + 1..] == past[b..][u + 1 - b..];
    SubsetSize(since, Distinct(past[b..]) - {x});
  }

  /** LRU is `k`-competitive against every demand cache of capacity `k`. */
  lemma LruCompetitive(t: seq<Key>, k: nat, run: seq<set<Key>>)
    requires k >= 1 && DemandRun(t, k, run)
    ensures LruMisses(t, k) <= k * Misses(t, run)
  {
    if t != [] {
      var p, phase, bound := Phases(t, k, run);
      Times(k, p, Misses(t, run));
    }
  }

  lemma Times(k: nat, p: nat, m: nat)
    requires p <= m
    ensures k * p <= k * m && (p > 0 ==> k * (p - 1) + k == k * p)
  {
    MulMono(p, m, k);
  }

  /** LRU is itself a demand cache. */
  ghost function LruRun(t: seq<Key>, k: nat): seq<set<Key>> {
    seq(|t| + 1, i requires 0 <= i <= |t| => Distinct(LruCache(t[..i], k)))
  }

  lemma LruCacheFacts(t: seq<Key>, k: nat)
    requires k >= 1 && t != []
    ensures |Distinct(LruCache(t, k))| <= k && Last(t) in LruCache(t, k)
  {
    LruCacheIsMostRecent(t, k);
    RecencyKeys(t);
    SuffixFacts(Recency(t), LruCache(t, k));
  }

  /** Serving a request brings in nothing but the key requested. */
  lemma LruCacheFetches(t: seq<Key>, k: nat)
    requires t != []
    ensures Distinct(LruCache(t, k)) <= Distinct(LruCache(Init(t), k)) + {Last(t)}
  {
  }

  /** A non-empty suffix of a sequence without repetitions: as many keys as places, and the same last one. */
  lemma SuffixFacts(r: seq<Key>, s: seq<Key>)
    requires 0 < |s| <= |r| && NoDup(r) && s == r[|r| - |s|..]
    ensures |Distinct(s)| == |s| && Last(s) == Last(r)
  {
    assert r == r[..|r| - |s|] + s;
    NoDupSplit(r[..|r| - |s|], s);
    DistinctSize(s);
  }

  lemma LruRunIsDemand(t: seq<Key>, k: nat)
    requires k >= 1
    ensures DemandRun(t, k, LruRun(t, k))
  {
    var run := LruRun(t, k);
    forall i | 0 <= i < |t|
      ensures DemandStep(run[i], t[i], k, run[i + 1])
    {
      assert Init(t[..i + 1]) == t[..i] && Last(t[..i + 1]) == t[i];
      LruCacheFacts(t[..i + 1], k);
      LruCacheFetches(t[..i + 1], k);
    }
  }

  lemma {:induction false} LruRunMisses(t: seq<Key>, k: nat)
    requires k >= 1
    ensures Misses(t, LruRun(t, k)) == LruMisses(t, k)
  {
    if t != [] {
      LruRunMisses(Init(t), k);
      assert forall i :: 0 <= i < |t| ==> Init(t)[..i] == t[..i];
      assert Init(LruRun(t, k)) == LruRun(Init(t), k);
      LruCacheIsMostRecent(Init(t), k);
      HitIffRecent(Init(t), Last(t), k);
      assert t[..|t| - 1] == Init(t);
    }
  }

  // ---------------------------------------------------------------- the clairvoyant simulator, as written

  /** `future.index(k)`, or one past the length when `k` does not come again. */
  function NextUse(future: seq<Key>, k: Key): (n: nat)
    ensures k in future ==> n < |future| && future[n] == k && k !in future[..n]
    ensures k !in future ==> n == |future| + 1
  {
    if k !in future then |future| + 1
    else if future[0] == k then 0
    else
      var n := NextUse(future[1..], k);
      assert future[..n + 1] == [future[0]] + future[1..][..n];
      n + 1
  }

  ghost predicate SoonestUsed(cache: set<Key>, future: seq<Key>, e: Key) {
    e in cache && forall k :: k in cache ==> NextUse(future, e) <= NextUse(future, k)
  }

  /** If any cached key comes again, the one given up is the one that comes first. */
  lemma FirstToReturn(cache: set<Key>, future: seq<Key>, e: Key, k: Key)
    requires SoonestUsed(cache, future, e) && k in cache && k in future
    ensures NextUse(future, e) < |future| && future[NextUse(future, e)] == e
    ensures forall j :: 0 <= j < NextUse(future, e) ==> future[j] !in cache
  {
    forall j | 0 <= j < NextUse(future, e)
      ensures future[j] !in cache
    {
      UsedBy(future, j);
    }
  }

  lemma {:induction false} UsedBy(future: seq<Key>, j: nat)
    requires j < |future|
    ensures NextUse(future, future[j]) <= j
  {
    if future[0] != future[j] {
      UsedBy(future[1..], j - 1);
    }
  }

  ghost predicate BeladyStep(cache: set<Key>, k: Key, future: seq<Key>, c: nat, next: set<Key>) {
    if k in cache then next == cache
    else if |cache| < c then next == cache + {k}
    else exists e :: SoonestUsed(cache, future, e) && next == cache - {e} + {k}
  }

  /** Every run the simulator can make; Python leaves the choice among equal minima to the set order. */
  ghost predicate BeladyRun(t: seq<Key>, c: nat, run: seq<set<Key>>) {
    && |run| == |t| + 1
    && run[0] == {}
    && forall i :: 0 <= i < |t| ==> BeladyStep(run[i], t[i], t[i + 1..], c, run[i + 1])
  }

  method MinNextUse(cache: set<Key>, future: seq<Key>) returns (e: Key)
    requires cache != {}
    ensures SoonestUsed(cache, future, e)
  {
    e :| e in cache;
    var rest := cache - {e};
    while rest != {}
      invariant rest <= cache && e in cache
      invariant forall k :: k in cache && k !in rest ==> NextUse(future, e) <= NextUse(future, k)
    {
      var k :| k in rest;
      if NextUse(future, k) < NextUse(future, e) {
        e := k;
      }
      rest := rest - {k};
    }
  }

  ghost predicate BeladyPrefix(t: seq<Key>, c: nat, run: seq<set<Key>>, n: nat) {
    && n <= |t| && |run| == n + 1
    && run[0] == {}
    && forall i :: 0 <= i < n ==> BeladyStep(run[i], t[i], t[i + 1..], c, run[i + 1])
  }

  lemma BeladyExtend(t: seq<Key>, c: nat, run: seq<set<Key>>, n: nat, next: set<Key>)
    requires n < |t| && BeladyPrefix(t, c, run, n) && BeladyStep(run[n], t[n], t[n + 1..], c, next)
    ensures BeladyPrefix(t, c, run + [next], n + 1)
    ensures Misses(t[..n + 1], run + [next]) == Misses(t[..n], run) + if t[n] in run[n] then 0 else 1
  {
    var longer := run + [next];
    forall i | 0 <= i < n + 1
      ensures BeladyStep(longer[i], t[i], t[i + 1..], c, longer[i + 1])
    {
      if i < n {
        assert BeladyStep(run[i], t[i], t[i + 1..], c, run[i + 1]);
      }
    }
    assert Init(t[..n + 1]) == t[..n] && Last(t[..n + 1]) == t[n] && Init(longer) == run;
  }

  method BeladySim(requests: seq<Key>, capacity: int) returns (hits: nat, misses: nat, ghost run: seq<set<Key>>)
    ensures hits + misses == |requests|
    ensures capacity <= 0 ==> hits == 0
    ensures capacity > 0 ==> BeladyRun(requests, capacity, run) && misses == Misses(requests, run)
    ensures capacity > 0 ==> LruMisses(requests, capacity) <= capacity * misses
  {
    run := [{}];
    if capacity <= 0 {
      return 0, |requests|, run;
    }
    var cache: set<Key> := {};
    hits, misses := 0, 0;
    for i := 0 to |requests|
      invariant BeladyPrefix(requests, capacity, run, i) && run[i] == cache && |cache| <= capacity
      invariant hits + misses == i
      invariant misses == Misses(requests[..i], run)
    {
      var key := requests[i];
      ghost var before := cache;
      if key in cache {
        hits := hits + 1;
      } else {
        misses := misses + 1;
        if |cache| < capacity {
          cache := cache + {key};
        } else {
          var evict := MinNextUse(cache, requests[i + 1..]);
          cache := cache - {evict} + {key};
        }
      }
      assert BeladyStep(before, key, requests[i + 1..], capacity, cache);
      BeladyExtend(requests, capacity, run, i, cache);
      run := run + [cache];
    }
    assert requests[..|requests|] == requests;
    BeladyRunIsDemand(requests, capacity, run);
    LruCompetitive(requests, capacity, run);
  }

  lemma BeladyRunIsDemand(t: seq<Key>, c: nat, run: seq<set<Key>>)
    requires c >= 1 && BeladyRun(t, c, run)
    ensures DemandRun(t, c, run)
  {
    BeladyRunSize(t, c, run, |t|);
  }

  lemma {:induction false} BeladyRunSize(t: seq<Key>, c: nat, run: seq<set<Key>>, n: nat)
    requires c >= 1 && BeladyRun(t, c, run) && n <= |t|
    ensures forall i :: 0 <= i <= n ==> |run[i]| <= c
  {
    if n > 0 {
      BeladyRunSize(t, c, run, n - 1);
      assert BeladyStep(run[n - 1], t[n - 1], t[n..], c, run[n]);
    }
  }

  // The file header calls the second simulator Belady's, whose misses would bound every cache from
  // below. It evicts the key needed soonest, and that bound holds for capacity 1 only.

  /** Keys 0 .. k, then k - 1 again. */
  function Revisit(k: nat): (t: seq<Key>)
    requires k >= 1
  {
    seq(k + 1, i requires 0 <= i <= k => Key(0, i)) + [Key(0, k - 1)]
  }

  lemma {:induction false} FreshPrefix(k: nat, n: nat)
    requires 1 <= k && n <= k + 1
    ensures LruHits(Revisit(k)[..n], k) == 0
    ensures forall x :: x in Revisit(k)[..n] <==> x.layer == 0 && x.expert < n
  {
    var t := Revisit(k);
    if n > 0 {
      FreshPrefix(k, n - 1);
      assert Init(t[..n]) == t[..n - 1] && Last(t[..n]) == Key(0, n - 1);
      assert t[..n] == t[..n - 1] + [Key(0, n - 1)];
    }
  }

  lemma RevisitLru(k: nat)
    requires k >= 2
    ensures LruMisses(Revisit(k), k) == k + 1
  {
    var t, x := Revisit(k), Key(0, k - 1);
    FreshPrefix(k, k + 1);
    assert Init(t) == t[..k + 1] && Last(t) == x;
    assert t[k - 1] == x && t[k] == Key(0, k);
    assert x in Init(t) by {
      assert Init(t)[k - 1] == x;
    }
    assert LastUse(Init(t), x) == k - 1 by {
      var u := LastUse(Init(t), x);
      assert Init(t)[u] == Key(0, u);
    }
    assert Init(t)[k..] == [Key(0, k)];
    assert Distinct(Init(t)[k..]) == {Key(0, k)};
  }

  /** The first `n` keys. */
  function KeysTo(n: nat): (s: set<Key>)
    ensures |s| == n && forall x :: x in s <==> x.layer == 0 && x.expert < n
  {
    if n == 0 then {} else KeysTo(n - 1) + {Key(0, n - 1)}
  }

  lemma {:induction false} RevisitFill(k: nat, run: seq<set<Key>>, n: nat)
    requires 1 <= k && n <= k && BeladyRun(Revisit(k), k, run)
    ensures run[n] == KeysTo(n)
    ensures Misses(Revisit(k)[..n], run[..n + 1]) == n
  {
    var t := Revisit(k);
    if n > 0 {
      RevisitFill(k, run, n - 1);
      assert BeladyStep(run[n - 1], t[n - 1], t[n..], k, run[n]);
      assert t[n - 1] == Key(0, n - 1);
      MissesStep(t, run, n - 1);
    }
  }

  /** The key needed next is the one evicted when the cache is full. */
  lemma RevisitEvicts(k: nat, run: seq<set<Key>>)
    requires 1 <= k && BeladyRun(Revisit(k), k, run)
    ensures Key(0, k) !in run[k] && Key(0, k - 1) !in run[k + 1]
  {
    var t, x := Revisit(k), Key(0, k - 1);
    RevisitFill(k, run, k);
    assert t[k] == Key(0, k) && t[k + 1..] == [x];
    assert BeladyStep(run[k], t[k], t[k + 1..], k, run[k + 1]);
    var e :| SoonestUsed(run[k], [x], e) && run[k + 1] == run[k] - {e} + {t[k]};
    assert x in run[k];
    NextIsSoonest(run[k], x, e);
  }

  lemma NextIsSoonest(cache: set<Key>, x: Key, e: Key)
    requires x in cache && SoonestUsed(cache, [x], e)
    ensures e == x
  {
    assert NextUse([x], x) == 0;
  }

  lemma MissesStep(t: seq<Key>, run: seq<set<Key>>, n: nat)
    requires n < |t| && |run| == |t| + 1
    ensures Misses(t[..n + 1], run[..n + 2]) == Misses(t[..n], run[..n + 1]) + if t[n] in run[n] then 0 else 1
  {
    assert Init(t[..n + 1]) == t[..n] && Init(run[..n + 2]) == run[..n + 1];
  }

  lemma RevisitBelady(k: nat, run: seq<set<Key>>)
    requires 1 <= k && BeladyRun(Revisit(k), k, run)
    ensures Misses(Revisit(k), run) == k + 2
  {
    RevisitFill(k, run, k);
    RevisitEvicts(k, run);
    LastTwoMissed(Revisit(k), run, k);
  }

  lemma LastTwoMissed(t: seq<Key>, run: seq<set<Key>>, k: nat)
    requires |t| == k + 2 && |run| == k + 3 && t[k] !in run[k] && t[k + 1] !in run[k + 1]
    requires Misses(t[..k], run[..k + 1]) == k
    ensures Misses(t, run) == k + 2
  {
    MissesStep(t, run, k);
    MissesStep(t, run, k + 1);
    AllMisses(t, run);
  }

  lemma AllMisses(t: seq<Key>, run: seq<set<Key>>)
    requires |run| == |t| + 1
    ensures Misses(t[..|t|], run[..|t| + 1]) == Misses(t, run)
  {
    assert t[..|t|] == t && run[..|t| + 1] == run;
  }

  lemma {:induction false} BeladyRunExists(t: seq<Key>, n: nat, c: nat) returns (run: seq<set<Key>>)
    requires c >= 1 && n <= |t|
    ensures BeladyPrefix(t, c, run, n) && |run[n]| <= c
  {
    if n == 0 {
      run := [{}];
    } else {
      var shorter := BeladyRunExists(t, n - 1, c);
      var next := BeladyStepExists(shorter[n - 1], t[n - 1], t[n..], c);
      run := BeladyNext(t, c, shorter, n, next);
    }
  }

  lemma BeladyNext(t: seq<Key>, c: nat, shorter: seq<set<Key>>, n: nat, next: set<Key>) returns (run: seq<set<Key>>)
    requires 0 < n <= |t| && BeladyPrefix(t, c, shorter, n - 1) && BeladyStep(shorter[n - 1], t[n - 1], t[n..], c, next)
    ensures BeladyPrefix(t, c, run, n) && run[n] == next
  {
    BeladyExtend(t, c, shorter, n - 1, next);
    run := shorter + [next];
  }

  lemma BeladyStepExists(cache: set<Key>, k: Key, future: seq<Key>, c: nat) returns (next: set<Key>)
    requires c >= 1 && |cache| <= c
    ensures BeladyStep(cache, k, future, c, next) && |next| <= c
  {
    if k in cache {
      next := cache;
    } else if |cache| < c {
      next := cache + {k};
    } else {
      var e := SoonestExists(cache, future);
      next := cache - {e} + {k};
    }
  }

  lemma {:induction false} SoonestExists(cache: set<Key>, future: seq<Key>) returns (e: Key)
    requires cache != {}
    ensures SoonestUsed(cache, future, e)
  {
    e :| e in cache;
    if cache != {e} {
      var f := SoonestExists(cache - {e}, future);
      e := if NextUse(future, f) < NextUse(future, e) then f else e;
    }
  }

  lemma {:induction false} SingleSlot(t: seq<Key>, run: seq<set<Key>>, other: seq<set<Key>>)
    requires DemandRun(t, 1, run) && DemandRun(t, 1, other)
    ensures run == other
  {
    forall i | 0 <= i < |t|
      ensures run[i + 1] == {t[i]} && other[i + 1] == {t[i]}
    {
      SubsetSize({t[i]}, run[i + 1]);
      SubsetSize({t[i]}, other[i + 1]);
    }
    forall i | 0 <= i <= |t|
      ensures run[i] == other[i]
    {
      if i > 0 {
        assert run[i - 1 + 1] == {t[i - 1]} && other[i - 1 + 1] == {t[i - 1]};
      }
    }
  }

  ghost predicate NeverBeaten(c: nat) {
    forall t, run, other :: BeladyRun(t, c, run) && DemandRun(t, c, other) ==> Misses(t, run) <= Misses(t, other)
  }

  /** The simulator as written is optimal on all traces for capacity 1 and for no other capacity. */
  lemma BeladyOptimalIff(c: nat)
    requires c >= 1
    ensures NeverBeaten(c) <==> c == 1
  {
    if c == 1 {
      forall t, run, other | BeladyRun(t, c, run) && DemandRun(t, c, other)
        ensures Misses(t, run) <= Misses(t, other)
      {
        BeladyRunIsDemand(t, c, run);
        SingleSlot(t, run, other);
      }
    } else {
      var t := Revisit(c);
      var run := BeladyRunExists(t, |t|, c);
      assert BeladyRun(t, c, run);
      LruBeatsBelady(c, run);
      assert !NeverBeaten(c);
    }
  }

  /** With two or more slots, LRU misses once less than the simulator on `Revisit`. */
  lemma LruBeatsBelady(c: nat, run: seq<set<Key>>)
    requires c >= 2 && BeladyRun(Revisit(c), c, run)
    ensures DemandRun(Revisit(c), c, LruRun(Revisit(c), c))
    ensures Misses(Revisit(c), LruRun(Revisit(c), c)) < Misses(Revisit(c), run)
  {
    LruRunIsDemand(Revisit(c), c);
    LruRunMisses(Revisit(c), c);
    RevisitLru(c);
    RevisitBelady(c, run);
  }
}
