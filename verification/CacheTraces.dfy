/** Whole runs of `BoundedCache`: lazy expiry cannot be observed, a larger cache holds whatever a smaller
    one does, and a recently used entry survives a burst of fewer new keys than the cache can hold. */
module CacheTraces {
  import opened Time
  import opened Wrappers
  import opened BoundedCache

  datatype Step<K, V> = Step(op: Op<K, V>, now: Instant, reply: Option<V>)

  ghost predicate EagerAt<K, V>(ms: seq<map<K, Entry<V>>>, steps: seq<Step<K, V>>, capacity: nat, ttl: nat, i: nat)
    requires |ms| == |steps| + 1 && i < |steps|
  {
    EagerOp(Alive(ms[i], ttl, steps[i].now), capacity, steps[i].op, steps[i].now, steps[i].reply, ms[i + 1])
  }

  /** Contents before and after each step of an eager cache. */
  ghost predicate EagerRun<K, V>(ms: seq<map<K, Entry<V>>>, steps: seq<Step<K, V>>, capacity: nat, ttl: nat) {
    && |ms| == |steps| + 1
    && forall i {:trigger EagerAt(ms, steps, capacity, ttl, i)} :: 0 <= i < |steps| ==> EagerAt(ms, steps, capacity, ttl, i)
  }

  /** Contents of the cache as it is, before and after each call, related as its methods promise. */
  ghost predicate LazyRun<K, V>(ds: seq<map<K, Entry<V>>>, steps: seq<Step<K, V>>, capacity: nat, ttl: nat) {
    && |ds| == |steps| + 1
    && forall i {:trigger steps[i]} :: 0 <= i < |steps| ==>
         EagerOp(Alive(ds[i], ttl, steps[i].now), capacity, steps[i].op, steps[i].now, steps[i].reply,
                 Alive(ds[i + 1], ttl, steps[i].now))
  }

  ghost predicate Ordered<K, V>(steps: seq<Step<K, V>>) {
    forall i, j :: 0 <= i < j < |steps| ==> steps[i].now <= steps[j].now
  }

  ghost predicate StrictlyOrdered<K, V>(steps: seq<Step<K, V>>) {
    forall i, j :: 0 <= i < j < |steps| ==> steps[i].now < steps[j].now
  }

  lemma AliveLater<K, V>(m: map<K, Entry<V>>, ttl: nat, t: Instant, u: Instant)
    requires t <= u
    ensures Alive(Alive(m, ttl, t), ttl, u) == Alive(m, ttl, u)
  {
  }

  /** What a lazy cache really holds before step `i`, at the time of the step before. */
  ghost function Held<K, V>(ds: seq<map<K, Entry<V>>>, steps: seq<Step<K, V>>, ttl: nat, i: nat): map<K, Entry<V>>
    requires |ds| == |steps| + 1 && i < |ds|
  {
    if i == 0 then ds[0] else Alive(ds[i], ttl, steps[i - 1].now)
  }

  lemma HeldLater<K, V>(ds: seq<map<K, Entry<V>>>, steps: seq<Step<K, V>>, ttl: nat, i: nat, t: Instant)
    requires |ds| == |steps| + 1 && i < |ds| && (i > 0 ==> steps[i - 1].now <= t)
    ensures Alive(Held(ds, steps, ttl, i), ttl, t) == Alive(ds[i], ttl, t)
  {
    if i > 0 { AliveLater(ds[i], ttl, steps[i - 1].now, t); }
  }

  /** Every run of the lazy cache is, reply for reply, a run of the eager one. */
  lemma LazyRunIsEager<K, V>(ds: seq<map<K, Entry<V>>>, steps: seq<Step<K, V>>, capacity: nat, ttl: nat)
    returns (ms: seq<map<K, Entry<V>>>)
    requires LazyRun(ds, steps, capacity, ttl) && Ordered(steps)
    ensures EagerRun(ms, steps, capacity, ttl) && ms[0] == ds[0]
    ensures forall i :: 0 <= i < |ms| ==> ms[i] == Held(ds, steps, ttl, i)
  {
    ms := seq(|ds|, i requires 0 <= i < |ds| => Held(ds, steps, ttl, i));
    hide Alive, EagerOp, Held;
    forall i | 0 <= i < |steps| ensures EagerAt(ms, steps, capacity, ttl, i) {
      assert i > 0 ==> steps[i - 1].now <= steps[i].now;
      HeldLater(ds, steps, ttl, i, steps[i].now);
      HeldNext(ds, steps, ttl, i);
    }
    HeldFirst(ds, steps, ttl);
  }

  lemma HeldNext<K, V>(ds: seq<map<K, Entry<V>>>, steps: seq<Step<K, V>>, ttl: nat, i: nat)
    requires |ds| == |steps| + 1 && i < |steps|
    ensures Held(ds, steps, ttl, i + 1) == Alive(ds[i + 1], ttl, steps[i].now)
  {
  }

  lemma HeldFirst<K, V>(ds: seq<map<K, Entry<V>>>, steps: seq<Step<K, V>>, ttl: nat)
    requires |ds| == |steps| + 1
    ensures Held(ds, steps, ttl, 0) == ds[0]
  {
  }

  // --- Determinism under a strict clock --------------------------------------------------------

  /** No two entries were last used at the same instant, and all before `now`. */
  ghost predicate Stamped<K, V>(m: map<K, Entry<V>>, now: Instant) {
    && (forall k <- m :: m[k].lastAccess < now)
    && (forall j <- m, k <- m :: j != k ==> m[j].lastAccess != m[k].lastAccess)
  }

  lemma OldestUnique<K, V>(m: map<K, Entry<V>>, now: Instant, j: K, k: K)
    requires Stamped(m, now) && IsOldest(m, j) && IsOldest(m, k)
    ensures j == k
  {
  }

  lemma StepStamps<K, V>(m: map<K, Entry<V>>, ttl: nat, capacity: nat, step: Step<K, V>, m': map<K, Entry<V>>, later: Instant)
    requires Stamped(m, step.now) && step.now < later
    requires EagerOp(Alive(m, ttl, step.now), capacity, step.op, step.now, step.reply, m')
    ensures Stamped(m', later)
  {
  }

  /** With strictly increasing times an eager step has only one answer and one outcome. */
  lemma StepDeterministic<K, V>(m: map<K, Entry<V>>, ttl: nat, capacity: nat, op: Op<K, V>, now: Instant,
                                r1: Option<V>, m1: map<K, Entry<V>>, r2: Option<V>, m2: map<K, Entry<V>>)
    requires Stamped(m, now)
    requires EagerOp(Alive(m, ttl, now), capacity, op, now, r1, m1)
    requires EagerOp(Alive(m, ttl, now), capacity, op, now, r2, m2)
    ensures r1 == r2 && m1 == m2
  {
    var live := Alive(m, ttl, now);
    forall j, k | IsOldest(live, j) && IsOldest(live, k) ensures j == k { OldestUnique(live, now, j, k); }
  }

  ghost predicate SameCalls<K, V>(a: seq<Step<K, V>>, b: seq<Step<K, V>>) {
    |a| == |b| && forall i :: 0 <= i < |a| ==> a[i].op == b[i].op && a[i].now == b[i].now
  }

  lemma {:induction false} RunsCoincide<K, V>(ms: seq<map<K, Entry<V>>>, a: seq<Step<K, V>>, ns: seq<map<K, Entry<V>>>,
                                             b: seq<Step<K, V>>, capacity: nat, ttl: nat, i: nat)
    requires EagerRun(ms, a, capacity, ttl) && EagerRun(ns, b, capacity, ttl) && SameCalls(a, b)
    requires StrictlyOrdered(a) && ms[0] == map[] && ns[0] == map[] && i <= |a|
    ensures ms[i] == ns[i] && (i < |a| ==> Stamped(ms[i], a[i].now) && a[i].reply == b[i].reply)
  {
    if i > 0 {
      RunsCoincide(ms, a, ns, b, capacity, ttl, i - 1);
      assert EagerAt(ms, a, capacity, ttl, i - 1) && EagerAt(ns, b, capacity, ttl, i - 1);
      StepDeterministic(ms[i - 1], ttl, capacity, a[i - 1].op, a[i - 1].now, a[i - 1].reply, ms[i], b[i - 1].reply, ns[i]);
      if i < |a| { StepStamps(ms[i - 1], ttl, capacity, a[i - 1], ms[i], a[i].now); }
    }
    if i < |a| {
      assert EagerAt(ms, a, capacity, ttl, i) && EagerAt(ns, b, capacity, ttl, i);
      StepDeterministicHere(ms[i], ttl, capacity, a[i], ms[i + 1], b[i], ns[i + 1]);
    }
  }

  lemma StepDeterministicHere<K, V>(m: map<K, Entry<V>>, ttl: nat, capacity: nat, a: Step<K, V>, m1: map<K, Entry<V>>,
                                    b: Step<K, V>, m2: map<K, Entry<V>>)
    requires Stamped(m, a.now) && a.op == b.op && a.now == b.now
    requires EagerOp(Alive(m, ttl, a.now), capacity, a.op, a.now, a.reply, m1)
    requires EagerOp(Alive(m, ttl, b.now), capacity, b.op, b.now, b.reply, m2)
    ensures a.reply == b.reply
  {
    StepDeterministic(m, ttl, capacity, a.op, a.now, a.reply, m1, b.reply, m2);
  }

  /** For every run with strictly increasing times the cache gives exactly the answers of the eager LRU map:
      no other run of that map on the same calls answers differently. */
  lemma LazinessUnobservable<K, V>(ds: seq<map<K, Entry<V>>>, a: seq<Step<K, V>>, ns: seq<map<K, Entry<V>>>,
                                   b: seq<Step<K, V>>, capacity: nat, ttl: nat)
    requires LazyRun(ds, a, capacity, ttl) && EagerRun(ns, b, capacity, ttl) && SameCalls(a, b)
    requires StrictlyOrdered(a) && ds[0] == map[] && ns[0] == map[]
    ensures a == b
  {
    assert Ordered(a);
    var ms := LazyRunIsEager(ds, a, capacity, ttl);
    forall i | 0 <= i < |a| ensures a[i] == b[i] {
      RunsCoincide(ms, a, ns, b, capacity, ttl, i);
    }
  }

  // --- A larger cache holds whatever a smaller one does ----------------------------------------

  /** Every key of the smaller cache is in the larger one, and the larger one holds no more extra keys than it
      has extra room. */
  ghost predicate Fits<K>(small: set<K>, n: nat, large: set<K>, big: nat) {
    small <= large && |small| <= n <= big && |large| <= big && |large - small| <= big - n
  }

  /** Besides, they were last used at the same instant. */
  ghost predicate Included<K, V>(small: map<K, Entry<V>>, n: nat, large: map<K, Entry<V>>, big: nat) {
    && Fits(small.Keys, n, large.Keys, big)
    && forall k <- small :: small[k].lastAccess == large[k].lastAccess
  }

  lemma AliveIncluded<K, V>(small: map<K, Entry<V>>, n: nat, large: map<K, Entry<V>>, big: nat, ttl: nat, now: Instant)
    requires Included(small, n, large, big)
    ensures Included(Alive(small, ttl, now), n, Alive(large, ttl, now), big)
  {
    SubsetSizes(Alive(small, ttl, now).Keys, small.Keys);
    SubsetSizes(Alive(large, ttl, now).Keys, large.Keys);
    SubsetSizes(Alive(large, ttl, now).Keys - Alive(small, ttl, now).Keys, large.Keys - small.Keys);
  }

  lemma Swapped<K>(s: set<K>, x: K, k: K)
    requires k !in s
    ensures |s + {k}| == |s| + 1
    ensures x in s ==> |s - {x}| == |s| - 1 && |(s - {x}) + {k}| == |s|
  {
  }

  /** `s` once `k` has been stored, at the price of `x` if there is one. */
  ghost function After<K>(s: set<K>, x: Option<K>, k: K): set<K> {
    if x.Some? then (s - {x.value}) + {k} else s + {k}
  }

  /** The smaller cache gets `k` late, with or without evicting `x`. */
  lemma FitsLate<K>(small: set<K>, n: nat, large: set<K>, big: nat, k: K, x: Option<K>)
    requires Fits(small, n, large, big) && k in large && k !in small
    requires if x.Some? then x.value in small else |small| < n
    ensures Fits(After(small, x, k), n, large, big)
  {
    var extra := large - small;
    assert |extra - {k}| == |extra| - 1;
    if x.Some? {
      Swapped(small, x.value, k);
      assert large - After(small, x, k) == (extra - {k}) + {x.value};
    } else {
      Swapped(small, k, k);
      assert large - After(small, x, k) == extra - {k};
    }
  }

  /** Both caches get `k`; the larger one still has room. */
  lemma FitsNew<K>(small: set<K>, n: nat, large: set<K>, big: nat, k: K, x: Option<K>)
    requires Fits(small, n, large, big) && k !in large && |large| < big
    requires if x.Some? then x.value in small && |small| == n else |small| < n
    ensures Fits(After(small, x, k), n, large + {k}, big)
  {
    var extra := large - small;
    assert large == small + extra;
    Swapped(large, k, k);
    if x.Some? {
      Swapped(small, x.value, k);
      assert (large + {k}) - After(small, x, k) == extra + {x.value};
    } else {
      Swapped(small, k, k);
      assert (large + {k}) - After(small, x, k) == extra;
    }
  }

  /** Both caches evict for `k`: the larger one is full only when the smaller one is. */
  lemma FitsFull<K>(small: set<K>, n: nat, large: set<K>, big: nat, k: K, x: K, y: K)
    requires Fits(small, n, large, big) && k !in large && |large| == big && x in small && y in large && (y in small ==> y == x)
    ensures Fits((small - {x}) + {k}, n, (large - {y}) + {k}, big)
  {
    Swapped(small, x, k);
    Swapped(large, y, k);
    var extra := large - small;
    if y == x {
      assert ((large - {y}) + {k}) - ((small - {x}) + {k}) == extra;
    } else {
      assert ((large - {y}) + {k}) - ((small - {x}) + {k}) == (extra - {y}) + {x};
      assert |extra - {y}| == |extra| - 1;
    }
  }

  lemma FullTogether<K>(small: set<K>, n: nat, large: set<K>, big: nat)
    requires Fits(small, n, large, big) && |large| == big
    ensures |small| == n
  {
    assert large == small + (large - small);
  }

  /** The keys after storing under `k`. */
  lemma StoredKeys<K, V>(m: map<K, Entry<V>>, capacity: nat, k: K, e: Entry<V>, m': map<K, Entry<V>>)
    returns (victim: Option<K>)
    requires Stored(m, capacity, k, e, m')
    ensures victim.None? <==> k in m || |m.Keys| < capacity
    ensures victim.None? ==> m' == m[k := e]
    ensures victim.Some? ==> victim.value in m && IsOldest(m, victim.value) && m' == (m - {victim.value})[k := e]
    ensures m'.Keys == After(m.Keys, victim, k)
  {
    assert |m.Keys| == |m|;
    if k in m || |m| < capacity {
      victim := None;
    } else {
      var x :| x in m.Keys && IsOldest(m, x) && m' == (m - {x})[k := e];
      victim := Some(x);
    }
  }

  lemma StoredFits<K>(small: set<K>, n: nat, large: set<K>, big: nat, k: K, x: Option<K>, y: Option<K>)
    requires Fits(small, n, large, big)
    requires x.None? <==> k in small || |small| < n
    requires y.None? <==> k in large || |large| < big
    requires (x.Some? ==> x.value in small) && (y.Some? ==> y.value in large)
    requires x.Some? && y.Some? && y.value in small ==> y == x
    ensures Fits(After(small, x, k), n, After(large, y, k), big)
  {
    if k in large {
      assert After(large, y, k) == large;
      if k in small { assert After(small, x, k) == small; } else { FitsLate(small, n, large, big, k, x); }
    } else if |large| < big {
      FitsNew(small, n, large, big, k, x);
    } else {
      FullTogether(small, n, large, big);
      FitsFull(small, n, large, big, k, x.value, y.value);
    }
  }

  lemma StoredTimes<K, V>(small: map<K, Entry<V>>, large: map<K, Entry<V>>, k: K, e: Entry<V>, f: Entry<V>, x: Option<K>,
                          y: Option<K>, small': map<K, Entry<V>>, large': map<K, Entry<V>>)
    requires forall j <- small :: j in large && small[j].lastAccess == large[j].lastAccess
    requires e.lastAccess == f.lastAccess
    requires small' == if x.Some? then (small - {x.value})[k := e] else small[k := e]
    requires large' == if y.Some? then (large - {y.value})[k := f] else large[k := f]
    requires y.Some? && y.value in small ==> y == x
    ensures forall j <- small' :: j in large' && small'[j].lastAccess == large'[j].lastAccess
  {
  }

  /** Both store under `k` with the same time of use. */
  lemma StoredIncluded<K, V>(small: map<K, Entry<V>>, n: nat, large: map<K, Entry<V>>, big: nat, k: K, e: Entry<V>, f: Entry<V>,
                             small': map<K, Entry<V>>, large': map<K, Entry<V>>)
    requires Included(small, n, large, big) && 1 <= n && e.lastAccess == f.lastAccess
    requires Stored(small, n, k, e, small') && Stored(large, big, k, f, large')
    requires forall i <- large, j <- large :: i != j ==> large[i].lastAccess != large[j].lastAccess
    ensures Included(small', n, large', big)
  {
    var x := StoredKeys(small, n, k, e, small');
    var y := StoredKeys(large, big, k, f, large');
    if y.Some? && y.value in small {
      assert |large.Keys| == big;
      FullTogether(small.Keys, n, large.Keys, big);
      assert y == x;
    }
    hide Stored, IsOldest, After;
    StoredFits(small.Keys, n, large.Keys, big, k, x, y);
    StoredTimes(small, large, k, e, f, x, y, small', large');
  }

  lemma StepIncluded<K, V>(small: map<K, Entry<V>>, n: nat, large: map<K, Entry<V>>, big: nat, op: Op<K, V>, now: Instant,
                           r: Option<V>, small': map<K, Entry<V>>, q: Option<V>, large': map<K, Entry<V>>)
    requires Included(small, n, large, big) && 1 <= n && Stamped(large, now)
    requires EagerOp(small, n, op, now, r, small') && EagerOp(large, big, op, now, q, large')
    ensures Included(small', n, large', big)
    ensures op.Get? && r.Some? ==> q.Some?
  {
    var k := op.key;
    if op.Get? {
      if k in large { assert large'.Keys == large.Keys; }
      if k in small { assert small'.Keys == small.Keys; }
    } else {
      var e, f := Entry(if op.Insert? then op.value else r.value, now), Entry(if op.Insert? then op.value else q.value, now);
      StoredIncluded(small, n, large, big, k, e, f, small', large');
    }
  }

  /** On the same calls at strictly increasing times, the live keys of a smaller cache are always among those
      of a larger one, last used at the same instants. */
  lemma {:induction false} LargerHoldsMore<K, V>(ms: seq<map<K, Entry<V>>>, a: seq<Step<K, V>>, n: nat,
                                                ns: seq<map<K, Entry<V>>>, b: seq<Step<K, V>>, big: nat, ttl: nat, i: nat)
    requires EagerRun(ms, a, n, ttl) && EagerRun(ns, b, big, ttl) && SameCalls(a, b) && StrictlyOrdered(a)
    requires 1 <= n <= big && ms[0] == map[] && ns[0] == map[] && i <= |a|
    ensures Included(ms[i], n, ns[i], big)
    ensures i < |a| ==> Stamped(ns[i], a[i].now)
  {
    if i > 0 {
      var j := i - 1;
      assert i < |a| ==> a[j].now < a[i].now;
      assert |ms| == |a| + 1 && |ns| == |b| + 1 && |a| == |b|;
      hide *;
      StepsOf(ms, a, n, ns, b, big, ttl, j);
      LargerHoldsMore(ms, a, n, ns, b, big, ttl, j);
      AliveIncluded(ms[j], n, ns[j], big, ttl, a[j].now);
      AliveStamped(ns[j], ttl, a[j].now);
      StepIncluded(Alive(ms[j], ttl, a[j].now), n, Alive(ns[j], ttl, a[j].now), big, a[j].op, a[j].now,
                   a[j].reply, ms[i], b[j].reply, ns[i]);
      if i < |a| { StepStamps(ns[j], ttl, big, b[j], ns[i], a[i].now); }
    }
  }

  lemma AliveStamped<K, V>(m: map<K, Entry<V>>, ttl: nat, now: Instant)
    requires Stamped(m, now)
    ensures Stamped(Alive(m, ttl, now), now)
  {
  }

  /** The same of the caches as they are: at any time after `i` calls, what a reader could find in the smaller
      cache it could find in the larger one, equally recent. */
  lemma LargerCacheHoldsMore<K, V>(ds: seq<map<K, Entry<V>>>, a: seq<Step<K, V>>, n: nat,
                                   es: seq<map<K, Entry<V>>>, b: seq<Step<K, V>>, big: nat, ttl: nat, i: nat, t: Instant)
    requires LazyRun(ds, a, n, ttl) && LazyRun(es, b, big, ttl) && SameCalls(a, b) && StrictlyOrdered(a)
    requires 1 <= n <= big && ds[0] == map[] && es[0] == map[] && i <= |a| && (i > 0 ==> a[i - 1].now <= t)
    ensures Alive(ds[i], ttl, t).Keys <= Alive(es[i], ttl, t).Keys
    ensures forall k <- Alive(ds[i], ttl, t) :: ds[i][k].lastAccess == es[i][k].lastAccess
  {
    assert Ordered(a) && Ordered(b);
    var ms := LazyRunIsEager(ds, a, n, ttl);
    var ns := LazyRunIsEager(es, b, big, ttl);
    LargerHoldsMore(ms, a, n, ns, b, big, ttl, i);
    HeldLater(ds, a, ttl, i, t);
    HeldLater(es, b, ttl, i, t);
    AliveIncluded(ms[i], n, ns[i], big, ttl, t);
    assert Alive(ms[i], ttl, t) == Alive(ds[i], ttl, t) && Alive(ns[i], ttl, t) == Alive(es[i], ttl, t);
  }

  ghost predicate SameValues<K, V>(small: map<K, Entry<V>>, large: map<K, Entry<V>>) {
    forall k <- small :: k in large && small[k].value == large[k].value
  }

  lemma StepSameValues<K, V>(small: map<K, Entry<V>>, n: nat, large: map<K, Entry<V>>, big: nat, op: Op<K, V>, now: Instant,
                             r: Option<V>, small': map<K, Entry<V>>, q: Option<V>, large': map<K, Entry<V>>)
    requires SameValues(small, large) && !op.GetOrInsert? && small'.Keys <= large'.Keys
    requires EagerOp(small, n, op, now, r, small') && EagerOp(large, big, op, now, q, large')
    ensures SameValues(small', large')
    ensures r.Some? ==> q == r
  {
  }

  ghost predicate InsertsOnly<K, V>(steps: seq<Step<K, V>>) {
    forall i :: 0 <= i < |steps| ==> !steps[i].op.GetOrInsert?
  }

  lemma StepAnswersAlike<K, V>(ms: seq<map<K, Entry<V>>>, a: seq<Step<K, V>>, n: nat,
                               ns: seq<map<K, Entry<V>>>, b: seq<Step<K, V>>, big: nat, ttl: nat, j: nat)
    requires EagerRun(ms, a, n, ttl) && EagerRun(ns, b, big, ttl) && SameCalls(a, b) && StrictlyOrdered(a)
    requires 1 <= n <= big && ms[0] == map[] && ns[0] == map[] && j < |a|
    requires !a[j].op.GetOrInsert? && SameValues(ms[j], ns[j])
    ensures SameValues(ms[j + 1], ns[j + 1])
    ensures a[j].reply.Some? ==> b[j].reply == a[j].reply
  {
    hide *;
    StepsOf(ms, a, n, ns, b, big, ttl, j);
    LargerHoldsMore(ms, a, n, ns, b, big, ttl, j);
    LargerHoldsMore(ms, a, n, ns, b, big, ttl, j + 1);
    AnswersAlike(ms[j], n, ns[j], big, ttl, a[j].op, a[j].now, a[j].reply, ms[j + 1], b[j].reply, ns[j + 1]);
  }

  /** As long as values only come from inserts, whatever a smaller cache answers a larger one answers too. */
  lemma {:induction false} LargerAnswersAlike<K, V>(ms: seq<map<K, Entry<V>>>, a: seq<Step<K, V>>, n: nat,
                                                   ns: seq<map<K, Entry<V>>>, b: seq<Step<K, V>>, big: nat, ttl: nat, i: nat)
    requires EagerRun(ms, a, n, ttl) && EagerRun(ns, b, big, ttl) && SameCalls(a, b) && StrictlyOrdered(a)
    requires 1 <= n <= big && ms[0] == map[] && ns[0] == map[] && i <= |a|
    requires InsertsOnly(a)
    ensures SameValues(ms[i], ns[i])
    ensures i > 0 && a[i - 1].reply.Some? ==> b[i - 1].reply == a[i - 1].reply
  {
    assert |ms| == |a| + 1 && |ns| == |b| + 1 && |a| == |b|;
    assert i > 0 ==> !a[i - 1].op.GetOrInsert?;
    hide *;
    if i == 0 {
      NoValues(ms[0], ns[0]);
    } else {
      LargerAnswersAlike(ms, a, n, ns, b, big, ttl, i - 1);
      StepAnswersAlike(ms, a, n, ns, b, big, ttl, i - 1);
    }
  }

  lemma StepsOf<K, V>(ms: seq<map<K, Entry<V>>>, a: seq<Step<K, V>>, n: nat,
                      ns: seq<map<K, Entry<V>>>, b: seq<Step<K, V>>, big: nat, ttl: nat, j: nat)
    requires EagerRun(ms, a, n, ttl) && EagerRun(ns, b, big, ttl) && SameCalls(a, b) && j < |a|
    ensures |ms| == |ns| == |a| + 1 && |b| == |a| && a[j].op == b[j].op && a[j].now == b[j].now
    ensures EagerOp(Alive(ms[j], ttl, a[j].now), n, a[j].op, a[j].now, a[j].reply, ms[j + 1])
    ensures EagerOp(Alive(ns[j], ttl, b[j].now), big, b[j].op, b[j].now, b[j].reply, ns[j + 1])
  {
    assert EagerAt(ms, a, n, ttl, j) && EagerAt(ns, b, big, ttl, j);
  }

  lemma NoValues<K, V>(small: map<K, Entry<V>>, large: map<K, Entry<V>>)
    requires small == map[]
    ensures SameValues(small, large)
  {
  }

  lemma AnswersAlike<K, V>(small: map<K, Entry<V>>, n: nat, large: map<K, Entry<V>>, big: nat, ttl: nat, op: Op<K, V>, now: Instant,
                           r: Option<V>, small': map<K, Entry<V>>, q: Option<V>, large': map<K, Entry<V>>)
    requires Included(small, n, large, big) && SameValues(small, large) && Included(small', n, large', big) && !op.GetOrInsert?
    requires EagerOp(Alive(small, ttl, now), n, op, now, r, small')
    requires EagerOp(Alive(large, ttl, now), big, op, now, q, large')
    ensures SameValues(small', large')
    ensures r.Some? ==> q == r
  {
    IncludedKeys(small', n, large', big);
    AliveSameValues(small, n, large, big, ttl, now);
    StepSameValues(Alive(small, ttl, now), n, Alive(large, ttl, now), big, op, now, r, small', q, large');
  }

  lemma IncludedKeys<K, V>(small: map<K, Entry<V>>, n: nat, large: map<K, Entry<V>>, big: nat)
    requires Included(small, n, large, big)
    ensures small.Keys <= large.Keys
  {
  }

  lemma AliveSameValues<K, V>(small: map<K, Entry<V>>, n: nat, large: map<K, Entry<V>>, big: nat, ttl: nat, now: Instant)
    requires Included(small, n, large, big) && SameValues(small, large)
    ensures SameValues(Alive(small, ttl, now), Alive(large, ttl, now))
  {
  }

  // --- Survival ------------------------------------------------------------------------------

  /** The keys other than `k` that a run touches. */
  ghost function Others<K, V>(steps: seq<Step<K, V>>, k: K): set<K> {
    set i | 0 <= i < |steps| && steps[i].op.key != k :: steps[i].op.key
  }

  /** `k` holds `v`, was last used no earlier than `t`, and whatever was used after `t` is among `others`. */
  ghost predicate Holds<K, V>(m: map<K, Entry<V>>, k: K, v: V, t: Instant, others: set<K>) {
    && k in m && m[k].value == v && m[k].lastAccess >= t
    && forall j <- m :: j != k && m[j].lastAccess > t ==> j in others
  }

  lemma NotEvicted<K, V>(live: map<K, Entry<V>>, now: Instant, k: K, v: V, t: Instant, others: set<K>, d: K, capacity: nat)
    requires Stamped(live, now) && Holds(live, k, v, t, others) && d !in live && d in others && |others| < capacity
    requires |live| >= capacity
    ensures !IsOldest(live, k)
  {
    if IsOldest(live, k) {
      var room := {k} + (others - {d});
      assert |room| <= 1 + |others - {d}| && |others - {d}| == |others| - 1;
      assert |live.Keys| == |live|;
      SubsetSizes(live.Keys, room);
    }
  }

  lemma StepHolds<K, V>(m: map<K, Entry<V>>, ttl: nat, capacity: nat, step: Step<K, V>, m': map<K, Entry<V>>,
                        k: K, v: V, t: Instant, others: set<K>)
    requires Stamped(m, step.now) && Holds(m, k, v, t, others) && |others| < capacity
    requires t < step.now <= t + ttl && !(step.op.Insert? && step.op.key == k)
    requires step.op.key == k || step.op.key in others
    requires EagerOp(Alive(m, ttl, step.now), capacity, step.op, step.now, step.reply, m')
    ensures Holds(m', k, v, t, others)
    ensures step.op.key == k ==> step.reply == Some(v)
  {
    var live := Alive(m, ttl, step.now);
    assert Holds(live, k, v, t, others);
    AliveStamped(m, ttl, step.now);
    if step.op.key !in live && |live| >= capacity {
      NotEvicted(live, step.now, k, v, t, others, step.op.key, capacity);
    }
  }

  lemma {:induction false} SurvivesEager<K, V>(ms: seq<map<K, Entry<V>>>, steps: seq<Step<K, V>>, capacity: nat, ttl: nat,
                                              k: K, v: V, t: Instant, i: nat)
    requires EagerRun(ms, steps, capacity, ttl) && StrictlyOrdered(steps) && i <= |steps|
    requires Stamped(ms[0], t + 1) && k in ms[0] && ms[0][k] == Entry(v, t)
    requires |Others(steps, k)| < capacity
    requires forall j :: 0 <= j < |steps| ==> t < steps[j].now <= t + ttl && !(steps[j].op.Insert? && steps[j].op.key == k)
    ensures Holds(ms[i], k, v, t, Others(steps, k))
    ensures i < |steps| ==> Stamped(ms[i], steps[i].now)
    ensures i > 0 && steps[i - 1].op.key == k ==> steps[i - 1].reply == Some(v)
  {
    if i > 0 {
      var j := i - 1;
      SurvivesEager(ms, steps, capacity, ttl, k, v, t, j);
      assert EagerAt(ms, steps, capacity, ttl, j);
      assert steps[j].op.key == k || steps[j].op.key in Others(steps, k);
      StepHolds(ms[j], ttl, capacity, steps[j], ms[i], k, v, t, Others(steps, k));
      if i < |steps| { StepStamps(ms[j], ttl, capacity, steps[j], ms[i], steps[i].now); }
    }
  }

  /** An entry just used at `t` stays, with its value, through any run that stays within its time to live, does
      not overwrite it, and touches fewer other keys than the cache can hold. */
  lemma RecentEntrySurvives<K, V>(ds: seq<map<K, Entry<V>>>, steps: seq<Step<K, V>>, capacity: nat, ttl: nat,
                                  k: K, v: V, t: Instant, i: nat, now: Instant)
    requires LazyRun(ds, steps, capacity, ttl) && StrictlyOrdered(steps) && i <= |steps|
    requires Stamped(ds[0], t + 1) && k in ds[0] && ds[0][k] == Entry(v, t)
    requires |Others(steps, k)| < capacity
    requires forall j :: 0 <= j < |steps| ==> t < steps[j].now <= t + ttl && !(steps[j].op.Insert? && steps[j].op.key == k)
    requires t <= now <= t + ttl && (i > 0 ==> steps[i - 1].now <= now)
    ensures k in Alive(ds[i], ttl, now) && ds[i][k].value == v
    ensures i > 0 && steps[i - 1].op.key == k ==> steps[i - 1].reply == Some(v)
  {
    assert Ordered(steps);
    var ms := LazyRunIsEager(ds, steps, capacity, ttl);
    SurvivesEager(ms, steps, capacity, ttl, k, v, t, i);
    HeldLater(ds, steps, ttl, i, now);
    assert k in Alive(ms[i], ttl, now);
  }
}
