/** The whole behaviour of `BoundedCache` in terms of its calls: a key is found exactly if it was last used no longer
    ago than the time to live, and fewer other keys than the cache can hold have been used since. */
module StackDistance {
  import opened Time
  import opened Wrappers
  import opened BoundedCache
  import opened CacheTraces

  /** The call uses its key: it stores under it, or finds it. */
  predicate Uses<K, V>(s: Step<K, V>) {
    !s.op.Get? || s.reply.Some?
  }

  /** The keys other than `k` used after step `i` and before step `n`. */
  ghost function UsedBetween<K, V>(steps: seq<Step<K, V>>, k: K, i: nat, n: nat): set<K>
    requires n <= |steps|
  {
    set m: nat | i < m < n && Uses(steps[m]) && steps[m].op.key != k :: steps[m].op.key
  }

  ghost predicate Unused<K, V>(steps: seq<Step<K, V>>, k: K, i: int, n: nat)
    requires n <= |steps|
  {
    forall m: nat :: i < m < n && steps[m].op.key == k ==> !Uses(steps[m])
  }

  /** What is left of `k`, last used at `t`, when the keys in `since` have been used after it. */
  ghost predicate Tracks<K, V>(m: map<K, Entry<V>>, k: K, v: V, t: Instant, since: set<K>, capacity: nat, ttl: nat, now: Instant) {
    if k in m then
      && m[k] == Entry(v, t)
      && (forall x <- since :: x in m && t < m[x].lastAccess)
      && (forall x <- m :: x != k && t < m[x].lastAccess ==> x in since)
    else |since| >= capacity || t + ttl < now
  }

  lemma TracksAlive<K, V>(m: map<K, Entry<V>>, k: K, v: V, t: Instant, since: set<K>, capacity: nat, ttl: nat,
                          before: Instant, now: Instant)
    requires Tracks(m, k, v, t, since, capacity, ttl, before) && before <= now && t <= now
    ensures Tracks(Alive(m, ttl, now), k, v, t, since, capacity, ttl, now)
    ensures k in Alive(m, ttl, now) ==> now <= t + ttl
  {
  }

  lemma AllButOne<K>(keys: set<K>, k: K, since: set<K>)
    requires k in keys && keys - {k} <= since
    ensures |since| >= |keys| - 1
  {
    SubsetSizes(keys - {k}, since);
  }

  lemma StoredOver<K, V>(live: map<K, Entry<V>>, k: K, v: V, t: Instant, since: set<K>, capacity: nat, ttl: nat,
                         now: Instant, x: K, y: Option<K>, e: Entry<V>, live': map<K, Entry<V>>)
    requires Tracks(live, k, v, t, since, capacity, ttl, now) && t < now && k in live && x != k && e.lastAccess == now
    requires y.None? ==> live' == live[x := e]
    requires y.Some? ==> y.value != k && y.value !in since && live' == (live - {y.value})[x := e]
    ensures Tracks(live', k, v, t, since + {x}, capacity, ttl, now)
  {
  }

  lemma Evicted<K, V>(live: map<K, Entry<V>>, k: K, v: V, t: Instant, since: set<K>, capacity: nat, ttl: nat, now: Instant, x: K)
    requires Tracks(live, k, v, t, since, capacity, ttl, now) && Stamped(live, now) && IsOldest(live, k)
    requires |live.Keys| >= capacity && x !in live
    ensures |since + {x}| >= capacity
  {
    forall j | j in live.Keys - {k} ensures j in since {
      assert live[k].lastAccess <= live[j].lastAccess;
    }
    AllButOne(live.Keys, k, since);
    assert |since + {x}| == |since| + 1;
  }

  lemma OldestIsOlder<K, V>(live: map<K, Entry<V>>, k: K, v: V, t: Instant, since: set<K>, capacity: nat, ttl: nat, now: Instant, y: K)
    requires Tracks(live, k, v, t, since, capacity, ttl, now) && k in live && IsOldest(live, y)
    ensures y !in since
  {
  }

  /** Storing under another key evicts `k` only if as many others were used since. */
  lemma StoredTracks<K, V>(live: map<K, Entry<V>>, k: K, v: V, t: Instant, since: set<K>, capacity: nat, ttl: nat,
                           now: Instant, x: K, e: Entry<V>, live': map<K, Entry<V>>)
    requires Tracks(live, k, v, t, since, capacity, ttl, now) && Stamped(live, now) && t < now && x != k && e.lastAccess == now
    requires Stored(live, capacity, x, e, live')
    ensures Tracks(live', k, v, t, since + {x}, capacity, ttl, now)
  {
    hide Stored, IsOldest, Stamped, After;
    var y := StoredKeys(live, capacity, x, e, live');
    if k !in live {
      StoredAbsent(live, k, v, t, since, capacity, ttl, now, x, y, e, live');
    } else if y == Some(k) {
      Evicted(live, k, v, t, since, capacity, ttl, now, x);
    } else {
      if y.Some? { OldestIsOlder(live, k, v, t, since, capacity, ttl, now, y.value); }
      StoredOver(live, k, v, t, since, capacity, ttl, now, x, y, e, live');
    }
  }

  lemma StoredAbsent<K, V>(live: map<K, Entry<V>>, k: K, v: V, t: Instant, since: set<K>, capacity: nat, ttl: nat,
                           now: Instant, x: K, y: Option<K>, e: Entry<V>, live': map<K, Entry<V>>)
    requires Tracks(live, k, v, t, since, capacity, ttl, now) && k !in live && x != k
    requires live' == if y.Some? then (live - {y.value})[x := e] else live[x := e]
    ensures Tracks(live', k, v, t, since + {x}, capacity, ttl, now)
  {
    SubsetSizes(since, since + {x});
  }

  lemma FoundTracks<K, V>(live: map<K, Entry<V>>, k: K, v: V, t: Instant, since: set<K>, capacity: nat, ttl: nat,
                          now: Instant, x: K, live': map<K, Entry<V>>)
    requires Tracks(live, k, v, t, since, capacity, ttl, now) && t < now && x != k
    requires x in live && live' == live[x := Entry(live[x].value, now)]
    ensures Tracks(live', k, v, t, since + {x}, capacity, ttl, now)
  {
    if k !in live { SubsetSizes(since, since + {x}); }
  }

  lemma StepTracks<K, V>(m: map<K, Entry<V>>, k: K, v: V, t: Instant, since: set<K>, capacity: nat, ttl: nat,
                         before: Instant, s: Step<K, V>, m': map<K, Entry<V>>)
    requires Tracks(m, k, v, t, since, capacity, ttl, before) && Stamped(m, s.now) && before <= s.now && t < s.now
    requires EagerOp(Alive(m, ttl, s.now), capacity, s.op, s.now, s.reply, m')
    requires s.op.key == k ==> !Uses(s)
    ensures Tracks(m', k, v, t, if Uses(s) then since + {s.op.key} else since, capacity, ttl, s.now)
  {
    var live := Alive(m, ttl, s.now);
    TracksAlive(m, k, v, t, since, capacity, ttl, before, s.now);
    AliveStamped(m, ttl, s.now);
    hide Alive, Tracks, Stamped, Stored;
    if Uses(s) {
      match s.op
      case Get(x) => FoundTracks(live, k, v, t, since, capacity, ttl, s.now, x, m');
      case Insert(x, w) => StoredTracks(live, k, v, t, since, capacity, ttl, s.now, x, Entry(w, s.now), m');
      case GetOrInsert(x, w) =>
        StoredTracks(live, k, v, t, since, capacity, ttl, s.now, x, Entry(s.reply.value, s.now), m');
    }
  }

  lemma UsedNext<K, V>(steps: seq<Step<K, V>>, k: K, i: nat, n: nat)
    requires i < n < |steps|
    ensures UsedBetween(steps, k, i, n + 1)
         == if Uses(steps[n]) && steps[n].op.key != k then UsedBetween(steps, k, i, n) + {steps[n].op.key}
            else UsedBetween(steps, k, i, n)
  {
    var next := if Uses(steps[n]) && steps[n].op.key != k then UsedBetween(steps, k, i, n) + {steps[n].op.key}
                else UsedBetween(steps, k, i, n);
    forall x | x in next ensures x in UsedBetween(steps, k, i, n + 1) {
      if x in UsedBetween(steps, k, i, n) {
        var m: nat :| i < m < n && Uses(steps[m]) && steps[m].op.key != k && steps[m].op.key == x;
      } else {
        assert steps[n].op.key == x;
      }
    }
  }

  // --- Eager runs ------------------------------------------------------------------------------

  lemma {:induction false} RunStamped<K, V>(ms: seq<map<K, Entry<V>>>, steps: seq<Step<K, V>>, capacity: nat, ttl: nat, n: nat)
    requires EagerRun(ms, steps, capacity, ttl) && StrictlyOrdered(steps) && ms[0] == map[] && n < |steps|
    ensures Stamped(ms[n], steps[n].now)
  {
    if n > 0 {
      RunStamped(ms, steps, capacity, ttl, n - 1);
      assert EagerAt(ms, steps, capacity, ttl, n - 1);
      StepStamps(ms[n - 1], ttl, capacity, steps[n - 1], ms[n], steps[n].now);
    }
  }

  /** What the step at `i` left under its key. */
  ghost predicate Leaves<K, V>(s: Step<K, V>, k: K, v: V) {
    s.op.key == k && (s.op == Op.Insert(k, v) || s.reply == Some(v))
  }

  lemma TracksFirst<K, V>(m: map<K, Entry<V>>, k: K, v: V, capacity: nat, ttl: nat, s: Step<K, V>, m': map<K, Entry<V>>)
    requires Leaves(s, k, v) && Stamped(m, s.now) && EagerOp(Alive(m, ttl, s.now), capacity, s.op, s.now, s.reply, m')
    ensures Tracks(m', k, v, s.now, {}, capacity, ttl, s.now)
  {
  }

  lemma StepAt<K, V>(ms: seq<map<K, Entry<V>>>, steps: seq<Step<K, V>>, capacity: nat, ttl: nat, n: nat)
    requires EagerRun(ms, steps, capacity, ttl) && StrictlyOrdered(steps) && ms[0] == map[] && n < |steps|
    ensures |ms| == |steps| + 1 && Stamped(ms[n], steps[n].now)
    ensures EagerOp(Alive(ms[n], ttl, steps[n].now), capacity, steps[n].op, steps[n].now, steps[n].reply, ms[n + 1])
    ensures forall m :: 0 <= m < n ==> steps[m].now < steps[n].now
  {
    RunStamped(ms, steps, capacity, ttl, n);
    assert EagerAt(ms, steps, capacity, ttl, n);
  }

  lemma NothingBetween<K, V>(steps: seq<Step<K, V>>, k: K, i: nat)
    requires i < |steps|
    ensures UsedBetween(steps, k, i, i + 1) == {}
  {
  }

  lemma {:induction false} RunTracks<K, V>(ms: seq<map<K, Entry<V>>>, steps: seq<Step<K, V>>, capacity: nat, ttl: nat,
                                          k: K, v: V, i: nat, n: nat)
    requires EagerRun(ms, steps, capacity, ttl) && StrictlyOrdered(steps) && ms[0] == map[]
    requires i < n <= |steps| && Leaves(steps[i], k, v) && Unused(steps, k, i, n)
    ensures |ms| == |steps| + 1
    ensures Tracks(ms[n], k, v, steps[i].now, UsedBetween(steps, k, i, n), capacity, ttl, steps[n - 1].now)
  {
    var m := n - 1;
    assert m > i && steps[m].op.key == k ==> !Uses(steps[m]);
    hide Tracks, EagerOp, Stamped, Alive, EagerRun, UsedBetween, Uses, Leaves, StrictlyOrdered;
    StepAt(ms, steps, capacity, ttl, m);
    if m == i {
      NothingBetween(steps, k, i);
      TracksFirst(ms[i], k, v, capacity, ttl, steps[i], ms[n]);
    } else {
      RunTracks(ms, steps, capacity, ttl, k, v, i, m);
      UsedNext(steps, k, i, m);
      StepTracks(ms[m], k, v, steps[i].now, UsedBetween(steps, k, i, m), capacity, ttl, steps[m - 1].now, steps[m], ms[n]);
    }
  }

  lemma StepAbsent<K, V>(m: map<K, Entry<V>>, k: K, capacity: nat, ttl: nat, s: Step<K, V>, m': map<K, Entry<V>>)
    requires k !in m && (s.op.key == k ==> !Uses(s))
    requires EagerOp(Alive(m, ttl, s.now), capacity, s.op, s.now, s.reply, m')
    ensures k !in m'
  {
  }

  lemma {:induction false} NeverUsed<K, V>(ms: seq<map<K, Entry<V>>>, steps: seq<Step<K, V>>, capacity: nat, ttl: nat, k: K, n: nat)
    requires EagerRun(ms, steps, capacity, ttl) && ms[0] == map[] && n <= |steps| && Unused(steps, k, -1, n)
    ensures k !in ms[n]
  {
    if n > 0 {
      NeverUsed(ms, steps, capacity, ttl, k, n - 1);
      assert EagerAt(ms, steps, capacity, ttl, n - 1);
      assert steps[n - 1].op.key == k ==> !Uses(steps[n - 1]);
      hide EagerOp, Alive, Uses;
      StepAbsent(ms[n - 1], k, capacity, ttl, steps[n - 1], ms[n]);
    }
  }

  lemma {:induction false} RunFits<K, V>(ms: seq<map<K, Entry<V>>>, steps: seq<Step<K, V>>, capacity: nat, ttl: nat, n: nat)
    requires EagerRun(ms, steps, capacity, ttl) && ms[0] == map[] && capacity >= 1 && n <= |steps|
    ensures |ms[n]| <= capacity
  {
    if n > 0 {
      RunFits(ms, steps, capacity, ttl, n - 1);
      assert EagerAt(ms, steps, capacity, ttl, n - 1);
      hide EagerOp, Alive;
      AliveFits(ms[n - 1], ttl, steps[n - 1].now);
      StepFits(Alive(ms[n - 1], ttl, steps[n - 1].now), capacity, steps[n - 1], ms[n]);
    }
  }

  lemma StepFits<K, V>(live: map<K, Entry<V>>, capacity: nat, s: Step<K, V>, m': map<K, Entry<V>>)
    requires |live| <= capacity && capacity >= 1 && EagerOp(live, capacity, s.op, s.now, s.reply, m')
    ensures |m'| <= capacity
  {
    if s.op.Get? {
      if s.op.key in live { assert m'.Keys == live.Keys; }
    } else {
      var e := if s.op.Insert? then Entry(s.op.value, s.now) else Entry(s.reply.value, s.now);
      var y := StoredKeys(live, capacity, s.op.key, e, m');
      assert |live.Keys| == |live| && |m'.Keys| == |m'|;
      if y.Some? {
        Swapped(live.Keys, y.value, s.op.key);
      } else if s.op.key !in live {
        Swapped(live.Keys, s.op.key, s.op.key);
      } else {
        assert m'.Keys == live.Keys;
      }
    }
  }

  /** A key is in an eager cache exactly within its time to live and before too many others are used. */
  lemma FoundIff<K, V>(m: map<K, Entry<V>>, k: K, v: V, t: Instant, since: set<K>, capacity: nat, ttl: nat,
                       before: Instant, now: Instant)
    requires Tracks(m, k, v, t, since, capacity, ttl, before) && before <= now && t <= now && |m| <= capacity && k !in since
    ensures k in Alive(m, ttl, now) <==> now <= t + ttl && |since| < capacity
    ensures k in Alive(m, ttl, now) ==> Alive(m, ttl, now)[k].value == v
  {
    if k in m {
      assert since + {k} <= m.Keys && |m.Keys| == |m|;
      SubsetSizes(since + {k}, m.Keys);
      assert |since + {k}| == |since| + 1;
    }
  }

  // --- The cache -------------------------------------------------------------------------------

  /** The cache as it is, over any run with strictly increasing times: a call finds what the last use of its key left
      there, if and only if that was no longer ago than the time to live and fewer other keys than the cache can hold
      have been used since. */
  lemma CacheFindsIff<K, V>(ds: seq<map<K, Entry<V>>>, steps: seq<Step<K, V>>, capacity: nat, ttl: nat, k: K, v: V, i: nat, j: nat)
    requires LazyRun(ds, steps, capacity, ttl) && StrictlyOrdered(steps) && ds[0] == map[] && capacity >= 1
    requires i < j < |steps| && Leaves(steps[i], k, v) && Unused(steps, k, i, j) && steps[j].op.key == k
    ensures
      var found := if steps[j].now <= steps[i].now + ttl && |UsedBetween(steps, k, i, j)| < capacity then Some(v) else None;
      && (steps[j].op.Get? ==> steps[j].reply == found)
      && (steps[j].op.GetOrInsert? ==> steps[j].reply == Some(if found.Some? then found.value else steps[j].op.made))
  {
    var ms := LazyRunIsEager(ds, steps, capacity, ttl);
    RunTracks(ms, steps, capacity, ttl, k, v, i, j);
    RunFits(ms, steps, capacity, ttl, j);
    assert EagerAt(ms, steps, capacity, ttl, j);
    assert k !in UsedBetween(steps, k, i, j);
    assert steps[j - 1].now < steps[j].now && steps[i].now < steps[j].now;
    hide Tracks, Alive, LazyRun, EagerRun, UsedBetween, Stored;
    FoundIff(ms[j], k, v, steps[i].now, UsedBetween(steps, k, i, j), capacity, ttl, steps[j - 1].now, steps[j].now);
  }

  /** A key that was never used is not found. */
  lemma CacheFindsNothing<K, V>(ds: seq<map<K, Entry<V>>>, steps: seq<Step<K, V>>, capacity: nat, ttl: nat, k: K, j: nat)
    requires LazyRun(ds, steps, capacity, ttl) && StrictlyOrdered(steps) && ds[0] == map[]
    requires j < |steps| && Unused(steps, k, -1, j) && steps[j].op.key == k
    ensures steps[j].op.Get? ==> steps[j].reply == None
    ensures steps[j].op.GetOrInsert? ==> steps[j].reply == Some(steps[j].op.made)
  {
    var ms := LazyRunIsEager(ds, steps, capacity, ttl);
    NeverUsed(ms, steps, capacity, ttl, k, j);
    assert EagerAt(ms, steps, capacity, ttl, j);
    assert k !in Alive(ms[j], ttl, steps[j].now);
    hide Alive, LazyRun, EagerRun, Stored;
  }
}
