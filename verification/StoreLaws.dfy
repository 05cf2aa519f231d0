/** What a caller of `MemoryStore` sees, said in terms of calls alone: a read finds what the last write left, until
    the time to live given with that write has passed. */
module StoreLaws {
  import opened Time
  import opened Wrappers
  import opened SessionStore

  /** The call changed what is stored under `k`. */
  ghost predicate Writes<K, V>(c: Call<K, V>, k: K) {
    c.op.key == k && (c.op.Set? || c.op.Delete? || (c.op.CompareAndSet? && c.reply == Swapped(true)))
  }

  ghost predicate NoWrites<K, V>(calls: seq<Call<K, V>>, k: K, i: nat, j: nat)
    requires j <= |calls|
  {
    forall n :: i <= n < j ==> !Writes(calls[n], k)
  }

  /** Under `k` there is `v` until `deadline`; by `t` it may have been forgotten if that has passed. */
  ghost predicate Keeps<K, V>(m: map<K, Entry<V>>, k: K, v: V, deadline: Instant, t: Instant) {
    if k in m then m[k] == Entry(v, deadline) else deadline <= t
  }

  lemma KeepsNext<K, V>(m: map<K, Entry<V>>, k: K, v: V, deadline: Instant, t: Instant, c: Call<K, V>)
    requires Keeps(m, k, v, deadline, t) && t <= c.at && c.reply == IdealReply(m, c.op, c.at) && !Writes(c, k)
    ensures Keeps(IdealNext(m, c.op, c.at, c.written), k, v, deadline, c.at)
  {
  }

  lemma LacksNext<K, V>(m: map<K, Entry<V>>, k: K, c: Call<K, V>)
    requires k !in m && c.reply == IdealReply(m, c.op, c.at) && !Writes(c, k)
    ensures k !in IdealNext(m, c.op, c.at, c.written)
  {
  }

  lemma IdealSnoc<K, V>(m: map<K, Entry<V>>, calls: seq<Call<K, V>>, n: nat)
    requires n < |calls|
    ensures IdealAfter(m, calls[..n + 1])
         == IdealNext(IdealAfter(m, calls[..n]), calls[n].op, calls[n].at, calls[n].written)
  {
    assert calls[..n + 1][..n] == calls[..n];
  }

  lemma CallOrder<K, V>(maps: seq<map<K, Entry<V>>>, calls: seq<Call<K, V>>, i: nat, j: nat)
    requires LazyRun(maps, calls) && i < j < |calls|
    ensures calls[i].at <= calls[j].at
  {
    assert LazyCall(maps[i], calls[i], maps[i + 1]);
  }

  lemma {:induction false} KeepsUntil<K, V>(maps: seq<map<K, Entry<V>>>, calls: seq<Call<K, V>>, k: K, v: V,
                                           deadline: Instant, i: nat, n: nat)
    requires LazyRun(maps, calls) && i < n <= |calls| && NoWrites(calls, k, i + 1, n)
    requires Keeps(IdealAfter(maps[0], calls[..i + 1]), k, v, deadline, calls[i].at)
    ensures Keeps(IdealAfter(maps[0], calls[..n]), k, v, deadline, calls[n - 1].at)
  {
    hide Keeps, IdealAfter, IdealNext, IdealReply;
    if n > i + 1 {
      KeepsUntil(maps, calls, k, v, deadline, i, n - 1);
      CallOrder(maps, calls, n - 2, n - 1);
      LazyRunIsIdeal(maps, calls, n - 1);
      IdealSnoc(maps[0], calls, n - 1);
      KeepsNext(IdealAfter(maps[0], calls[..n - 1]), k, v, deadline, calls[n - 2].at, calls[n - 1]);
    }
  }

  lemma {:induction false} LacksUntil<K, V>(maps: seq<map<K, Entry<V>>>, calls: seq<Call<K, V>>, k: K, i: nat, n: nat)
    requires LazyRun(maps, calls) && i <= n <= |calls| && NoWrites(calls, k, i, n)
    requires k !in IdealAfter(maps[0], calls[..i])
    ensures k !in IdealAfter(maps[0], calls[..n])
  {
    hide IdealAfter, IdealNext, IdealReply;
    if n > i {
      LacksUntil(maps, calls, k, i, n - 1);
      LazyRunIsIdeal(maps, calls, n - 1);
      IdealSnoc(maps[0], calls, n - 1);
      LacksNext(IdealAfter(maps[0], calls[..n - 1]), k, calls[n - 1]);
    }
  }

  /** The call wrote `v` under `k`, with this time to live. */
  ghost predicate Puts<K, V>(c: Call<K, V>, k: K, v: V, ttl: Option<nat>) {
    || c.op == Op.Set(k, v, ttl)
    || (c.op.CompareAndSet? && c.op.key == k && c.op.desired == Some(v) && c.op.ttl == ttl && c.reply == Swapped(true))
  }

  /** A value that was set or swapped in is found by every later call that reads the clock before the time to live has
      passed since the deadline was computed, to the nanosecond, and by none after that; without a time to live it
      is 365 days. A read answers it, and a compare-and-set compares with it. */
  lemma ReadsLastWrite<K, V>(maps: seq<map<K, Entry<V>>>, calls: seq<Call<K, V>>, k: K, v: V, ttl: Option<nat>, i: nat, j: nat)
    requires LazyRun(maps, calls) && i < j < |calls| && Puts(calls[i], k, v, ttl)
    requires NoWrites(calls, k, i + 1, j) && calls[j].op.key == k
    ensures
      var life := if ttl.Some? then ttl.value * 1_000_000_000 else 365 * 86_400 * 1_000_000_000;
      var found := if calls[j].at < calls[i].written + life then Some(v) else None;
      && (calls[j].op.Get? ==> calls[j].reply == Found(found))
      && (calls[j].op.CompareAndSet? ==> calls[j].reply == Swapped(found == calls[j].op.expected))
  {
    var life := if ttl.Some? then ttl.value * 1_000_000_000 else 365 * 86_400 * 1_000_000_000;
    LazyRunIsIdeal(maps, calls, i);
    IdealSnoc(maps[0], calls, i);
    assert Keeps(IdealAfter(maps[0], calls[..i + 1]), k, v, calls[i].written + life, calls[i].at);
    KeepsUntil(maps, calls, k, v, calls[i].written + life, i, j);
    CallOrder(maps, calls, j - 1, j);
    LazyRunIsIdeal(maps, calls, j);
  }

  /** Nothing is found under a key that was removed, or never written. */
  lemma ReadsNothing<K, V>(maps: seq<map<K, Entry<V>>>, calls: seq<Call<K, V>>, k: K, i: nat, j: nat)
    requires LazyRun(maps, calls) && i <= j < |calls| && NoWrites(calls, k, i, j) && calls[j].op.key == k
    requires
      || (i == 0 && maps[0] == map[])
      || (i > 0 && Writes(calls[i - 1], k) && (calls[i - 1].op.Delete? || (calls[i - 1].op.CompareAndSet? && calls[i - 1].op.desired.None?)))
    ensures calls[j].op.Get? ==> calls[j].reply == Found(None)
    ensures calls[j].op.CompareAndSet? ==> calls[j].reply == Swapped(calls[j].op.expected == None)
  {
    if i > 0 {
      LazyRunIsIdeal(maps, calls, i - 1);
      IdealSnoc(maps[0], calls, i - 1);
    }
    LacksUntil(maps, calls, k, i, j);
    LazyRunIsIdeal(maps, calls, j);
  }
}
