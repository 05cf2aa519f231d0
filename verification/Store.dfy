/** `MemoryStore`: a string map whose entries lapse. Every operation holds the lock but reads the
    clock several times, and lapsed entries are only dropped when some later operation meets them.
    `Ideal` is what callers should be able to believe in: a map that forgets an entry at the very
    instant it lapses. */
module SessionStore {
  import opened Time
  import opened Wrappers

  const DEFAULT_TTL_SECS: nat := 365 * 24 * 3600

  datatype Entry<+V> = Entry(value: V, expiresAt: Instant)

  /** The entries that have not lapsed at `t`. */
  function Live<K, V>(m: map<K, Entry<V>>, t: Instant): map<K, Entry<V>> {
    map k | k in m && t < m[k].expiresAt :: m[k]
  }

  /** What a reader who looks at the clock at `t` finds under `k`. */
  function Lookup<K, V>(m: map<K, Entry<V>>, k: K, t: Instant): Option<V> {
    if k in m && t < m[k].expiresAt then Some(m[k].value) else None
  }

  function Ttl(secs: Option<nat>): nat {
    NANOS_PER_SEC * (if secs.Some? then secs.value else DEFAULT_TTL_SECS)
  }

  datatype Op<K, V> =
    | Get(key: K)
    | Set(key: K, value: V, ttl: Option<nat>)
    | Delete(key: K)
    | CompareAndSet(key: K, expected: Option<V>, desired: Option<V>, ttl: Option<nat>)

  datatype Reply<V> = Found(found: Option<V>) | Unit | Swapped(swapped: bool)

  /** The ideal map: forgets at `at`, answers as of `at`, and counts a new deadline from `written`. */
  function IdealReply<K, V(==)>(m: map<K, Entry<V>>, op: Op<K, V>, at: Instant): Reply<V> {
    match op
    case Get(k) => Found(Lookup(m, k, at))
    case Set(_, _, _) => Unit
    case Delete(_) => Unit
    case CompareAndSet(k, expected, _, _) => Swapped(Lookup(m, k, at) == expected)
  }

  function IdealNext<K, V(==)>(m: map<K, Entry<V>>, op: Op<K, V>, at: Instant, written: Instant): map<K, Entry<V>> {
    var live := Live(m, at);
    match op
    case Get(k) => live
    case Set(k, v, ttl) => live[k := Entry(v, written + Ttl(ttl))]
    case Delete(k) => live - {k}
    case CompareAndSet(k, expected, desired, ttl) =>
      if Lookup(m, k, at) != expected then live
      else if desired.Some? then live[k := Entry(desired.value, written + Ttl(ttl))]
      else live - {k}
  }

  /** One completed call: its clock readings, all within the time the lock was held. */
  datatype Call<K, V> = Call(op: Op<K, V>, reply: Reply<V>, at: Instant, written: Instant, end: Instant)

  /** What the class's methods promise of one call: the right answer, and a map that nobody can tell
      from the ideal one once the call is over. */
  ghost predicate LazyCall<K, V>(before: map<K, Entry<V>>, c: Call<K, V>, after: map<K, Entry<V>>) {
    && c.at <= c.written <= c.end
    && c.reply == IdealReply(before, c.op, c.at)
    && Live(after, c.end) == Live(IdealNext(before, c.op, c.at, c.written), c.end)
  }

  /** Two maps that look the same now look the same ever after. */
  lemma LiveLater<K, V>(a: map<K, Entry<V>>, b: map<K, Entry<V>>, t: Instant, u: Instant)
    requires Live(a, t) == Live(b, t) && t <= u
    ensures Live(a, u) == Live(b, u)
    ensures forall k :: Lookup(a, k, u) == Lookup(b, k, u)
  {
    assert Live(a, u) == Live(Live(a, t), u) && Live(b, u) == Live(Live(b, t), u);
    forall k
      ensures Lookup(a, k, u) == Lookup(b, k, u)
    {
      assert k in Live(a, u) <==> k in Live(b, u);
    }
  }

  lemma IdealRespectsLive<K, V>(a: map<K, Entry<V>>, b: map<K, Entry<V>>, op: Op<K, V>, at: Instant, written: Instant)
    requires Live(a, at) == Live(b, at)
    ensures IdealReply(a, op, at) == IdealReply(b, op, at)
    ensures IdealNext(a, op, at, written) == IdealNext(b, op, at, written)
  {
    LiveLater(a, b, at, at);
  }

  /** Forgetting early what has lapsed anyway cannot be noticed, before or after a write. */
  lemma ForgetUnseen<K, V>(m: map<K, Entry<V>>, k: K, e: Entry<V>, at: Instant, end: Instant)
    requires at <= end
    ensures Live(Live(m, at)[k := e], end) == Live(m[k := e], end)
  {
  }

  lemma RemoveUnseen<K, V>(m: map<K, Entry<V>>, k: K, at: Instant, end: Instant)
    requires at <= end
    ensures Live(Live(m, at), end) == Live(m, end)
    ensures Live(Live(m, at) - {k}, end) == Live(m - {k}, end)
  {
  }

  lemma PurgeUnseen<K, V>(before: map<K, Entry<V>>, purged: map<K, Entry<V>>, t: Instant)
    requires purged.Keys <= before.Keys && forall k <- purged :: purged[k] == before[k]
    requires forall k <- before :: k in purged || before[k].expiresAt <= t
    ensures Live(purged, t) == Live(before, t)
  {
  }

  /** A monotone clock: each reading is at least the one before. */
  class Clock {
    var last: Instant

    constructor ()
      ensures last == 0
    {
      last := 0;
    }

    method Now() returns (t: Instant)
      modifies this
      ensures old(last) <= t == last
    {
      var elapsed: nat :| 0 <= elapsed;
      last := last + elapsed;
      t := last;
    }
  }

  /** The `retain` of every write: one clock reading per entry, in no particular order. */
  method Retain<K, V>(data: map<K, Entry<V>>, clock: Clock) returns (kept: map<K, Entry<V>>)
    modifies clock
    ensures old(clock.last) <= clock.last
    ensures kept.Keys <= data.Keys && forall k <- kept :: kept[k] == data[k]
    ensures forall k <- data :: k in kept || data[k].expiresAt <= clock.last
    ensures forall k <- kept :: old(clock.last) < data[k].expiresAt
  {
    kept := data;
    var todo := data.Keys;
    while todo != {}
      invariant old(clock.last) <= clock.last
      invariant kept.Keys <= data.Keys && todo <= kept.Keys
      invariant forall k <- kept :: kept[k] == data[k] && (k in todo || old(clock.last) < data[k].expiresAt)
      invariant forall k <- data :: k in kept || data[k].expiresAt <= clock.last
      decreases todo
    {
      var k :| k in todo;
      todo := todo - {k};
      var now := clock.Now();
      if !(now < data[k].expiresAt) {
        kept := kept - {k};
      }
    }
  }

  /** What is left of a compare-and-set once it has purged. */
  lemma SwapDone<K, V>(before: map<K, Entry<V>>, purged: map<K, Entry<V>>, op: Op<K, V>, at: Instant, written: Instant,
                       end: Instant, after: map<K, Entry<V>>)
    requires op.CompareAndSet? && at <= written <= end && Live(purged, at) == Live(before, at)
    requires after ==
      if Lookup(purged, op.key, at) != op.expected then purged
      else if op.desired.Some? then purged[op.key := Entry(op.desired.value, written + Ttl(op.ttl))]
      else purged - {op.key}
    ensures LazyCall(before, Call(op, Swapped(Lookup(purged, op.key, at) == op.expected), at, written, end), after)
  {
    IdealRespectsLive(purged, before, op, at, written);
    if op.desired.Some? {
      ForgetUnseen(purged, op.key, Entry(op.desired.value, written + Ttl(op.ttl)), at, end);
    }
    RemoveUnseen(purged, op.key, at, end);
    hide Live;
  }

  class MemoryStore<K(==), V(==)> {
    var data: map<K, Entry<V>>
    const clock: Clock

    constructor (clock: Clock)
      ensures this.clock == clock && data == map[]
    {
      this.clock := clock;
      data := map[];
    }

    method Get(key: K) returns (r: Option<V>, ghost at: Instant)
      modifies this`data, clock
      ensures old(clock.last) <= at <= clock.last
      ensures LazyCall(old(data), Call(Op.Get(key), Found(r), at, at, clock.last), data)
    {
      at := clock.last;
      if key in data {
        var now := clock.Now();
        at := now;
        if now < data[key].expiresAt {
          r := Some(data[key].value);
          return;
        }
      }
      data := data - {key};
      r := None;
    }

    method Set(key: K, value: V, ttl: Option<nat>) returns (ghost at: Instant)
      modifies this`data, clock
      ensures old(clock.last) <= at <= clock.last
      ensures LazyCall(old(data), Call(Op.Set(key, value, ttl), Unit, at, at, clock.last), data)
    {
      data := Retain(data, clock);
      var now := clock.Now();
      at := now;
      data := data[key := Entry(value, now + Ttl(ttl))];
    }

    method Delete(key: K)
      modifies this`data
      ensures LazyCall(old(data), Call(Op.Delete(key), Unit, clock.last, clock.last, clock.last), data)
    {
      data := data - {key};
    }

    method CompareAndSet(key: K, expected: Option<V>, desired: Option<V>, ttl: Option<nat>)
      returns (ok: bool, ghost at: Instant, ghost written: Instant)
      modifies this`data, clock
      ensures old(clock.last) <= at <= written <= clock.last
      ensures LazyCall(old(data), Call(Op.CompareAndSet(key, expected, desired, ttl), Swapped(ok), at, written, clock.last), data)
    {
      hide LazyCall, Live;
      ghost var before := data;
      data := Retain(data, clock);
      at := clock.last;
      ghost var purged := data;
      PurgeUnseen(before, purged, at);
      var current: Option<V> := None;
      if key in data {
        var now := clock.Now();
        LiveLater(purged, before, at, now);
        at := now;
        if now < data[key].expiresAt {
          current := Some(data[key].value);
        }
      }
      written := at;
      ok := current == expected;
      if ok {
        match desired
        case Some(value) =>
          var now := clock.Now();
          written := now;
          data := data[key := Entry(value, now + Ttl(ttl))];
        case None =>
          data := data - {key};
      }
      SwapDone(before, purged, Op.CompareAndSet(key, expected, desired, ttl), at, written, clock.last, data);
    }
  }

  // --- Whole runs ---------------------------------------------------------------------------

  ghost predicate LazyRun<K, V>(maps: seq<map<K, Entry<V>>>, calls: seq<Call<K, V>>) {
    && |maps| == |calls| + 1
    && (forall i :: 0 <= i < |calls| ==> LazyCall(maps[i], calls[i], maps[i + 1]))
    && (forall i, j :: 0 <= i < j < |calls| ==> calls[i].end <= calls[j].at)
  }

  /** The ideal map after the calls, started from `m`. */
  ghost function IdealAfter<K, V>(m: map<K, Entry<V>>, calls: seq<Call<K, V>>): map<K, Entry<V>> {
    if calls == [] then m
    else
      var last := calls[|calls| - 1];
      IdealNext(IdealAfter(m, calls[..|calls| - 1]), last.op, last.at, last.written)
  }

  lemma RunPrefix<K, V>(maps: seq<map<K, Entry<V>>>, calls: seq<Call<K, V>>, n: nat)
    requires LazyRun(maps, calls) && n <= |calls|
    ensures LazyRun(maps[..n + 1], calls[..n])
  {
  }

  /** After any run the lazy map cannot be told from the ideal one. */
  lemma {:induction false} LazyMapIsIdeal<K, V>(maps: seq<map<K, Entry<V>>>, calls: seq<Call<K, V>>, t: Instant)
    requires LazyRun(maps, calls)
    requires calls == [] || calls[|calls| - 1].end <= t
    ensures Live(maps[|calls|], t) == Live(IdealAfter(maps[0], calls), t)
  {
    if calls != [] {
      var n := |calls| - 1;
      var last := calls[n];
      RunPrefix(maps, calls, n);
      assert n > 0 ==> calls[n - 1].end <= calls[n].at;
      LazyMapIsIdeal(maps[..n + 1], calls[..n], last.at);
      assert LazyCall(maps[n], calls[n], maps[n + 1]);
      IdealRespectsLive(maps[n], IdealAfter(maps[0], calls[..n]), last.op, last.at, last.written);
      LiveLater(maps[|calls|], IdealAfter(maps[0], calls), last.end, t);
    }
  }

  /** Every run of the lazily purged store answers exactly as the ideal map does, call by call, with
      the calls taking effect in the order in which they held the lock. */
  lemma LazyRunIsIdeal<K, V>(maps: seq<map<K, Entry<V>>>, calls: seq<Call<K, V>>, i: nat)
    requires LazyRun(maps, calls) && i < |calls|
    ensures calls[i].reply == IdealReply(IdealAfter(maps[0], calls[..i]), calls[i].op, calls[i].at)
  {
    RunPrefix(maps, calls, i);
    assert i > 0 ==> calls[i - 1].end <= calls[i].at;
    LazyMapIsIdeal(maps[..i + 1], calls[..i], calls[i].at);
    assert LazyCall(maps[i], calls[i], maps[i + 1]);
    IdealRespectsLive(maps[i], IdealAfter(maps[0], calls[..i]), calls[i].op, calls[i].at, calls[i].written);
  }

  /** A call that took its readings `at` and `written` might as well have happened at the one instant `t`. */
  ghost predicate HappenedAt<K, V>(m: map<K, Entry<V>>, op: Op<K, V>, at: Instant, written: Instant, t: Instant) {
    && at <= t <= written
    && IdealReply(m, op, t) == IdealReply(m, op, at)
    && Live(IdealNext(m, op, t, t), written) == Live(IdealNext(m, op, at, written), written)
  }

  /** A compare-and-set reads the clock twice, and is not always one that happens in an instant: a value seen
      alive at 4 lapses at 5, before the new deadline is computed at 6. Before 5 the deadline would have been an
      earlier one, and from 5 on the comparison would have failed. */
  lemma CompareAndSetSpansTime<V>(old_: V, new_: V)
    ensures
      var m := map[0 := Entry(old_, 5)];
      var op := CompareAndSet(0, Some(old_), Some(new_), Some(1));
      && IdealReply(m, op, 4) == Swapped(true)
      && forall t: Instant :: !HappenedAt(m, op, 4, 6, t)
  {
    var m := map[0 := Entry(old_, 5)];
    var op := CompareAndSet(0, Some(old_), Some(new_), Some(1));
    forall t: Instant | IdealReply(m, op, t) == Swapped(true)
      ensures Live(IdealNext(m, op, t, t), 6) != Live(IdealNext(m, op, 4, 6), 6)
    {
      assert 0 in Live(IdealNext(m, op, 4, 6), 6);
      assert 0 in Live(IdealNext(m, op, t, t), 6) ==> Live(IdealNext(m, op, t, t), 6)[0].expiresAt == t + Ttl(Some(1));
    }
  }

  /** The swap that cannot be put at any instant: the entry it found alive lapses between its readings, and what
      it writes still lives afterwards. */
  predicate SpansLapse<K, V(==)>(m: map<K, Entry<V>>, op: Op<K, V>, at: Instant, written: Instant)
    requires op.CompareAndSet?
  {
    && op.key in m && at < m[op.key].expiresAt <= written && op.expected == Some(m[op.key].value)
    && op.desired.Some? && Ttl(op.ttl) > 0
  }

  lemma HappenedAtLast<K, V>(m: map<K, Entry<V>>, op: Op<K, V>, at: Instant, written: Instant)
    requires op.CompareAndSet? && at <= written
    requires Lookup(m, op.key, at) == Lookup(m, op.key, written)
    ensures HappenedAt(m, op, at, written, written)
  {
    var a, b := IdealNext(m, op, at, written), IdealNext(m, op, written, written);
    assert Live(a, written) == Live(b, written);
  }

  lemma HappenedAtFirst<K, V>(m: map<K, Entry<V>>, op: Op<K, V>, at: Instant, written: Instant)
    requires op.CompareAndSet? && at <= written
    requires op.desired.None? || Ttl(op.ttl) == 0 || Lookup(m, op.key, at) != op.expected
    ensures HappenedAt(m, op, at, written, at)
  {
    var a, b := IdealNext(m, op, at, written), IdealNext(m, op, at, at);
    assert Live(a, written) == Live(b, written);
  }

  lemma SpansEveryInstant<K, V>(m: map<K, Entry<V>>, op: Op<K, V>, at: Instant, written: Instant, t: Instant)
    requires op.CompareAndSet? && at <= t <= written && SpansLapse(m, op, at, written)
    ensures !HappenedAt(m, op, at, written, t)
  {
    if t < m[op.key].expiresAt {
      assert op.key in Live(IdealNext(m, op, at, written), written);
    }
  }

  /** Some instant between its readings explains a compare-and-set, reply and all, if and only if it is not a swap
      that spans the lapse of the entry it replaces. */
  lemma CompareAndSetInstantIff<K, V>(m: map<K, Entry<V>>, op: Op<K, V>, at: Instant, written: Instant)
    requires op.CompareAndSet? && at <= written
    ensures (exists t: Instant :: HappenedAt(m, op, at, written, t)) <==> !SpansLapse(m, op, at, written)
  {
    if SpansLapse(m, op, at, written) {
      forall t: Instant ensures !HappenedAt(m, op, at, written, t) {
        if at <= t <= written { SpansEveryInstant(m, op, at, written, t); }
      }
    } else if Lookup(m, op.key, at) == Lookup(m, op.key, written) {
      HappenedAtLast(m, op, at, written);
    } else {
      HappenedAtFirst(m, op, at, written);
    }
  }
}
