/** `BoundedCache`: expiry by inactivity, checked lazily, and eviction of the least recently used entry
    by a scan. Its specification forgets entries as soon as they expire and evicts only when
    `maxEntries` live entries are held. */
module BoundedCache {
  import opened Time
  import opened Wrappers

  datatype Entry<V> = Entry(value: V, lastAccess: Instant)

  function Alive<K, V>(m: map<K, Entry<V>>, ttl: nat, now: Instant): map<K, Entry<V>> {
    map k | k in m && DurationSince(now, m[k].lastAccess) <= ttl :: m[k]
  }

  ghost predicate IsOldest<K, V>(m: map<K, Entry<V>>, k: K) {
    k in m && forall j <- m :: m[k].lastAccess <= m[j].lastAccess
  }

  datatype Op<K, V> =
    | Get(key: K)
    | Insert(key: K, value: V)
    /** `get_or_insert_with` and the value its factory makes if called. */
    | GetOrInsert(key: K, made: V)

  /** Room for one more entry. With several oldest entries any of them may go. */
  ghost predicate RoomMade<K, V>(m: map<K, Entry<V>>, capacity: nat, m': map<K, Entry<V>>) {
    if |m| < capacity then m' == m else exists k <- m.Keys :: IsOldest(m, k) && m' == m - {k}
  }

  /** `e` stored under `k`, after making room if `k` is new. */
  ghost predicate Stored<K, V>(m: map<K, Entry<V>>, capacity: nat, k: K, e: Entry<V>, m': map<K, Entry<V>>) {
    if k in m || |m| < capacity then m' == m[k := e]
    else exists victim <- m.Keys :: IsOldest(m, victim) && m' == (m - {victim})[k := e]
  }

  /** The eager cache: `live` holds only what has not expired. */
  ghost predicate EagerOp<K, V>(live: map<K, Entry<V>>, capacity: nat, op: Op<K, V>, now: Instant,
                                reply: Option<V>, live': map<K, Entry<V>>) {
    match op
    case Get(k) =>
      if k in live
      then reply == Some(live[k].value) && live' == live[k := Entry(live[k].value, now)]
      else reply == None && live' == live
    case Insert(k, v) =>
      reply == None && Stored(live, capacity, k, Entry(v, now), live')
    case GetOrInsert(k, v) =>
      var value := if k in live then live[k].value else v;
      reply == Some(value) && Stored(live, capacity, k, Entry(value, now), live')
  }

  /** Expired entries only ever take up room. */
  lemma AliveFits<K, V>(m: map<K, Entry<V>>, ttl: nat, now: Instant)
    ensures |Alive(m, ttl, now)| <= |m|
    ensures |Alive(m, ttl, now)| == |m| ==> Alive(m, ttl, now) == m
  {
    SubsetSizes(Alive(m, ttl, now).Keys, m.Keys);
    assert |Alive(m, ttl, now).Keys| == |Alive(m, ttl, now)| && |m.Keys| == |m|;
  }

  lemma SubsetSizes<T>(a: set<T>, b: set<T>)
    requires a <= b
    ensures |a| <= |b| && (|a| == |b| ==> a == b)
  {
    assert b == a + (b - a);
  }

  lemma AliveKept<K, V>(m: map<K, Entry<V>>, ttl: nat, now: Instant, k: K)
    requires Alive(m, ttl, now) == m
    ensures Alive(m - {k}, ttl, now) == m - {k}
  {
    forall j | j in m - {k} ensures DurationSince(now, m[j].lastAccess) <= ttl {
      assert j in Alive(m, ttl, now);
    }
  }

  lemma KeptFits<K, V>(m: map<K, Entry<V>>, capacity: nat)
    requires |m| < capacity
    ensures RoomMade(m, capacity, m)
  {
  }

  lemma EvictOne<K, V>(m: map<K, Entry<V>>, capacity: nat, k: K)
    requires IsOldest(m, k) && |m| >= capacity
    ensures RoomMade(m, capacity, m - {k}) && |m - {k}| == |m| - 1
  {
    assert k in m.Keys && (m - {k}).Keys == m.Keys - {k};
  }

  lemma AliveKeys<K, V>(m: map<K, Entry<V>>, ttl: nat, now: Instant, k: K)
    ensures k in Alive(m, ttl, now) <==> k in m && DurationSince(now, m[k].lastAccess) <= ttl
    ensures k in Alive(m, ttl, now) ==> Alive(m, ttl, now)[k] == m[k]
  {
  }

  lemma AliveWrite<K, V>(m: map<K, Entry<V>>, ttl: nat, now: Instant, k: K, v: V)
    ensures Alive(m[k := Entry(v, now)], ttl, now) == Alive(m, ttl, now)[k := Entry(v, now)]
  {
  }

  lemma AliveDrop<K, V>(m: map<K, Entry<V>>, ttl: nat, now: Instant, k: K)
    requires k in m && DurationSince(now, m[k].lastAccess) > ttl
    ensures Alive(m - {k}, ttl, now) == Alive(m, ttl, now)
  {
  }

  /** Writing after making room for a new key, or over an old one. */
  lemma StoredAfterRoom<K, V>(m: map<K, Entry<V>>, capacity: nat, room: map<K, Entry<V>>, k: K, e: Entry<V>)
    requires if k in m then room == m else RoomMade(m, capacity, room) || (room == m && |m| < capacity)
    ensures Stored(m, capacity, k, e, room[k := e])
  {
  }

  class Cache<K(==), V> {
    var data: map<K, Entry<V>>
    const maxEntries: nat
    const ttl: nat

    ghost predicate Valid()
      reads this
    {
      1 <= maxEntries && |data| <= maxEntries
    }

    ghost function Live(now: Instant): map<K, Entry<V>>
      reads this
    {
      Alive(data, ttl, now)
    }

    constructor (maxEntries: nat, ttl: nat)
      ensures Valid() && data == map[] && this.ttl == ttl
      ensures this.maxEntries == (if maxEntries == 0 then 1 else maxEntries)
    {
      data := map[];
      this.maxEntries := if maxEntries < 1 then 1 else maxEntries;
      this.ttl := ttl;
    }

    method Get(key: K, now: Instant) returns (r: Option<V>)
      requires Valid()
      modifies this
      ensures Valid() && EagerOp(old(Live(now)), maxEntries, Op.Get(key), now, r, Live(now))
    {
      if key !in data {
        return None;
      }
      if DurationSince(now, data[key].lastAccess) > ttl {
        data := data - {key};
        return None;
      }
      data := data[key := Entry(data[key].value, now)];
      return Some(data[key].value);
    }

    method Insert(key: K, value: V, now: Instant)
      requires Valid()
      modifies this
      ensures Valid() && EagerOp(old(Live(now)), maxEntries, Op.Insert(key, value), now, None, Live(now))
    {
      hide Alive, RoomMade, Stored;
      AliveFits(data, ttl, now);
      ghost var live := Live(now);
      var isNew := key !in data;
      AliveKeys(data, ttl, now, key);
      if isNew {
        MakeRoom(now);
      }
      AliveWrite(data, ttl, now, key, value);
      StoredAfterRoom(live, maxEntries, Live(now), key, Entry(value, now));
      data := data[key := Entry(value, now)];
    }

    method GetOrInsertWith(key: K, now: Instant, made: V) returns (r: V)
      requires Valid()
      modifies this
      ensures Valid() && EagerOp(old(Live(now)), maxEntries, Op.GetOrInsert(key, made), now, Some(r), Live(now))
    {
      hide Alive, RoomMade, Stored;
      AliveFits(data, ttl, now);
      AliveKeys(data, ttl, now, key);
      ghost var live := Live(now);
      if key in data && DurationSince(now, data[key].lastAccess) > ttl {
        AliveDrop(data, ttl, now, key);
        data := data - {key};
      }
      if key !in data {
        MakeRoom(now);
      }
      ghost var room := Live(now);
      StoredAfterRoom(live, maxEntries, room, key, Entry(if key in live then live[key].value else made, now));
      if key !in data {
        AliveWrite(data, ttl, now, key, made);
        data := data[key := Entry(made, now)];
      }
      r := data[key].value;
      AliveWrite(data, ttl, now, key, r);
      data := data[key := Entry(r, now)];
      assert room[key := Entry(made, now)][key := Entry(r, now)] == room[key := Entry(r, now)];
    }

    /** `iter().min_by_key(last_access)`: a scan in no particular order. */
    method LeastRecentlyUsed() returns (k: K)
      requires data != map[]
      ensures IsOldest(data, k)
    {
      k :| k in data;
      var todo := data.Keys - {k};
      while todo != {}
        invariant todo <= data.Keys && k in data
        invariant forall j <- data :: j in todo || data[k].lastAccess <= data[j].lastAccess
        decreases todo
      {
        var j :| j in todo;
        todo := todo - {j};
        if data[j].lastAccess < data[k].lastAccess {
          k := j;
        }
      }
    }

    method PurgeExpired(now: Instant)
      modifies this
      ensures data == old(Live(now)) && Live(now) == data && |data| <= |old(data)|
    {
      AliveFits(data, ttl, now);
      data := map k | k in data && DurationSince(now, data[k].lastAccess) <= ttl :: data[k];
    }

    /** Room for one more: first by dropping what has expired, then by evicting the least recently used. */
    method MakeRoom(now: Instant)
      requires Valid()
      modifies this
      ensures |data| < maxEntries && data.Keys <= old(data.Keys)
      ensures RoomMade(old(Live(now)), maxEntries, Live(now))
    {
      AliveFits(data, ttl, now);
      if |data| < maxEntries {
        return;
      }
      PurgeExpired(now);
      ghost var kept := data;
      hide RoomMade, Alive, IsOldest;
      while |data| >= maxEntries
        invariant |kept| <= maxEntries && (data == kept || (|data| < maxEntries && RoomMade(kept, maxEntries, data)))
        invariant data.Keys <= kept.Keys && Live(now) == data
        decreases |data|
      {
        var k := LeastRecentlyUsed();
        EvictOne(data, maxEntries, k);
        AliveKept(data, ttl, now, k);
        data := data - {k};
      }
      if data == kept {
        KeptFits(kept, maxEntries);
      }
    }
  }
}
