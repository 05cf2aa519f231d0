/** The fixed-window counter behind the rate limiter, and the admission decision on top of it. */
module RateLimit {
  import opened Time
  import opened SessionStore

  /** The ideal counter, which never forgets and ignores what has lapsed. */
  function CountNext(m: map<string, Entry<nat>>, key: string, at: Instant, window: nat): Entry<nat> {
    if key in m && at < m[key].expiresAt then Entry(m[key].value + 1, m[key].expiresAt) else Entry(1, at + window)
  }

  /** One completed `increment`, whose decisive clock reading was `at`. */
  datatype Hit = Hit(key: string, count: nat, at: Instant, end: Instant)

  /** What one `increment` of the lazily purged store does. */
  ghost predicate LazyIncrement(before: map<string, Entry<nat>>, window: nat, c: Hit, after: map<string, Entry<nat>>) {
    && c.at <= c.end
    && c.count == CountNext(before, c.key, c.at, window).value
    && Live(after, c.end) == Live(before[c.key := CountNext(before, c.key, c.at, window)], c.end)
  }

  class MemoryRateLimitStore {
    var data: map<string, Entry<nat>>
    const clock: Clock

    constructor (clock: Clock)
      ensures this.clock == clock && data == map[]
    {
      this.clock := clock;
      data := map[];
    }

    method Increment(key: string, windowSecs: nat) returns (count: nat, ghost at: Instant)
      modifies this, clock
      ensures old(clock.last) <= at <= clock.last
      ensures LazyIncrement(old(data), windowSecs * NANOS_PER_SEC, Hit(key, count, at, clock.last), data)
    {
      ghost var before := data;
      data := Retain(data, clock);
      PurgeUnseen(before, data, clock.last);
      ghost var t, purged := clock.last, data;
      var now := clock.Now();
      at := now;
      LiveLater(before, data, t, now);
      LiveLater(before[key := CountNext(before, key, at, windowSecs * NANOS_PER_SEC)],
                purged[key := CountNext(before, key, at, windowSecs * NANOS_PER_SEC)], t, now);
      if key in data && now < data[key].expiresAt {
        count := data[key].value + 1;
        data := data[key := Entry(count, data[key].expiresAt)];
        return;
      }
      data := data[key := Entry(1, now + windowSecs * NANOS_PER_SEC)];
      return 1, at;
    }
  }

  datatype Decision = Next | TooManyRequests

  class RateLimiter {
    const store: MemoryRateLimitStore
    const limit: nat
    const windowSecs: nat

    constructor (store: MemoryRateLimitStore, limit: nat, windowSecs: nat)
      ensures this.store == store && this.limit == limit && this.windowSecs == windowSecs
    {
      this.store := store;
      this.limit := limit;
      this.windowSecs := windowSecs;
    }

    /** `check_limit`, then the middleware's decision on the count it returns. */
    method Handle(key: string) returns (d: Decision, ghost c: Hit)
      modifies store, store.clock
      ensures c.key == key && old(store.clock.last) <= c.at && c.end == store.clock.last
      ensures LazyIncrement(old(store.data), windowSecs * NANOS_PER_SEC, c, store.data)
      ensures d == Next <==> c.count <= limit
    {
      ghost var at;
      var count;
      count, at := store.Increment(key, windowSecs);
      c := Hit(key, count, at, store.clock.last);
      d := if count > limit then TooManyRequests else Next;
    }
  }
}
