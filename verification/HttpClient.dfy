/** `SecureClient::request`: what is checked before anything is sent, over redirects and retries, while
    other requests keep writing to the shared cache of pinned addresses. */
module HttpClient {
  import opened Time
  import opened Wrappers
  import opened BoundedCache
  import opened SafeIp
  import Breaker

  datatype Url = Url(scheme: string, host: Option<string>)

  /** The parsers of URLs and addresses, which this model leaves arbitrary. */
  datatype Syntax = Syntax(parse: string -> Option<Url>, join: (string, string) -> Option<string>,
                           literal: string -> Option<IpAddr>)

  datatype Verb = GET | PUT | DELETE | HEAD | OPTIONS | POST | PATCH | OTHER

  datatype Answer = Response(status: nat, location: Option<string>) | Failure

  datatype Error =
    | InvalidUrl | ForbiddenScheme | MissingHost | UnsafeIp | ResolveFailed
    | EgressBlocked(host: string) | Redirect | Reqwest | RetriesExhausted | CircuitBreakerOpen

  datatype Result<+T> = Ok(value: T) | Err(error: Error)

  /** What a request has done: the address check, the pin, the allow-list check, and each attempt with the
      addresses it was free to connect to. */
  datatype Event =
    | Verified(url: string, ip: IpAddr)
    | Pinned(host: string, ip: IpAddr)
    | Cleared(host: string)
    | Attempted(url: string, to: seq<IpAddr>, answer: Answer)

  const MAX_ATTEMPTS := 3
  const MAX_REDIRECTS := 3
  const PIN_CACHE_MAX_ENTRIES: nat := 1024
  const PIN_CACHE_TTL: nat := 300 * NANOS_PER_SEC
  const BREAKER_CACHE_MAX_ENTRIES: nat := 1024
  const BREAKER_CACHE_TTL: nat := 3600 * NANOS_PER_SEC

  predicate Permitted(ip: IpAddr, allowLoopback: bool) {
    (allowLoopback && IsLoopback(ip)) || IsSafeIp(ip)
  }

  predicate AllPermitted(ips: seq<IpAddr>, allowLoopback: bool) {
    forall ip <- ips :: Permitted(ip, allowLoopback)
  }

  /** The loop over resolved addresses in `resolve_and_verify_ssrf_ext`: one bad address spoils them all. */
  method FirstOf(addrs: seq<IpAddr>, allowLoopback: bool) returns (r: Result<IpAddr>)
    ensures r.Ok? <==> addrs != [] && forall ip <- addrs :: IsSafeIp(ip) || (allowLoopback && IsLoopback(ip))
    ensures r.Ok? ==> r.value == addrs[0]
    ensures r.Err? ==> r.error == if addrs == [] then ResolveFailed else UnsafeIp
  {
    var safe: Option<IpAddr> := None;
    for i := 0 to |addrs|
      invariant AllPermitted(addrs[..i], allowLoopback)
      invariant safe == if i == 0 then None else Some(addrs[0])
    {
      var ip := addrs[i];
      if (!allowLoopback || !IsLoopback(ip)) && !IsSafeIp(ip) {
        assert ip in addrs;
        return Err(UnsafeIp);
      }
      if safe == None {
        safe := Some(ip);
      }
    }
    if safe == None {
      return Err(ResolveFailed);
    }
    assert addrs[..|addrs|] == addrs;
    return Ok(safe.value);
  }

  /** The loop in `PinnedResolver::resolve`. */
  method AllOf(addrs: seq<IpAddr>, allowLoopback: bool) returns (r: Option<seq<IpAddr>>)
    ensures r == if addrs != [] && forall ip <- addrs :: IsSafeIp(ip) || (allowLoopback && IsLoopback(ip))
                 then Some(addrs) else None
  {
    var resolved := [];
    for i := 0 to |addrs|
      invariant resolved == addrs[..i] && AllPermitted(resolved, allowLoopback)
    {
      var ip := addrs[i];
      if (!allowLoopback || !IsLoopback(ip)) && !IsSafeIp(ip) {
        assert ip in addrs;
        return None;
      }
      resolved := resolved + [ip];
    }
    assert addrs[..|addrs|] == addrs;
    return if resolved == [] then None else Some(resolved);
  }

  // --- What a request may do -------------------------------------------------------------------

  predicate IsRedirection(a: Answer) { a.Response? && 300 <= a.status < 400 }

  predicate IsTransient(a: Answer) { a.Failure? || 500 <= a.status < 600 }

  predicate Retryable(verb: Verb, headers: set<string>) {
    verb in {GET, PUT, DELETE, HEAD, OPTIONS} || "idempotency-key" in headers || "x-idempotency-key" in headers
  }

  lemma RetryableIff(verb: Verb, headers: set<string>)
    ensures Retryable(verb, headers)
       <==> verb in {GET, PUT, DELETE, HEAD, OPTIONS} || headers * {"idempotency-key", "x-idempotency-key"} != {}
  {
    if "idempotency-key" in headers { assert "idempotency-key" in headers * {"idempotency-key", "x-idempotency-key"}; }
    if "x-idempotency-key" in headers { assert "x-idempotency-key" in headers * {"idempotency-key", "x-idempotency-key"}; }
  }

  predicate AreAllAttempts(es: seq<Event>, url: string) {
    forall e <- es :: e.Attempted? && e.url == url
  }

  predicate AllTo(es: seq<Event>, allowLoopback: bool) {
    forall e <- es :: e.Attempted? ==> AllPermitted(e.to, allowLoopback)
  }

  predicate AllTransient(es: seq<Event>) {
    forall e <- es :: e.Attempted? && IsTransient(e.answer)
  }

  function AttemptLimit(retryable: bool): nat { if retryable then MAX_ATTEMPTS else 1 }

  /** The attempts of one hop: tried again after exactly the transient answers, up to the limit. */
  predicate AreAttempts(es: seq<Event>, url: string, retryable: bool) {
    && 1 <= |es| <= AttemptLimit(retryable)
    && AreAllAttempts(es, url)
    && AllTransient(es[..|es| - 1])
    && (|es| < AttemptLimit(retryable) ==> !IsTransient(es[|es| - 1].answer))
  }

  /** Before attempt number `n`: all attempts so far had transient answers, and another one is allowed. */
  predicate Retrying(es: seq<Event>, n: nat, url: string, retryable: bool, allowLoopback: bool) {
    && |es| + 1 == n && AreAllAttempts(es, url) && AllTo(es, allowLoopback) && AllTransient(es)
    && (n > 1 ==> retryable)
  }

  lemma NothingTried(url: string, retryable: bool, allowLoopback: bool)
    ensures Retrying([], 1, url, retryable, allowLoopback)
  {
  }

  /** One more attempt is either the last, or leaves room for another. */
  lemma TriedOnceMore(es: seq<Event>, e: Event, n: nat, url: string, retryable: bool, allowLoopback: bool)
    requires Retrying(es, n, url, retryable, allowLoopback) && n <= MAX_ATTEMPTS
    requires e.Attempted? && e.url == url && AllPermitted(e.to, allowLoopback)
    ensures AllTo(es + [e], allowLoopback) && (es + [e])[|es + [e]| - 1] == e
    ensures
      if IsTransient(e.answer) && n < MAX_ATTEMPTS && retryable then Retrying(es + [e], n + 1, url, retryable, allowLoopback)
      else AreAttempts(es + [e], url, retryable)
    ensures e.answer.Failure? ==> IsTransient(e.answer)
    ensures e.answer.Response? ==> (IsTransient(e.answer) <==> 500 <= e.answer.status < 600)
  {
    assert (es + [e])[..|es|] == es;
    hide AllPermitted;
  }

  datatype Hop = Hop(url: string, host: string, ip: IpAddr, attempts: seq<Event>)

  function Events(h: Hop): seq<Event> {
    [Verified(h.url, h.ip), Pinned(h.host, h.ip), Cleared(h.host)] + h.attempts
  }

  function Flatten(hops: seq<Hop>): seq<Event> {
    if hops == [] then [] else Flatten(hops[..|hops| - 1]) + Events(hops[|hops| - 1])
  }

  /** What the client was configured with, and whether the request at hand may be repeated. */
  datatype Policy = Policy(syntax: Syntax, allowLoopback: bool, allowlist: Option<set<string>>, retryable: bool)

  predicate IsListed(p: Policy, host: string) {
    p.allowlist.None? || host in p.allowlist.value
  }

  /** What the address check may say of a URL: everything but the name server's answer is fixed. */
  predicate CheckSays(syntax: Syntax, allowLoopback: bool, url: string, r: Result<IpAddr>) {
    var u := syntax.parse(url);
    if u == None then r == Err(InvalidUrl)
    else if u.value.scheme !in {"http", "https"} then r == Err(ForbiddenScheme)
    else if u.value.host == None then r == Err(MissingHost)
    else
      var ip := syntax.literal(u.value.host.value);
      if ip.Some? then r == if Permitted(ip.value, allowLoopback) then Ok(ip.value) else Err(UnsafeIp)
      else if r.Ok? then Permitted(r.value, allowLoopback)
      else r.error in {UnsafeIp, ResolveFailed}
  }

  predicate IsHost(p: Policy, url: string, host: string) {
    p.syntax.parse(url).Some? && p.syntax.parse(url).value.host == Some(host)
  }

  predicate IsLawfulHop(p: Policy, h: Hop) {
    && IsHost(p, h.url, h.host) && CheckSays(p.syntax, p.allowLoopback, h.url, Ok(h.ip)) && IsListed(p, h.host)
    && AreAttempts(h.attempts, h.url, p.retryable) && AllTo(h.attempts, p.allowLoopback)
  }

  function LastAnswer(h: Hop): Answer {
    if h.attempts == [] then Failure
    else if h.attempts[|h.attempts| - 1].Attempted? then h.attempts[|h.attempts| - 1].answer
    else Failure
  }

  /** Where a redirection leads: an absolute location as it stands, any other joined to the URL it came from. */
  function Target(p: Policy, url: string, a: Answer): Option<string> {
    if a.Failure? || a.location == None then None
    else if p.syntax.parse(a.location.value).Some? then a.location
    else p.syntax.join(url, a.location.value)
  }

  /** How the request ends after `h`, its hop number `n`; None if it follows a redirection. */
  function Ending(p: Policy, n: nat, h: Hop): Option<Result<Answer>> {
    var a := LastAnswer(h);
    if a.Failure? then Some(Err(Reqwest))
    else if !IsRedirection(a) then Some(Ok(a))
    else if n > MAX_REDIRECTS || a.location == None then Some(Err(Redirect))
    else if Target(p, h.url, a) == None then Some(Err(InvalidUrl))
    else None
  }

  function Next(p: Policy, start: string, hops: seq<Hop>): string {
    if hops == [] then start
    else
      var h := hops[|hops| - 1];
      match Target(p, h.url, LastAnswer(h)) case Some(url) => url case None => start
  }

  /** `h` is where a request that made `hops` goes next. */
  predicate IsNextHop(p: Policy, start: string, hops: seq<Hop>, h: Hop) {
    h.url == Next(p, start, hops) && IsLawfulHop(p, h)
  }

  /** Lawful hops, each to where the one before it was redirected, and all of them to be followed by another. */
  predicate AreHops(p: Policy, start: string, hops: seq<Hop>)
    decreases |hops|
  {
    hops == [] ||
    var h, before := hops[|hops| - 1], hops[..|hops| - 1];
    AreHops(p, start, before) && IsNextHop(p, start, before, h) && Ending(p, |hops|, h) == None
  }

  /** A hop that is given up before anything is sent. */
  predicate IsRefused(p: Policy, url: string, events: seq<Event>, error: Error) {
    var u := p.syntax.parse(url);
    if u == None || u.value.host == None then
      events == [] && error == if u == None then InvalidUrl else MissingHost
    else if events == [] then CheckSays(p.syntax, p.allowLoopback, url, Err(error))
    else
      var host := u.value.host.value;
      && events[0].Verified? && events == [Verified(url, events[0].ip), Pinned(host, events[0].ip)]
      && CheckSays(p.syntax, p.allowLoopback, url, Ok(events[0].ip)) && !IsListed(p, host) && error == EgressBlocked(host)
  }

  /** A whole request: its hops, what it did after the last of them, and its result. */
  predicate IsRequest(p: Policy, start: string, hops: seq<Hop>, rest: seq<Event>, r: Result<Answer>) {
    if AreHops(p, start, hops) then r.Err? && IsRefused(p, Next(p, start, hops), rest, r.error)
    else
      hops != [] && rest == [] &&
      var h, before := hops[|hops| - 1], hops[..|hops| - 1];
      AreHops(p, start, before) && IsNextHop(p, start, before, h) && Ending(p, |hops|, h) == Some(r)
  }

  // --- The client ------------------------------------------------------------------------------

  ghost predicate PinsPermitted(live: map<string, Entry<IpAddr>>, allowLoopback: bool) {
    forall host <- live :: Permitted(live[host].value, allowLoopback)
  }

  lemma PinsPermittedLater(data: map<string, Entry<IpAddr>>, ttl: nat, allowLoopback: bool, t: Instant, u: Instant)
    requires PinsPermitted(Alive(data, ttl, t), allowLoopback) && t <= u
    ensures PinsPermitted(Alive(data, ttl, u), allowLoopback)
  {
    forall host | host in Alive(data, ttl, u) ensures host in Alive(data, ttl, t) {}
  }

  /** No operation of the cache makes an address up. */
  lemma PinsPermittedKept(live: map<string, Entry<IpAddr>>, capacity: nat, op: Op<string, IpAddr>, now: Instant,
                          reply: Option<IpAddr>, live': map<string, Entry<IpAddr>>, allowLoopback: bool)
    requires PinsPermitted(live, allowLoopback) && EagerOp(live, capacity, op, now, reply, live')
    requires op.Get? || (op.Insert? && Permitted(op.value, allowLoopback))
    ensures PinsPermitted(live', allowLoopback)
    ensures reply.Some? ==> Permitted(reply.value, allowLoopback)
  {
    hide Permitted, IsOldest;
  }

  /** Every value in the cache is one of `known`. */
  ghost predicate AllAmong<V>(live: map<string, Entry<V>>, known: set<V>) {
    forall k <- live :: live[k].value in known
  }

  lemma AmongLater<V>(data: map<string, Entry<V>>, ttl: nat, known: set<V>, t: Instant, u: Instant)
    requires AllAmong(Alive(data, ttl, t), known) && t <= u
    ensures AllAmong(Alive(data, ttl, u), known)
  {
    forall k | k in Alive(data, ttl, u) ensures k in Alive(data, ttl, t) {}
  }

  /** `get_or_insert_with` yields the live value, or the one just made, and adds no other. */
  lemma AmongKept<V>(live: map<string, Entry<V>>, capacity: nat, k: string, made: V, now: Instant, reply: V,
                     live': map<string, Entry<V>>, known: set<V>)
    requires AllAmong(live, known) && EagerOp(live, capacity, Op.GetOrInsert(k, made), now, Some(reply), live')
    ensures AllAmong(live', known + {made}) && reply in known + {made}
    ensures reply == if k in live then live[k].value else made
  {
    hide IsOldest;
  }

  lemma FailedByLater(guards: set<Breaker.AsyncCircuitBreaker>, t: Instant, u: Instant)
    requires t <= u && forall b <- guards :: Breaker.FailedBy(b.history, t)
    ensures forall b <- guards :: Breaker.FailedBy(b.history, u)
  {
  }

  // --- Inside the breaker ----------------------------------------------------------------------

  /** The error as the breaker sees it. One made by sending has no status: a response, whatever its status, is
      not an error. */
  function ToHttpError(e: Error): Breaker.HttpError {
    if e.Reqwest? then Breaker.Reqwest(0, false) else Breaker.OtherError
  }

  /** How a request counts for its host's breaker. */
  function Completion(r: Result<Answer>, t: Instant): Breaker.Event {
    if r.Ok? then Breaker.Succeeded else Breaker.Failed(Breaker.ShouldTrip(ToHttpError(r.error)), t)
  }

  lemma EveryErrorTrips(r: Result<Answer>, t: Instant)
    ensures Completion(r, t) == if r.Ok? then Breaker.Succeeded else Breaker.Failed(true, t)
  {
  }

  /** The breaker that guards a URL is that of its host, or of "default". */
  function Domain(u: Url): string {
    if u.host.Some? then u.host.value else "default"
  }

  /** How far a request got. */
  datatype Stage =
    | Unparsed
    | Blocked(guard: Breaker.AsyncCircuitBreaker)
    /** `from` is where in the history of its breaker it began. */
    | Ran(guard: Breaker.AsyncCircuitBreaker, from: nat, hops: seq<Hop>, rest: seq<Event>)

  class SecureClient {
    const pins: Cache<string, IpAddr>
    const breakers: Cache<string, Breaker.AsyncCircuitBreaker>
    const syntax: Syntax
    const allowLoopback: bool
    const allowlist: Option<set<string>>
    var now: Instant
    /** What the request being followed has done so far. */
    ghost var log: seq<Event>
    /** All breakers ever made, also those that the cache has let go. */
    ghost var guards: set<Breaker.AsyncCircuitBreaker>

    ghost predicate Valid()
      reads this, pins
    {
      pins.Valid() && PinsPermitted(pins.Live(now), allowLoopback)
    }

    ghost predicate Guarded()
      reads this, breakers, guards
    {
      && breakers.Valid() && AllAmong(breakers.Live(now), guards)
      && forall b <- guards :: b.Valid() && Breaker.FailedBy(b.history, now)
    }

    function PolicyFor(verb: Verb, headers: set<string>): (p: Policy)
      ensures p.retryable <==> verb in {GET, PUT, DELETE, HEAD, OPTIONS} || headers * {"idempotency-key", "x-idempotency-key"} != {}
      ensures p.syntax == syntax && p.allowLoopback == allowLoopback && p.allowlist == allowlist
    {
      RetryableIff(verb, headers);
      Policy(syntax, allowLoopback, allowlist, Retryable(verb, headers))
    }

    constructor (syntax: Syntax, allowLoopback: bool, allowlist: Option<set<string>>, now: Instant)
      ensures Valid() && Guarded() && guards == {}
      ensures this.syntax == syntax && this.allowLoopback == allowLoopback && this.allowlist == allowlist
      ensures this.now == now && log == []
      ensures fresh(pins) && pins.maxEntries == 1024 && pins.ttl == 300 * 1_000_000_000
      ensures fresh(breakers) && breakers.maxEntries == 1024 && breakers.ttl == 3600 * 1_000_000_000
    {
      this.syntax, this.allowLoopback, this.allowlist := syntax, allowLoopback, allowlist;
      this.now := now;
      pins := new Cache(PIN_CACHE_MAX_ENTRIES, PIN_CACHE_TTL);
      breakers := new Cache(BREAKER_CACHE_MAX_ENTRIES, BREAKER_CACHE_TTL);
      guards := {};
      log := [];
    }

    /** Time passes and other requests, which check before they pin, use the cache. */
    method Await()
      requires Valid()
      modifies this`now, pins
      ensures Valid() && now >= old(now)
    {
      var others: nat :| 0 <= others;
      for i := 0 to others
        invariant Valid() && now >= old(now)
      {
        var elapsed: nat :| 0 <= elapsed;
        PinsPermittedLater(pins.data, pins.ttl, allowLoopback, now, now + elapsed);
        now := now + elapsed;
        ghost var live := pins.Live(now);
        var host: string, ip: IpAddr, pin: bool := *, *, *;
        if pin && Permitted(ip, allowLoopback) {
          pins.Insert(host, ip, now);
          PinsPermittedKept(live, pins.maxEntries, Op.Insert(host, ip), now, None, pins.Live(now), allowLoopback);
        } else {
          var r := pins.Get(host, now);
          PinsPermittedKept(live, pins.maxEntries, Op.Get(host), now, r, pins.Live(now), allowLoopback);
        }
      }
    }

    /** `resolve_and_verify_ssrf_ext`, and what the name server answered if it was asked. */
    method ResolveAndVerify(url: string) returns (r: Result<IpAddr>, ghost resolved: Option<seq<IpAddr>>)
      modifies this`log
      ensures CheckSays(syntax, allowLoopback, url, r)
      ensures
        var u := syntax.parse(url);
        && u.Some? && u.value.scheme in {"http", "https"} && u.value.host.Some? && syntax.literal(u.value.host.value).None? ==>
        var addrs := if resolved.Some? then resolved.value else [];
        && (r.Ok? <==> addrs != [] && forall ip <- addrs :: IsSafeIp(ip) || (allowLoopback && IsLoopback(ip)))
        && (r.Ok? ==> r.value == addrs[0])
        && (r.Err? ==> r.error == if addrs == [] then ResolveFailed else UnsafeIp)
      ensures log == old(log) + if r.Ok? then [Verified(url, r.value)] else []
    {
      resolved := None;
      var parsed := syntax.parse(url);
      if parsed == None {
        return Err(InvalidUrl), resolved;
      }
      if parsed.value.scheme != "http" && parsed.value.scheme != "https" {
        return Err(ForbiddenScheme), resolved;
      }
      if parsed.value.host == None {
        return Err(MissingHost), resolved;
      }
      var ip := syntax.literal(parsed.value.host.value);
      if ip.Some? {
        if (!allowLoopback || !IsLoopback(ip.value)) && !IsSafeIp(ip.value) {
          return Err(UnsafeIp), resolved;
        }
        r := Ok(ip.value);
      } else {
        var addrs: Option<seq<IpAddr>> := *;  // the name server
        resolved := addrs;
        if addrs == None {
          return Err(ResolveFailed), resolved;
        }
        r := FirstOf(addrs.value, allowLoopback);
        if r.Err? {
          return;
        }
        assert r.value in addrs.value;
      }
      log := log + [Verified(url, r.value)];
    }

    /** `PinnedResolver::resolve`: the live pin if there is one, otherwise addresses checked afresh. */
    method Resolve(host: string) returns (r: Option<seq<IpAddr>>, ghost resolved: Option<seq<IpAddr>>)
      requires Valid()
      modifies pins
      ensures Valid()
      ensures r.Some? ==> r.value != [] && forall ip <- r.value :: IsSafeIp(ip) || (allowLoopback && IsLoopback(ip))
      ensures host in old(pins.Live(now)) ==> r == Some([old(pins.Live(now))[host].value])
      ensures host !in old(pins.Live(now)) ==>
        var addrs := if resolved.Some? then resolved.value else [];
        r == if addrs != [] && forall ip <- addrs :: IsSafeIp(ip) || (allowLoopback && IsLoopback(ip))
             then Some(addrs) else None
    {
      ghost var live := pins.Live(now);
      var pinned := pins.Get(host, now);
      PinsPermittedKept(live, pins.maxEntries, Op.Get(host), now, pinned, pins.Live(now), allowLoopback);
      resolved := None;
      if pinned.Some? {
        return Some([pinned.value]), resolved;
      }
      var addrs: Option<seq<IpAddr>> := *;  // the name server
      resolved := addrs;
      if addrs == None {
        return None, resolved;
      }
      r := AllOf(addrs.value, allowLoopback);
    }

    method Pin(host: string, ip: IpAddr)
      requires Valid() && Permitted(ip, allowLoopback)
      modifies this`log, pins
      ensures Valid() && log == old(log) + [Pinned(host, ip)]
      ensures host in pins.Live(now) && pins.Live(now)[host].value == ip
    {
      ghost var live := pins.Live(now);
      pins.Insert(host, ip, now);
      PinsPermittedKept(live, pins.maxEntries, Op.Insert(host, ip), now, None, pins.Live(now), allowLoopback);
      log := log + [Pinned(host, ip)];
    }

    /** One request on the wire. A literal address is connected to as it stands. */
    method Send(url: string, host: string) returns (a: Answer, ghost e: Event)
      requires Valid() && (syntax.literal(host).Some? ==> Permitted(syntax.literal(host).value, allowLoopback))
      modifies this`now, this`log, pins
      ensures Valid() && now >= old(now) && log == old(log) + [e]
      ensures e.Attempted? && e.url == url && e.answer == a && AllPermitted(e.to, allowLoopback)
      ensures syntax.literal(host).Some? ==> e.to == [syntax.literal(host).value]
    {
      Await();
      var to := [];
      var literal := syntax.literal(host);
      if literal.Some? {
        to := [literal.value];
      } else {
        var resolved, _ := Resolve(host);
        to := if resolved.Some? then resolved.value else [];
      }
      var answer: Answer := *;  // the server
      a := if to == [] then Failure else answer;
      e := Attempted(url, to, a);
      log := log + [e];
    }

    /** `execute_with_retry`. */
    method ExecuteWithRetry(verb: Verb, headers: set<string>, url: string, host: string)
      returns (r: Result<Answer>, ghost es: seq<Event>)
      requires Valid() && (syntax.literal(host).Some? ==> Permitted(syntax.literal(host).value, allowLoopback))
      modifies this`now, this`log, pins
      ensures Valid() && now >= old(now) && log == old(log) + es
      ensures
        var repeatable := verb in {GET, PUT, DELETE, HEAD, OPTIONS} || headers * {"idempotency-key", "x-idempotency-key"} != {};
        AreAttempts(es, url, repeatable) && AllTo(es, allowLoopback)
      ensures r == if es[|es| - 1].answer.Failure? then Err(Reqwest) else Ok(es[|es| - 1].answer)
    {
      RetryableIff(verb, headers);
      hide Valid, Permitted, AllPermitted, Retryable, Retrying, AreAttempts, AllTo, IsTransient;
      var shouldRetry := Retryable(verb, headers);
      es := [];
      NothingTried(url, shouldRetry, allowLoopback);
      for attempt := 1 to MAX_ATTEMPTS + 1
        invariant Valid() && now >= old(now) && log == old(log) + es
        invariant attempt <= MAX_ATTEMPTS && Retrying(es, attempt, url, shouldRetry, allowLoopback)
      {
        ghost var before := es;
        var a;
        ghost var e;
        a, e := Send(url, host);
        es := before + [e];
        AppendAssoc(old(log), before, [e]);
        TriedOnceMore(before, e, attempt, url, shouldRetry, allowLoopback);
        match a {
          case Response(status, _) =>
            if 500 <= status < 600 && attempt < MAX_ATTEMPTS && shouldRetry {
              continue;
            }
            return Ok(a), es;
          case Failure =>
            if attempt < MAX_ATTEMPTS && shouldRetry {
            } else {
              return Err(Reqwest), es;
            }
        }
      }
      return Err(RetriesExhausted), es;
    }

    /** One turn of the loop in `request`: check, pin, clear, send. */
    method Visit(verb: Verb, headers: set<string>, url: string)
      returns (r: Result<Answer>, ghost hop: Option<Hop>, ghost rest: seq<Event>)
      requires Valid()
      modifies this`now, this`log, pins
      ensures Valid() && now >= old(now) && (hop.None? ==> r.Err? && IsRefused(PolicyFor(verb, headers), url, rest, r.error))
      ensures hop.Some? ==>
        && IsLawfulHop(PolicyFor(verb, headers), hop.value) && hop.value.url == url && rest == []
        && r == if LastAnswer(hop.value).Failure? then Err(Reqwest) else Ok(LastAnswer(hop.value))
      ensures log == old(log) + if hop.Some? then Events(hop.value) else rest
    {
      hide Alive, PinsPermitted, Permitted, AreAttempts, Retryable, CheckSays, IsRefused, IsLawfulHop, LastAnswer, AllTo, Events;
      ghost var p, before := PolicyFor(verb, headers), log;
      hop, rest := None, [];
      Await();
      var parsed := syntax.parse(url);
      if parsed == None {
        RefusedUnread(p, url, InvalidUrl);
        return Err(InvalidUrl), hop, rest;
      }
      if parsed.value.host == None {
        RefusedUnread(p, url, MissingHost);
        return Err(MissingHost), hop, rest;
      }
      var host := parsed.value.host.value;
      var ip, _ := ResolveAndVerify(url);
      if ip.Err? {
        RefusedByCheck(p, url, ip.error);
        return Err(ip.error), hop, rest;
      }
      AcceptedIsPermitted(p, url, ip.value);
      Pin(host, ip.value);
      if allowlist.Some? && host !in allowlist.value {
        rest := [Verified(url, ip.value), Pinned(host, ip.value)];
        r := Err(EgressBlocked(host));
        RefusedByList(p, url, host, ip.value);
        return;
      }
      log := log + [Cleared(host)];
      ghost var es;
      r, es := ExecuteWithRetry(verb, headers, url, host);
      hop := Some(Hop(url, host, ip.value, es));
      HopLogged(before, hop.value);
      LawfulHop(p, hop.value);
    }

    /** The loop of `request`, which runs inside the circuit breaker. */
    method Follow(verb: Verb, headers: set<string>, start: string)
      returns (r: Result<Answer>, ghost hops: seq<Hop>, ghost rest: seq<Event>)
      requires Valid()
      modifies this`now, this`log, pins
      ensures Valid() && now >= old(now) && IsRequest(PolicyFor(verb, headers), start, hops, rest, r)
      ensures log == old(log) + (Flatten(hops) + rest)
    {
      ghost var p := PolicyFor(verb, headers);
      hops, rest := [], [];
      var currentUrl, redirectCount := start, 0;
      hide Alive, PinsPermitted, Flatten, AreHops, IsNextHop, IsLawfulHop, LastAnswer, Next, IsRequest, IsRefused, Events;
      NoHops(p, start);
      while true
        invariant Valid() && now >= old(now) && AreHops(p, start, hops) && currentUrl == Next(p, start, hops)
        invariant redirectCount == |hops| <= MAX_REDIRECTS && rest == []
        invariant log == old(log) + Flatten(hops)
        decreases MAX_REDIRECTS - redirectCount
      {
        ghost var logged, before := log, hops;
        ghost var hop;
        r, hop, rest := Visit(verb, headers, currentUrl);
        if hop.Some? {
          hops := hops + [hop.value];
          HopTaken(p, start, before, hop.value);
        } else {
          Refused(p, start, hops, rest, r.error);
        }
        if r.Err? {
          return;
        }
        if IsRedirection(r.value) {
          if redirectCount >= MAX_REDIRECTS {
            return Err(Redirect), hops, rest;
          }
          if r.value.location == None {
            return Err(Redirect), hops, rest;
          }
          var loc := r.value.location.value;
          var next := if syntax.parse(loc).Some? then Some(loc) else syntax.join(currentUrl, loc);
          if next == None {
            return Err(InvalidUrl), hops, rest;
          }
          currentUrl := next.value;
          redirectCount := redirectCount + 1;
        } else {
          return;
        }
      }
    }

    /** `get_breaker` */
    method GetBreaker(domain: string) returns (b: Breaker.AsyncCircuitBreaker)
      requires Valid() && Guarded()
      modifies this`guards, breakers
      ensures Valid() && Guarded() && b in guards
      ensures guards >= old(guards) && fresh(guards - old(guards))
      ensures domain in old(breakers.Live(now)) ==> b == old(breakers.Live(now))[domain].value
      ensures domain !in old(breakers.Live(now)) ==> b !in old(guards) && b.history == [] && b.config == Breaker.Config(5, 30 * 1_000_000_000)
    {
      hide EagerOp, Alive, AllAmong, Breaker.Happens, Breaker.After;
      ghost var live := breakers.Live(now);
      var made := new Breaker.AsyncCircuitBreaker(5, 30 * NANOS_PER_SEC);
      b := breakers.GetOrInsertWith(domain, now, made);
      AmongKept(live, breakers.maxEntries, domain, made, now, b, breakers.Live(now), guards);
      guards := guards + {made};
    }

    /** Meanwhile other requests begin and complete under the same breaker. */
    method Others(b: Breaker.AsyncCircuitBreaker)
      requires Valid() && Guarded() && b in guards
      modifies this`now, pins, b
      ensures Valid() && Guarded() && now >= old(now) && old(b.history) <= b.history
    {
      hide *;
      var others: nat :| 0 <= others;
      for i := 0 to others
        invariant Valid() && Guarded() && now >= old(now) && old(b.history) <= b.history
      {
        AwaitGuarded();
        Another(b);
      }
    }

    /** Another request begins, having read the clock at some time before, or completes. */
    method Another(b: Breaker.AsyncCircuitBreaker)
      requires Valid() && Guarded() && b in guards
      modifies b
      ensures Valid() && Guarded() && old(b.history) <= b.history
    {
      var t: Instant :| 0 <= t <= now;
      var begins: bool, succeeds: bool, e: Breaker.HttpError := *, *, *;
      if begins {
        var _ := b.Begin(t);
      } else if succeeds {
        b.CompleteOk();
      } else {
        b.CompleteErr(e, now);
      }
    }

    method AwaitGuarded()
      requires Valid() && Guarded()
      modifies this`now, pins
      ensures Valid() && Guarded() && now >= old(now)
    {
      ghost var t := now;
      Await();
      FailedByLater(guards, t, now);
      AmongLater(breakers.data, breakers.ttl, guards, t, now);
    }

    /** The loop, and its completion under the breaker. */
    method Run(verb: Verb, headers: set<string>, start: string, b: Breaker.AsyncCircuitBreaker)
      returns (r: Result<Answer>, ghost hops: seq<Hop>, ghost rest: seq<Event>)
      requires Valid() && Guarded() && b in guards
      modifies this`now, this`log, pins, b
      ensures Valid() && Guarded() && now >= old(now)
      ensures IsRequest(PolicyFor(verb, headers), start, hops, rest, r) && log == old(log) + (Flatten(hops) + rest)
      ensures old(b.history) < b.history && b.history[|b.history| - 1] == Completion(r, now)
    {
      hide *;
      r, hops, rest := FollowGuarded(verb, headers, start);
      Others(b);
      Complete(b, r);
    }

    method FollowGuarded(verb: Verb, headers: set<string>, start: string)
      returns (r: Result<Answer>, ghost hops: seq<Hop>, ghost rest: seq<Event>)
      requires Valid() && Guarded()
      modifies this`now, this`log, pins
      ensures Valid() && Guarded() && now >= old(now)
      ensures IsRequest(PolicyFor(verb, headers), start, hops, rest, r) && log == old(log) + (Flatten(hops) + rest)
    {
      hide IsRequest, Flatten, AllAmong, Breaker.FailedBy;
      ghost var t := now;
      r, hops, rest := Follow(verb, headers, start);
      FailedByLater(guards, t, now);
      AmongLater(breakers.data, breakers.ttl, guards, t, now);
    }

    method Begin(b: Breaker.AsyncCircuitBreaker) returns (admitted: bool)
      requires Valid() && Guarded() && b in guards
      modifies b
      ensures Valid() && Guarded()
      ensures b.history == old(b.history) + [if admitted then Breaker.Began(now) else Breaker.Rejected(now)]
    {
      admitted := b.Begin(now);
    }

    method Complete(b: Breaker.AsyncCircuitBreaker, r: Result<Answer>)
      requires Valid() && Guarded() && b in guards
      modifies b
      ensures Valid() && Guarded() && b.history == old(b.history) + [Completion(r, now)]
    {
      match r
      case Ok(_) => b.CompleteOk();
      case Err(e) => b.CompleteErr(ToHttpError(e), now);
    }

    /** `request`: the loop inside the breaker of the first URL's host. */
    method Request(verb: Verb, headers: set<string>, start: string) returns (r: Result<Answer>, ghost stage: Stage)
      requires Valid() && Guarded()
      modifies this, pins, breakers, guards
      ensures Valid() && Guarded()
      ensures stage.Unparsed? <==> syntax.parse(start) == None
      ensures stage.Unparsed? ==> r == Err(InvalidUrl) && log == old(log)
      ensures !stage.Unparsed? ==>
        var host := syntax.parse(start).value.host;
        var domain := if host.Some? then host.value else "default";
        && stage.guard in guards && stage.guard.history != []
        && (domain in old(breakers.Live(now)) ==> stage.guard == old(breakers.Live(now))[domain].value)
      ensures stage.Blocked? ==>
        var h := stage.guard.history;
        h[|h| - 1].Rejected? && r == Err(CircuitBreakerOpen) && log == old(log)
      ensures stage.Ran? ==>
        var h := stage.guard.history;
        && stage.from < |h| - 1 && h[stage.from].Began? && h[stage.from].now >= old(now)
        && h[|h| - 1] == (if r.Ok? then Breaker.Succeeded else Breaker.Failed(true, now))
        && IsRequest(PolicyFor(verb, headers), start, stage.hops, stage.rest, r)
        && log == old(log) + (Flatten(stage.hops) + stage.rest)
    {
      hide Valid, Guarded, IsRequest, Flatten, Alive, Completion, Retryable;
      var parsed := syntax.parse(start);
      if parsed == None {
        return Err(InvalidUrl), Unparsed;
      }
      var breaker := GetBreaker(Domain(parsed.value));
      Others(breaker);
      ghost var from := |breaker.history|;
      var admitted := Begin(breaker);
      if !admitted {
        return Err(CircuitBreakerOpen), Blocked(breaker);
      }
      ghost var hops, rest;
      r, hops, rest := Run(verb, headers, start, breaker);
      EveryErrorTrips(r, now);
      stage := Ran(breaker, from, hops, rest);
    }
  }

  lemma RefusedUnread(p: Policy, url: string, e: Error)
    requires p.syntax.parse(url) == None || p.syntax.parse(url).value.host == None
    requires e == if p.syntax.parse(url) == None then InvalidUrl else MissingHost
    ensures IsRefused(p, url, [], e)
  {
  }

  lemma RefusedByCheck(p: Policy, url: string, e: Error)
    requires p.syntax.parse(url).Some? && p.syntax.parse(url).value.host.Some?
    requires CheckSays(p.syntax, p.allowLoopback, url, Err(e))
    ensures IsRefused(p, url, [], e)
  {
  }

  lemma RefusedByList(p: Policy, url: string, host: string, ip: IpAddr)
    requires IsHost(p, url, host) && CheckSays(p.syntax, p.allowLoopback, url, Ok(ip)) && !IsListed(p, host)
    ensures IsRefused(p, url, [Verified(url, ip), Pinned(host, ip)], EgressBlocked(host))
  {
    hide CheckSays;
  }

  lemma AcceptedIsPermitted(p: Policy, url: string, ip: IpAddr)
    requires CheckSays(p.syntax, p.allowLoopback, url, Ok(ip))
    ensures Permitted(ip, p.allowLoopback)
    ensures p.syntax.parse(url).Some? && p.syntax.parse(url).value.host.Some?
    ensures var literal := p.syntax.literal(p.syntax.parse(url).value.host.value); literal.Some? ==> literal.value == ip
  {
    hide Permitted;
  }

  lemma LawfulHop(p: Policy, h: Hop)
    requires IsHost(p, h.url, h.host) && CheckSays(p.syntax, p.allowLoopback, h.url, Ok(h.ip)) && IsListed(p, h.host)
    requires AreAttempts(h.attempts, h.url, p.retryable) && AllTo(h.attempts, p.allowLoopback)
    ensures IsLawfulHop(p, h) && h.attempts != [] && h.attempts[|h.attempts| - 1].Attempted?
    ensures LastAnswer(h) == h.attempts[|h.attempts| - 1].answer
  {
    hide CheckSays, AllTo;
  }

  lemma NoHops(p: Policy, start: string)
    ensures AreHops(p, start, []) && Next(p, start, []) == start && Flatten([]) == []
  {
  }

  lemma Refused(p: Policy, start: string, hops: seq<Hop>, rest: seq<Event>, error: Error)
    requires AreHops(p, start, hops) && IsRefused(p, Next(p, start, hops), rest, error)
    ensures IsRequest(p, start, hops, rest, Err(error))
  {
  }

  lemma FlattenSnoc(before: seq<Hop>, h: Hop)
    ensures Flatten(before + [h]) == Flatten(before) + Events(h)
  {
    assert (before + [h])[..|before|] == before;
  }

  lemma HopFollowed(p: Policy, start: string, before: seq<Hop>, h: Hop)
    requires AreHops(p, start, before) && IsNextHop(p, start, before, h) && Ending(p, |before| + 1, h) == None
    ensures AreHops(p, start, before + [h]) && Some(Next(p, start, before + [h])) == Target(p, h.url, LastAnswer(h))
  {
    assert (before + [h])[..|before|] == before;
    hide IsNextHop, LastAnswer, Target;
  }

  lemma HopEnded(p: Policy, start: string, before: seq<Hop>, h: Hop, r: Result<Answer>)
    requires AreHops(p, start, before) && IsNextHop(p, start, before, h) && Ending(p, |before| + 1, h) == Some(r)
    ensures IsRequest(p, start, before + [h], [], r)
  {
    assert (before + [h])[..|before|] == before;
    hide IsNextHop, Ending;
  }

  /** What one more hop makes of a request. */
  lemma HopTaken(p: Policy, start: string, before: seq<Hop>, h: Hop)
    requires AreHops(p, start, before) && IsLawfulHop(p, h) && h.url == Next(p, start, before)
    ensures
      var hops := before + [h];
      && Flatten(hops) == Flatten(before) + Events(h)
      && match Ending(p, |hops|, h)
         case Some(r) => IsRequest(p, start, hops, [], r)
         case None => AreHops(p, start, hops) && Some(Next(p, start, hops)) == Target(p, h.url, LastAnswer(h))
  {
    FlattenSnoc(before, h);
    assert IsNextHop(p, start, before, h);
    hide *;
    match Ending(p, |before| + 1, h)
    case Some(r) => HopEnded(p, start, before, h, r);
    case None => HopFollowed(p, start, before, h);
  }

  lemma HopLogged(before: seq<Event>, h: Hop)
    ensures before + [Verified(h.url, h.ip)] + [Pinned(h.host, h.ip)] + [Cleared(h.host)] + h.attempts == before + Events(h)
  {
  }

  lemma AppendAssoc(a: seq<Event>, b: seq<Event>, c: seq<Event>)
    ensures a + b + c == a + (b + c)
  {
  }

  // --- What follows from it --------------------------------------------------------------------

  /** Nothing but attempts at `url` since the position `j` of its clearance. */
  predicate OnlyAttempts(es: seq<Event>, j: nat, i: nat, url: string) {
    forall k :: j < k <= i < |es| ==> es[k].Attempted? && es[k].url == url
  }

  /** The three checks of `url`, in order, at `j`. */
  predicate ChecksAt(p: Policy, es: seq<Event>, j: nat, url: string) {
    && j + 2 < |es| && es[j].Verified? && es[j].url == url && CheckSays(p.syntax, p.allowLoopback, url, Ok(es[j].ip))
    && es[j + 1].Pinned? && es[j + 1].ip == es[j].ip && IsHost(p, url, es[j + 1].host)
    && es[j + 2] == Cleared(es[j + 1].host) && IsListed(p, es[j + 1].host)
  }

  /** What is known of the attempt at position `i` of `es`, whose checks stand at `j`. */
  predicate SentRightly(p: Policy, es: seq<Event>, j: nat, i: nat) {
    && j + 2 < i < |es| && es[i].Attempted? && AllPermitted(es[i].to, p.allowLoopback)
    && ChecksAt(p, es, j, es[i].url) && OnlyAttempts(es, j + 2, i, es[i].url)
  }

  lemma HopSendsRightly(p: Policy, h: Hop, i: nat)
    requires IsLawfulHop(p, h) && i < |Events(h)| && Events(h)[i].Attempted?
    ensures SentRightly(p, Events(h), 0, i)
  {
    hide CheckSays, IsHost, IsListed;
    forall k | 3 <= k < |Events(h)| ensures Events(h)[k] in h.attempts {
      assert Events(h)[k] == h.attempts[k - 3];
    }
  }

  lemma SentRightlyWithin(p: Policy, before: seq<Event>, es: seq<Event>, after: seq<Event>, j: nat, i: nat)
    requires SentRightly(p, es, j, i)
    ensures SentRightly(p, before + es + after, |before| + j, |before| + i)
  {
    hide CheckSays, IsHost, IsListed, AllPermitted;
    var all, n := before + es + after, |before|;
    forall k | 0 <= k < |es| ensures all[n + k] == es[k] {}
    forall k | n + j + 2 < k <= n + i ensures all[k].Attempted? && all[k].url == es[i].url {
      assert all[k] == es[k - n];
    }
  }

  lemma SentRightlyBefore(p: Policy, es: seq<Event>, after: seq<Event>, j: nat, i: nat)
    requires SentRightly(p, es, j, i)
    ensures SentRightly(p, es + after, j, i)
  {
    hide SentRightly;
    SentRightlyWithin(p, [], es, after, j, i);
    assert [] + es + after == es + after;
  }

  lemma SentRightlyAfter(p: Policy, before: seq<Event>, es: seq<Event>, j: nat, i: nat)
    requires SentRightly(p, es, j, i)
    ensures SentRightly(p, before + es, |before| + j, |before| + i)
  {
    hide SentRightly;
    SentRightlyWithin(p, before, es, [], j, i);
    assert before + es + [] == before + es;
  }

  lemma {:induction false} HopsSendRightly(p: Policy, hops: seq<Hop>, i: nat) returns (j: nat)
    requires AllLawful(p, hops) && i < |Flatten(hops)| && Flatten(hops)[i].Attempted?
    ensures SentRightly(p, Flatten(hops), j, i)
    decreases |hops|
  {
    var h, before := hops[|hops| - 1], Flatten(hops[..|hops| - 1]);
    assert Flatten(hops) == before + Events(h);
    hide SentRightly, IsLawfulHop, Events, Flatten;
    if i < |before| {
      j := HopsSendRightly(p, hops[..|hops| - 1], i);
      SentRightlyBefore(p, before, Events(h), j, i);
    } else {
      j := |before|;
      HopSendsRightly(p, h, i - j);
      SentRightlyAfter(p, before, Events(h), 0, i - j);
    }
  }

  predicate AllLawful(p: Policy, hops: seq<Hop>) {
    forall h <- hops :: IsLawfulHop(p, h)
  }

  lemma {:induction false} HopsLawful(p: Policy, start: string, hops: seq<Hop>)
    requires AreHops(p, start, hops)
    ensures AllLawful(p, hops) && |hops| <= MAX_REDIRECTS
    decreases |hops|
  {
    if hops != [] { HopsLawful(p, start, hops[..|hops| - 1]); }
  }

  lemma RequestLawful(p: Policy, start: string, hops: seq<Hop>, rest: seq<Event>, r: Result<Answer>)
    requires IsRequest(p, start, hops, rest, r)
    ensures AllLawful(p, hops) && |hops| <= MAX_REDIRECTS + 1
    ensures forall e <- rest :: !e.Attempted?
  {
    if AreHops(p, start, hops) { HopsLawful(p, start, hops); }
    else { HopsLawful(p, start, hops[..|hops| - 1]); }
  }

  /** Nothing is sent to a URL unless that very URL was just checked, pinned and cleared, with nothing
      but earlier attempts at it in between; and every address it may go to is permitted. */
  lemma SentOnlyWhenChecked(p: Policy, start: string, hops: seq<Hop>, rest: seq<Event>, r: Result<Answer>, i: nat)
    returns (j: nat)
    requires IsRequest(p, start, hops, rest, r)
    requires i < |Flatten(hops) + rest| && (Flatten(hops) + rest)[i].Attempted?
    ensures SentRightly(p, Flatten(hops) + rest, j, i)
  {
    hide SentRightly, IsRequest;
    RequestLawful(p, start, hops, rest, r);
    assert i < |Flatten(hops)|;
    j := HopsSendRightly(p, hops, i);
    SentRightlyBefore(p, Flatten(hops), rest, j, i);
  }

  function AttemptsIn(es: seq<Event>): (n: nat)
    ensures n <= |es|
  {
    if es == [] then 0 else AttemptsIn(es[..|es| - 1]) + if es[|es| - 1].Attempted? then 1 else 0
  }

  lemma {:induction false} AttemptsAdd(a: seq<Event>, b: seq<Event>)
    ensures AttemptsIn(a + b) == AttemptsIn(a) + AttemptsIn(b)
    decreases |b|
  {
    if b == [] {
      assert a + b == a;
    } else {
      assert (a + b)[..|a + b| - 1] == a + b[..|b| - 1];
      AttemptsAdd(a, b[..|b| - 1]);
    }
  }

  lemma NoAttempts(es: seq<Event>)
    requires forall e <- es :: !e.Attempted?
    ensures AttemptsIn(es) == 0
  {
  }

  lemma {:induction false} AttemptsOfHops(p: Policy, hops: seq<Hop>)
    requires AllLawful(p, hops)
    ensures |hops| <= AttemptsIn(Flatten(hops)) <= |hops| * AttemptLimit(p.retryable)
    decreases |hops|
  {
    if hops != [] {
      var h, before := hops[|hops| - 1], hops[..|hops| - 1];
      hide IsLawfulHop, Events, AttemptsIn, AttemptLimit;
      AttemptsOfHops(p, before);
      AttemptsAdd(Flatten(before), Events(h));
      AttemptsOfHop(p, h);
      assert |hops| * AttemptLimit(p.retryable) == |before| * AttemptLimit(p.retryable) + AttemptLimit(p.retryable);
    }
  }

  lemma AttemptsOfHop(p: Policy, h: Hop)
    requires IsLawfulHop(p, h)
    ensures 1 <= AttemptsIn(Events(h)) <= AttemptLimit(p.retryable)
  {
    var checks := [Verified(h.url, h.ip), Pinned(h.host, h.ip), Cleared(h.host)];
    AttemptsAdd(checks, h.attempts);
    NoAttempts(checks);
    AllAttempts(h.attempts);
  }

  lemma AllAttempts(es: seq<Event>)
    requires forall e <- es :: e.Attempted?
    ensures AttemptsIn(es) == |es|
  {
  }

  /** At most four hops of at most three attempts, and one attempt a hop when it may not be repeated. */
  lemma FewAttempts(p: Policy, start: string, hops: seq<Hop>, rest: seq<Event>, r: Result<Answer>)
    requires IsRequest(p, start, hops, rest, r)
    ensures AttemptsIn(Flatten(hops) + rest) <= if p.retryable then 12 else 4
  {
    hide IsRequest, Flatten, AllLawful, AttemptsIn;
    RequestLawful(p, start, hops, rest, r);
    AttemptsOfHops(p, hops);
    AttemptsAdd(Flatten(hops), rest);
    NoAttempts(rest);
  }

  // --- How requests count for the breaker ------------------------------------------------------

  predicate IsServerError(a: Answer) { a.Response? && 500 <= a.status < 600 }

  /** A request counts against its breaker if and only if it returns an error. One that was answered, after
      however many hops, does so only if its last answer was a redirection it did not follow. */
  lemma CompletionIff(p: Policy, start: string, hops: seq<Hop>, rest: seq<Event>, r: Result<Answer>, t: Instant)
    requires IsRequest(p, start, hops, rest, r)
    ensures Breaker.Trips(Completion(r, t)) <==> r.Err?
    ensures !AreHops(p, start, hops) ==>
      var a := LastAnswer(hops[|hops| - 1]);
      Breaker.Trips(Completion(r, t)) <==> a.Failure? || IsRedirection(a)
  {
    hide AreHops, IsNextHop, IsRefused;
  }

  /** So a server error that outlasts its retries is a success to the breaker: it never counts, and it even closes
      a breaker that was half open. */
  lemma ServerErrorsDoNotTrip(p: Policy, start: string, hops: seq<Hop>, rest: seq<Event>, r: Result<Answer>, t: Instant,
                              c: Breaker.Config, s: Breaker.State)
    requires IsRequest(p, start, hops, rest, r) && !AreHops(p, start, hops)
    requires IsServerError(LastAnswer(hops[|hops| - 1]))
    ensures r == Ok(LastAnswer(hops[|hops| - 1])) && Breaker.Possible(c, s, Completion(r, t))
    ensures Breaker.Next(c, s, Completion(r, t)) == if s.HalfOpen? then Breaker.Closed(0) else s
  {
    hide AreHops, IsNextHop;
  }
}
