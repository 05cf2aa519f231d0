/** `JwksClient::get_key`: a read of the cache, and failing that a second look under a lock, then a fetch that
    replaces the whole cache. Any number of callers at once; the clock may move between any two steps. */
module Jwks {
  import opened Time
  import opened Wrappers

  type CallerId = nat

  /** One hour. */
  const TTL: nat := 3600 * NANOS_PER_SEC

  /** A published key, with what `jwk_to_decoding_key` makes of it. */
  datatype Jwk = Jwk(kid: string, key: Option<nat>)

  datatype Entry = Entry(key: nat, expiresAt: Instant)

  /** The cache a response gives rise to: unusable keys are skipped, later ones replace earlier ones. */
  function CacheOf(jwks: seq<Jwk>, expiresAt: Instant): map<string, Entry> {
    if jwks == [] then map[]
    else
      var last := jwks[|jwks| - 1];
      var before := CacheOf(jwks[..|jwks| - 1], expiresAt);
      if last.key.Some? then before[last.kid := Entry(last.key.value, expiresAt)] else before
  }

  ghost predicate Publishes(jwks: seq<Jwk>, kid: string) {
    exists j <- jwks :: j.kid == kid && j.key.Some?
  }

  /** The cache has a key for exactly the kids with a usable key, and it is the last one published. */
  lemma {:induction false} CacheOfIsLastUsable(jwks: seq<Jwk>, expiresAt: Instant, kid: string)
    ensures kid in CacheOf(jwks, expiresAt) <==> Publishes(jwks, kid)
    ensures kid in CacheOf(jwks, expiresAt) ==>
      && CacheOf(jwks, expiresAt)[kid].expiresAt == expiresAt
      && exists i :: 0 <= i < |jwks| && jwks[i] == Jwk(kid, Some(CacheOf(jwks, expiresAt)[kid].key))
                     && forall k :: i < k < |jwks| && jwks[k].kid == kid ==> jwks[k].key.None?
  {
    if jwks != [] {
      var n := |jwks| - 1;
      CacheOfIsLastUsable(jwks[..n], expiresAt, kid);
      assert jwks == jwks[..n] + [jwks[n]];
      if jwks[n].kid == kid && jwks[n].key.Some? {
        assert jwks[n] in jwks;
      } else if kid in CacheOf(jwks[..n], expiresAt) {
        var i :| 0 <= i < n && jwks[..n][i] == Jwk(kid, Some(CacheOf(jwks, expiresAt)[kid].key))
                     && forall k :: i < k < n && jwks[..n][k].kid == kid ==> jwks[..n][k].key.None?;
        assert jwks[i] == Jwk(kid, Some(CacheOf(jwks, expiresAt)[kid].key));
        forall k | i < k < |jwks| && jwks[k].kid == kid ensures jwks[k].key.None? {
          if k < n { assert jwks[..n][k] == jwks[k]; }
        }
        assert jwks[i] in jwks;
      }
    }
  }

  // --- The protocol --------------------------------------------------------------------------

  datatype Phase =
    | Arriving(kid: string)
    | Waiting(kid: string)
    | Locked(kid: string)
    | Fetching(kid: string, since: Instant)
    | Reading(kid: string, got: seq<Jwk>)
    | Done(kid: string, key: Option<nat>)

  /** A fetch, the kid it was triggered by and when it began (history). */
  datatype Fetch = Fetch(kid: string, began: Instant)

  datatype State = State(
    now: Instant,
    cache: map<string, Entry>,
    callers: map<CallerId, Phase>,
    lock: Option<CallerId>,
    /** History: the response last installed and the time from which its expiry counts, and all fetches, oldest first. */
    installed: seq<Jwk>,
    stamped: Instant,
    fetches: seq<Fetch>)

  function Init(): State {
    State(0, map[], map[], None, [], 0, [])
  }

  datatype Action =
    | Arrive(id: CallerId, kid: string)
    | Look(id: CallerId, at: Instant)
    | Lock(id: CallerId)
    | LookAgain(id: CallerId, at: Instant)
    /** The response, if it was usable, its expiry counted from `stamped`, and installed at `at`. */
    | Respond(id: CallerId, response: Option<seq<Jwk>>, stamped: Instant, at: Instant)
    | ReadBack(id: CallerId)

  function Current(s: State, kid: string, at: Instant): Option<nat> {
    if kid in s.cache && at < s.cache[kid].expiresAt then Some(s.cache[kid].key) else None
  }

  predicate Enabled(s: State, a: Action) {
    match a
    case Arrive(id, _) => id !in s.callers
    case Look(id, at) => s.now <= at && id in s.callers && s.callers[id].Arriving?
    case Lock(id) => id in s.callers && s.callers[id].Waiting? && s.lock.None?
    case LookAgain(id, at) => s.now <= at && id in s.callers && s.callers[id].Locked?
    case Respond(id, _, stamped, at) =>
      s.now <= at && id in s.callers && s.callers[id].Fetching? && s.callers[id].since <= stamped <= at
    case ReadBack(id) => id in s.callers && s.callers[id].Reading?
  }

  function Apply(s: State, a: Action): State
    requires Enabled(s, a)
  {
    match a
    case Arrive(id, kid) => s.(callers := s.callers[id := Arriving(kid)])
    case Look(id, at) =>
      var kid := s.callers[id].kid;
      var found := Current(s, kid, at);
      s.(now := at, callers := s.callers[id := if found.Some? then Done(kid, found) else Waiting(kid)])
    case Lock(id) => s.(lock := Some(id), callers := s.callers[id := Locked(s.callers[id].kid)])
    case LookAgain(id, at) =>
      var kid := s.callers[id].kid;
      var found := Current(s, kid, at);
      if found.Some? then s.(now := at, lock := None, callers := s.callers[id := Done(kid, found)])
      else s.(now := at, callers := s.callers[id := Fetching(kid, at)], fetches := s.fetches + [Fetch(kid, at)])
    case Respond(id, response, stamped, at) =>
      var kid := s.callers[id].kid;
      if response.None? then s.(now := at, lock := None, callers := s.callers[id := Done(kid, None)])
      else s.(now := at, cache := CacheOf(response.value, stamped + TTL), installed := response.value, stamped := stamped,
              callers := s.callers[id := Reading(kid, response.value)])
    case ReadBack(id) =>
      var kid := s.callers[id].kid;
      s.(lock := None,
         callers := s.callers[id := Done(kid, if kid in s.cache then Some(s.cache[kid].key) else None)])
  }

  predicate CanRun(s: State, acts: seq<Action>)
    decreases |acts|
  {
    acts == [] || (Enabled(s, acts[0]) && CanRun(Apply(s, acts[0]), acts[1..]))
  }

  function Exec(s: State, acts: seq<Action>): State
    requires CanRun(s, acts)
    decreases |acts|
  {
    if acts == [] then s else Exec(Apply(s, acts[0]), acts[1..])
  }

  predicate HoldsLock(p: Phase) {
    p.Locked? || p.Fetching? || p.Reading?
  }

  /** At most one caller is past the lock, the cache is that of the response last installed, and whoever is about
      to read back reads from the response it got itself. */
  ghost predicate Inv(s: State) {
    && (forall id <- s.callers :: HoldsLock(s.callers[id]) ==> s.lock == Some(id))
    && (s.lock.Some? ==> s.lock.value in s.callers && HoldsLock(s.callers[s.lock.value]))
    && (forall id <- s.callers :: s.callers[id].Fetching? ==> s.callers[id].since <= s.now)
    && (forall id <- s.callers :: s.callers[id].Reading? ==> s.callers[id].got == s.installed)
    && s.cache == CacheOf(s.installed, s.stamped + TTL) && s.stamped <= s.now
  }

  lemma StepKeepsInv(s: State, a: Action)
    requires Inv(s) && Enabled(s, a)
    ensures Inv(Apply(s, a))
  {
  }

  // --- Spacing of fetches ----------------------------------------------------------------------

  /** A response was usable and published a usable key for `kid`. */
  ghost predicate KeepsPublishing(a: Action, kid: string) {
    a.Respond? ==> a.response.Some? && Publishes(a.response.value, kid)
  }

  ghost predicate IsFetched(s: State, kid: string) {
    exists id <- s.callers :: s.callers[id].Fetching? && s.callers[id].kid == kid
  }

  /** A fetch for `kid` is over, and its key stays cached for the whole time to live counted from its start, or it
      is still under way. */
  ghost predicate Covered(s: State, kid: string, f: Fetch) {
    || (kid in s.cache && s.cache[kid].expiresAt >= f.began + TTL)
    || IsFetched(s, kid)
  }

  ghost predicate BeganBy(s: State, t: Instant) {
    forall f <- s.fetches :: f.began <= t
  }

  /** Fetches triggered by `kid` are spaced, and the last ones are covered. */
  ghost predicate Spaced(s: State, kid: string) {
    && BeganBy(s, s.now)
    && (forall id <- s.callers :: s.callers[id].Fetching? ==> BeganBy(s, s.callers[id].since))
    && (forall i :: 0 <= i < |s.fetches| && s.fetches[i].kid == kid ==> Covered(s, kid, s.fetches[i]))
    && (forall i, j :: 0 <= i < j < |s.fetches| && s.fetches[i].kid == kid && s.fetches[j].kid == kid ==>
          s.fetches[i].began + TTL <= s.fetches[j].began)
  }

  lemma CoveredStays(s: State, a: Action, kid: string, f: Fetch)
    requires Inv(s) && Enabled(s, a) && KeepsPublishing(a, kid) && Covered(s, kid, f)
    requires f in s.fetches && forall id <- s.callers :: s.callers[id].Fetching? ==> BeganBy(s, s.callers[id].since)
    ensures Covered(Apply(s, a), kid, f)
  {
    var t := Apply(s, a);
    if a.Respond? {
      CacheOfIsLastUsable(a.response.value, a.stamped + TTL, kid);
    } else if IsFetched(s, kid) {
      var id :| id in s.callers && s.callers[id].Fetching? && s.callers[id].kid == kid;
      assert t.callers[id] == s.callers[id];
    }
  }

  lemma NewFetchSpaced(s: State, a: Action, kid: string, i: nat)
    requires Inv(s) && Spaced(s, kid) && a.LookAgain? && Enabled(s, a) && s.callers[a.id].kid == kid
    requires Current(s, kid, a.at).None? && i < |s.fetches| && s.fetches[i].kid == kid
    ensures s.fetches[i].began + TTL <= a.at
  {
    assert Covered(s, kid, s.fetches[i]);
  }

  /** The fetches only grow, by one that begins now, when a second look finds nothing. */
  lemma FetchesNext(s: State, a: Action)
    requires Inv(s) && Enabled(s, a)
    ensures
      var t := Apply(s, a);
      if a.LookAgain? && Current(s, s.callers[a.id].kid, a.at).None?
      then t.fetches == s.fetches + [Fetch(s.callers[a.id].kid, a.at)] && t.callers[a.id] == Fetching(s.callers[a.id].kid, a.at)
      else t.fetches == s.fetches
  {
    hide CacheOf;
  }

  lemma StepKeepsBegan(s: State, a: Action, kid: string)
    requires Inv(s) && Spaced(s, kid) && Enabled(s, a)
    ensures BeganBy(Apply(s, a), Apply(s, a).now)
    ensures forall id <- Apply(s, a).callers :: Apply(s, a).callers[id].Fetching? ==> BeganBy(Apply(s, a), Apply(s, a).callers[id].since)
  {
    hide CacheOf, Covered;
  }

  lemma StepKeepsSpaced(s: State, a: Action, kid: string)
    requires Inv(s) && Spaced(s, kid) && Enabled(s, a) && KeepsPublishing(a, kid)
    ensures Spaced(Apply(s, a), kid)
  {
    var t := Apply(s, a);
    StepKeepsBegan(s, a, kid);
    FetchesNext(s, a);
    assert a.LookAgain? ==> a.id in s.callers;
    hide Inv, Enabled, Apply, Covered, KeepsPublishing;
    forall i | 0 <= i < |t.fetches| && t.fetches[i].kid == kid ensures Covered(t, kid, t.fetches[i]) {
      if i < |s.fetches| { CoveredStays(s, a, kid, s.fetches[i]); } else { UnderWay(t, a.id, kid, t.fetches[i]); }
    }
    forall i, j | 0 <= i < j < |t.fetches| && t.fetches[i].kid == kid && t.fetches[j].kid == kid
      ensures t.fetches[i].began + TTL <= t.fetches[j].began
    {
      if j == |s.fetches| { NewFetchSpaced(s, a, kid, i); }
    }
  }

  lemma UnderWay(s: State, id: CallerId, kid: string, f: Fetch)
    requires id in s.callers && s.callers[id].Fetching? && s.callers[id].kid == kid
    ensures Covered(s, kid, f)
  {
  }

  lemma {:induction false} RunKeepsSpaced(s: State, acts: seq<Action>, kid: string)
    requires Inv(s) && Spaced(s, kid) && CanRun(s, acts) && forall a <- acts :: KeepsPublishing(a, kid)
    ensures Spaced(Exec(s, acts), kid)
    decreases |acts|
  {
    if acts != [] {
      StepKeepsInv(s, acts[0]);
      StepKeepsSpaced(s, acts[0], kid);
      RunKeepsSpaced(Apply(s, acts[0]), acts[1..], kid);
    }
  }

  lemma InitInv()
    ensures Inv(Init())
  {
    assert Init().cache == CacheOf(Init().installed, TTL);
  }

  /** One step more. */
  lemma {:induction false} ExecSnoc(s: State, acts: seq<Action>, a: Action)
    requires Inv(s) && CanRun(s, acts)
    ensures Inv(Exec(s, acts))
    ensures Enabled(Exec(s, acts), a) ==> CanRun(s, acts + [a]) && Exec(s, acts + [a]) == Apply(Exec(s, acts), a)
    decreases |acts|
  {
    if acts == [] {
      assert [a][1..] == [] && [] + [a] == [a];
    } else {
      StepKeepsInv(s, acts[0]);
      ExecSnoc(Apply(s, acts[0]), acts[1..], a);
      assert (acts + [a])[1..] == acts[1..] + [a];
    }
  }

  /** If every fetch succeeds and keeps publishing a usable key for `kid`, any two fetches triggered by requests for
      `kid` begin at least the time to live apart, whatever the interleaving. */
  lemma FetchesApart(acts: seq<Action>, kid: string, i: nat, j: nat)
    requires CanRun(Init(), acts) && forall a <- acts :: KeepsPublishing(a, kid)
    requires i < j < |Exec(Init(), acts).fetches|
    requires Exec(Init(), acts).fetches[i].kid == kid && Exec(Init(), acts).fetches[j].kid == kid
    ensures Exec(Init(), acts).fetches[i].began + 3600 * 1_000_000_000 <= Exec(Init(), acts).fetches[j].began
  {
    InitInv();
    RunKeepsSpaced(Init(), acts, kid);
  }

  /** Whenever a caller is handed a key, it is the last usable one for its kid in the response installed at that
      moment; a caller that fetched gets it from its own response. */
  lemma ReturnedKeyIsInstalled(acts: seq<Action>, a: Action)
    requires CanRun(Init(), acts) && Enabled(Exec(Init(), acts), a) && a.id in Apply(Exec(Init(), acts), a).callers
    requires var p := Apply(Exec(Init(), acts), a).callers[a.id]; p.Done? && p.key.Some?
    ensures
      var s := Exec(Init(), acts);
      var p := Apply(s, a).callers[a.id];
      && (exists i :: 0 <= i < |s.installed| && s.installed[i] == Jwk(p.kid, p.key)
            && forall k :: i < k < |s.installed| && s.installed[k].kid == p.kid ==> s.installed[k].key.None?)
      && (a.ReadBack? ==> s.callers[a.id].got == s.installed)
  {
    var s := Exec(Init(), acts);
    InitInv();
    ExecSnoc(Init(), acts, a);
    CacheOfIsLastUsable(s.installed, s.stamped + TTL, Apply(s, a).callers[a.id].kid);
  }

  /** A look at the cache, with or without the lock, ends the call if and only if the response last installed has a
      usable key for the kid and its hour is not over; otherwise the caller waits for the lock, or holding it fetches. */
  lemma LookEndsIff(acts: seq<Action>, a: Action)
    requires CanRun(Init(), acts) && (a.Look? || a.LookAgain?) && Enabled(Exec(Init(), acts), a)
    ensures
      var s := Exec(Init(), acts);
      var kid := s.callers[a.id].kid;
      var p := Apply(s, a).callers[a.id];
      if (exists jwk <- s.installed :: jwk.kid == kid && jwk.key.Some?) && a.at < s.stamped + 3600 * 1_000_000_000
      then p.Done? && p.key.Some? && Apply(s, a).fetches == s.fetches
      else if a.Look? then p == Waiting(kid) && Apply(s, a).fetches == s.fetches
      else p == Fetching(kid, a.at) && Apply(s, a).fetches == s.fetches + [Fetch(kid, a.at)]
  {
    var s := Exec(Init(), acts);
    InitInv();
    ExecSnoc(Init(), acts, a);
    CacheOfIsLastUsable(s.installed, s.stamped + TTL, s.callers[a.id].kid);
    hide CacheOf, Exec, CanRun;
  }

  /** A usable response is installed, with its hour counted from when its expiry was computed; after an unusable one
      the cache is as it was and the call is over, without a key. */
  lemma RespondInstalls(s: State, a: Action)
    requires a.Respond? && Enabled(s, a)
    ensures
      var t := Apply(s, a);
      if a.response.Some? then t.installed == a.response.value && t.stamped == a.stamped && t.lock == s.lock
      else t.installed == s.installed && t.stamped == s.stamped && t.cache == s.cache && t.lock == None
           && t.callers[a.id] == Done(s.callers[a.id].kid, None)
  {
  }

  /** What a fetch brings its caller: a key if and only if the response has a usable one for its kid, however long it
      took; and the lock is free again. */
  lemma ReadBackIff(acts: seq<Action>, a: Action)
    requires CanRun(Init(), acts) && a.ReadBack? && Enabled(Exec(Init(), acts), a)
    ensures
      var s := Exec(Init(), acts);
      var kid := s.callers[a.id].kid;
      var p := Apply(s, a).callers[a.id];
      && p.Done? && Apply(s, a).lock == None
      && (p.key.Some? <==> exists jwk <- s.callers[a.id].got :: jwk.kid == kid && jwk.key.Some?)
  {
    var s := Exec(Init(), acts);
    InitInv();
    ExecSnoc(Init(), acts, a);
    CacheOfIsLastUsable(s.installed, s.stamped + TTL, s.callers[a.id].kid);
    hide CacheOf, Exec, CanRun;
  }

  /** No two callers are past the lock at once. */
  lemma OneAtATime(acts: seq<Action>, i: CallerId, j: CallerId)
    requires CanRun(Init(), acts) && i in Exec(Init(), acts).callers && j in Exec(Init(), acts).callers
    requires var p := Exec(Init(), acts).callers[i]; p.Locked? || p.Fetching? || p.Reading?
    requires var p := Exec(Init(), acts).callers[j]; p.Locked? || p.Fetching? || p.Reading?
    ensures i == j
  {
    InitInv();
    ExecSnoc(Init(), acts, Lock(i));
  }

  // --- The client ------------------------------------------------------------------------------

  class JwksClient {
    var cache: map<string, Entry>
    /** `Utc::now`, taken not to run backwards. */
    var now: Instant
    /** What all callers have done so far. */
    ghost var history: seq<Action>

    ghost predicate Valid()
      reads this
    {
      CanRun(Init(), history) && Model().cache == cache && Model().now <= now
    }

    ghost function Model(): State
      requires CanRun(Init(), history)
      reads this
    {
      Exec(Init(), history)
    }

    ghost predicate At(id: CallerId, p: Phase)
      requires CanRun(Init(), history)
      reads this
    {
      id in Model().callers && Model().callers[id] == p
    }

    constructor (now: Instant)
      ensures Valid() && history == [] && cache == map[]
    {
      cache := map[];
      this.now := now;
      history := [];
    }

    method Clock() returns (t: Instant)
      requires Valid()
      modifies this`now
      ensures Valid() && old(now) <= t == now
    {
      var elapsed: nat :| 0 <= elapsed;
      now := now + elapsed;
      t := now;
    }

    /** The step `a`, which leaves the cache as it now is. */
    ghost method Step(a: Action)
      requires CanRun(Init(), history) && Enabled(Model(), a)
      requires Apply(Model(), a).cache == cache && Apply(Model(), a).now <= now
      modifies this`history
      ensures Valid() && history == old(history) + [a] && Model() == Apply(old(Model()), a)
    {
      InitInv();
      ExecSnoc(Init(), history, a);
      history := history + [a];
    }

    /** An await: other callers go on, but no caller other than `own` moves `own`. */
    method Await(ghost own: CallerId)
      requires Valid()
      modifies this
      ensures Valid() && old(history) <= history && now >= old(now)
      ensures own in old(Model()).callers ==> At(own, old(Model()).callers[own])
    {
      var _ := Clock();
    }

    /** Whoever holds the lock can always go on until it is released. */
    ghost method Release(own: CallerId, kid: string)
      requires Valid() && At(own, Waiting(kid))
      modifies this`history
      ensures Valid() && old(history) <= history && At(own, Waiting(kid)) && Model().lock.None?
    {
      InitInv();
      ExecSnoc(Init(), history, Lock(own));
      hide Exec, CanRun;
      var lock := Model().lock;
      if lock.Some? && Model().callers[lock.value].Locked? {
        Step(LookAgain(lock.value, now));
      }
      if lock.Some? && Model().callers[lock.value].Fetching? {
        Step(Respond(lock.value, None, now, now));
      }
      if lock.Some? && Model().callers[lock.value].Reading? {
        Step(ReadBack(lock.value));
      }
    }

    /** `update_mutex.lock().await` */
    method AcquireLock(ghost own: CallerId, ghost kid: string)
      requires Valid() && At(own, Waiting(kid))
      modifies this
      ensures Valid() && old(history) <= history && At(own, Locked(kid))
    {
      hide Exec, CanRun;
      Await(own);
      Release(own, kid);
      Step(Lock(own));
    }

    /** `fetch_and_update_cache` on the keys of a well-formed response. */
    method UpdateCache(jwks: seq<Jwk>, now: Instant)
      modifies this`cache
      ensures cache == CacheOf(jwks, now + 3600 * 1_000_000_000)
    {
      var expiresAt := now + TTL;
      var newCache: map<string, Entry> := map[];
      for i := 0 to |jwks|
        invariant newCache == CacheOf(jwks[..i], expiresAt)
      {
        assert jwks[..i + 1][..i] == jwks[..i];
        if jwks[i].key.Some? {
          newCache := newCache[jwks[i].kid := Entry(jwks[i].key.value, expiresAt)];
        }
      }
      assert jwks[..|jwks|] == jwks;
      cache := newCache;
    }

    method FirstLook(kid: string, ghost id: CallerId) returns (r: Option<nat>)
      requires Valid() && At(id, Arriving(kid))
      modifies this
      ensures Valid() && old(history) <= history && At(id, if r.Some? then Done(kid, r) else Waiting(kid))
    {
      hide Exec, CanRun;
      Await(id);
      var t := Clock();
      Step(Look(id, t));
      r := if kid in cache && t < cache[kid].expiresAt then Some(cache[kid].key) else None;
    }

    method SecondLook(kid: string, ghost id: CallerId) returns (r: Option<nat>)
      requires Valid() && At(id, Locked(kid))
      modifies this
      ensures Valid() && old(history) <= history && At(id, if r.Some? then Done(kid, r) else Fetching(kid, now))
    {
      hide Exec, CanRun;
      Await(id);
      var t := Clock();
      Step(LookAgain(id, t));
      r := if kid in cache && t < cache[kid].expiresAt then Some(cache[kid].key) else None;
    }

    /** The fetch, and the key it brought. */
    method FetchKey(kid: string, ghost id: CallerId) returns (r: Option<nat>)
      requires Valid() && At(id, Fetching(kid, now))
      modifies this
      ensures Valid() && old(history) <= history && At(id, Done(kid, r))
    {
      hide Exec, CanRun;
      Await(id);
      var response: Option<seq<Jwk>> := *;  // the identity provider
      var t := Clock();
      if response == None {
        Step(Respond(id, None, t, t));
        return None;
      }
      Await(id);
      UpdateCache(response.value, t);
      Step(Respond(id, response, t, now));
      Await(id);
      Step(ReadBack(id));
      r := if kid in cache then Some(cache[kid].key) else None;
    }

    /** `get_key`: one caller of the protocol, from its arrival to its answer. */
    method GetKey(kid: string, ghost id: CallerId) returns (r: Option<nat>)
      requires Valid() && id !in Model().callers
      modifies this
      ensures Valid() && old(history) + [Arrive(id, kid)] <= history && At(id, Done(kid, r))
    {
      hide Exec, CanRun;
      Step(Arrive(id, kid));
      r := FirstLook(kid, id);
      if r.Some? {
        return;
      }
      AcquireLock(id, kid);
      r := SecondLook(kid, id);
      if r.Some? {
        return;
      }
      r := FetchKey(kid, id);
    }
  }
}
