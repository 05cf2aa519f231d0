/** `JwtIssuer` as it runs: `rotate_refresh_token` over the lazily purged `MemoryStore`, with every other
    task free to run wherever it awaits. Each call is shown to be a rotation of the step machine. */
module Issuer {
  import opened Time
  import opened Wrappers
  import opened SessionStore
  import opened TokenRotation
  import opened RotationInvariant

  /** The store in use cannot be told from the machine's store, from now on. */
  ghost predicate SameStore(data: map<Key, Entry<Value>>, s: State, t: Instant) {
    s.now <= t && Live(data, t) == Live(s.store, t)
  }

  lemma SameStoreLater(data: map<Key, Entry<Value>>, s: State, t: Instant, u: Instant)
    requires SameStore(data, s, t) && t <= u
    ensures SameStore(data, s, u) && forall k :: Lookup(data, k, u) == Lookup(s.store, k, u)
  {
    LiveLater(data, s.store, t, u);
  }

  /** A call that answers and writes as the ideal map would keeps the stores in step. */
  lemma SameStoreWrite(before: map<Key, Entry<Value>>, s: State, t: Instant, c: Call<Key, Value>,
                       after: map<Key, Entry<Value>>, k: Key, v: Value, ttl: Option<nat>)
    requires SameStore(before, s, t) && t <= c.at && LazyCall(before, c, after)
    requires
      || c.op == Op.Set(k, v, ttl)
      || (c.op.CompareAndSet? && c.op.key == k && c.op.desired == Some(v) && c.op.ttl == ttl && c.reply == Swapped(true))
    ensures Live(after, c.end) == Live(s.store[k := Entry(v, c.written + Ttl(ttl))], c.end)
  {
    LiveLater(before, s.store, t, c.at);
    ForgetUnseen(s.store, k, Entry(v, c.written + Ttl(ttl)), c.at, c.end);
  }

  lemma SameStoreRead(before: map<Key, Entry<Value>>, s: State, t: Instant, c: Call<Key, Value>, after: map<Key, Entry<Value>>)
    requires SameStore(before, s, t) && t <= c.at && LazyCall(before, c, after)
    requires c.op.Get? || (c.op.CompareAndSet? && c.reply == Swapped(false))
    ensures Live(after, c.end) == Live(s.store, c.end)
  {
    LiveLater(before, s.store, t, c.at);
    RemoveUnseen(before, c.op.key, c.at, c.end);
    LiveLater(before, s.store, t, c.end);
  }

  /** What an issuer's fields have to do with the machine they drive. */
  ghost predicate Sound(s: State, data: map<Key, Entry<Value>>, t: Instant, signed: set<Claims>, nextUuid: nat, secs: nat) {
    && Reachable(s)
    && s.ttl == Ttl(Some(secs))
    && SameStore(data, s, t)
    && Counted(s, signed, nextUuid)
  }

  ghost predicate Counted(s: State, signed: set<Claims>, nextUuid: nat) {
    && (forall c :: c in signed <==> c.jti in s.minted && s.minted[c.jti].claims == c)
    && (forall j <- s.minted :: j < nextUuid)
    && (forall j: Jti :: Rt(j) in s.store ==> j < nextUuid)
    && (forall f <- s.families :: f < nextUuid)
  }

  ghost predicate Mints(a: Action) {
    a.Login? || a.SetHeir?
  }

  lemma SoundStep(s: State, a: Action, data: map<Key, Entry<Value>>, t: Instant,
                  data': map<Key, Entry<Value>>, t': Instant, signed: set<Claims>, nextUuid: nat, secs: nat)
    requires Sound(s, data, t, signed, nextUuid, secs) && Enabled(s, a) && !Mints(a)
    requires SameStore(data', Apply(s, a), t')
    ensures Sound(Apply(s, a), data', t', signed, nextUuid, secs)
  {
    ReachableInv(s);
    CountedStep(s, a, signed, nextUuid);
    TtlKept(s, a);
    hide Inv, Enabled, Apply, Leads, Counted, SameStore;
    LeadsStep(Init(s.ttl), s, a);
  }

  lemma TtlKept(s: State, a: Action)
    requires Enabled(s, a)
    ensures Apply(s, a).ttl == s.ttl
  {
  }

  lemma CountedStep(s: State, a: Action, signed: set<Claims>, nextUuid: nat)
    requires Inv(s) && Counted(s, signed, nextUuid) && Enabled(s, a) && !Mints(a)
    ensures Counted(Apply(s, a), signed, nextUuid)
  {
    hide Clocked, WinsOk, MintedOk;
    if a.CasUsed? { assert PhaseOk(s, a.id); }
  }

  lemma SoundLogin(s: State, a: Action, data: map<Key, Entry<Value>>, t: Instant, data': map<Key, Entry<Value>>,
                   t': Instant, signed: set<Claims>, nextUuid: nat, secs: nat)
    requires Sound(s, data, t, signed, nextUuid, secs) && Enabled(s, a) && a.Login?
    requires nextUuid <= a.jti < a.family
    requires SameStore(data', Apply(s, a), t')
    ensures Sound(Apply(s, a), data', t', signed + {Claims(Refresh, a.user, a.tenant, a.jti, [])}, a.family + 1, secs)
  {
    LeadsStep(Init(s.ttl), s, a);
  }

  lemma CountedHeir(s: State, a: Action, signed: set<Claims>, nextUuid: nat)
    requires Counted(s, signed, nextUuid) && Enabled(s, a) && a.SetHeir? && nextUuid <= a.jti < a.accessJti
    requires s.rotations[a.id].meta.family in s.families
    ensures
      var r := s.rotations[a.id];
      Counted(Apply(s, a), signed + {HeirClaims(r.claims, a.jti), AccessClaims(r.claims, r.meta, a.accessJti)}, a.accessJti + 1)
  {
    var t := Apply(s, a);
    var r := s.rotations[a.id];
    var heir, access := HeirClaims(r.claims, a.jti), AccessClaims(r.claims, r.meta, a.accessJti);
    assert t.minted == s.minted[a.jti := Minted(heir, r.meta.family)][a.accessJti := Minted(access, r.meta.family)];
    forall c ensures c in signed + {heir, access} <==> c.jti in t.minted && t.minted[c.jti].claims == c {
      assert c in signed <==> c.jti in s.minted && s.minted[c.jti].claims == c;
    }
  }

  lemma SoundHeir(s: State, a: Action, data: map<Key, Entry<Value>>, t: Instant, data': map<Key, Entry<Value>>,
                  t': Instant, signed: set<Claims>, nextUuid: nat, secs: nat)
    requires Sound(s, data, t, signed, nextUuid, secs) && Enabled(s, a) && a.SetHeir?
    requires nextUuid <= a.jti < a.accessJti
    requires SameStore(data', Apply(s, a), t')
    ensures
      var r := s.rotations[a.id];
      Sound(Apply(s, a), data', t', signed + {HeirClaims(r.claims, a.jti), AccessClaims(r.claims, r.meta, a.accessJti)},
            a.accessJti + 1, secs)
  {
    assert Apply(s, a).ttl == s.ttl;
    hide Counted, Leads, SameStore;
    LeadsStep(Init(s.ttl), s, a);
    ReachableInv(s);
    PendingIsTip(s, a.id);
    CountedHeir(s, a, signed, nextUuid);
  }

  lemma HeirStep(s: State, claims: Claims, meta: Metadata, a: Action)
    requires a.SetHeir? && a.id in s.rotations && s.rotations[a.id] == RegisterHeir(claims, meta) && s.now <= a.at
    requires Fresh(s, a.jti) && Fresh(s, a.accessJti) && a.jti != a.accessJti
    ensures Enabled(s, a) && a.id in Apply(s, a).rotations && Apply(s, a).now == a.at
    ensures Apply(s, a).rotations[a.id] == Finished(Some(claims.jti), Some(meta),
      Ok(RotationResult(Signed(AccessClaims(claims, meta, a.accessJti)), Signed(HeirClaims(claims, a.jti)))))
    ensures Apply(s, a).store == s.store[Rt(a.jti) := Entry(Meta(Metadata(Some(claims.jti), claims.sub, claims.tenant, false,
      meta.family, meta.roles)), a.at + s.ttl)]
  {
  }

  lemma SoundStore(s: State, data: map<Key, Entry<Value>>, t: Instant, signed: set<Claims>, nextUuid: nat, secs: nat)
    requires Sound(s, data, t, signed, nextUuid, secs)
    ensures SameStore(data, s, t) && s.ttl == Ttl(Some(secs))
  {
  }

  /** Identifiers from the counter on are fresh. */
  lemma CounterIsFresh(s: State, data: map<Key, Entry<Value>>, t: Instant, signed: set<Claims>, nextUuid: nat, secs: nat, j: nat)
    requires Sound(s, data, t, signed, nextUuid, secs) && nextUuid <= j
    ensures Fresh(s, j) && j !in s.families
  {
  }

  class JwtIssuer {
    const store: MemoryStore<Key, Value>
    const refreshExpirySecs: nat
    /** Ideal signatures: the claims signed with this issuer's key. */
    var signed: set<Claims>
    var nextUuid: nat
    /** The step machine this issuer's tasks drive. */
    ghost var model: State

    ghost predicate Valid()
      reads this, store, store.clock
    {
      Sound(model, store.data, store.clock.last, signed, nextUuid, refreshExpirySecs)
    }

    constructor (store: MemoryStore<Key, Value>, refreshExpirySecs: nat)
      requires store.data == map[]
      ensures Valid() && this.store == store && model == Init(refreshExpirySecs * 1_000_000_000)
    {
      this.store := store;
      this.refreshExpirySecs := refreshExpirySecs;
      signed := {};
      nextUuid := 0;
      model := Init(Ttl(Some(refreshExpirySecs)));
      new;
      LeadsNowhere(model);
    }

    /** `Uuid::new_v4`, taken never to repeat. */
    method NewUuid() returns (id: nat)
      modifies this`nextUuid
      ensures old(nextUuid) == id && nextUuid == id + 1
    {
      id := nextUuid;
      nextUuid := nextUuid + 1;
    }

    /** An await: whatever other tasks do meanwhile, they do it one machine step at a time, and no task
        but its own moves rotation `own`. */
    method Await(ghost own: RotationId)
      requires Valid()
      modifies this, store, store.clock
      ensures Valid() && Leads(old(model), model) && store.clock.last >= old(store.clock.last)
      ensures own in old(model).rotations ==> own in model.rotations && model.rotations[own] == old(model).rotations[own]
    {
      LeadsNowhere(model);
    }

    /** A step of rotation `a.id` that leaves the issuer's own fields alone. */
    ghost method Advance(a: Action, data: map<Key, Entry<Value>>, t: Instant)
      requires Sound(model, data, t, signed, nextUuid, refreshExpirySecs) && Enabled(model, a) && !Mints(a)
      requires SameStore(store.data, Apply(model, a), store.clock.last)
      modifies this`model
      ensures model == Apply(old(model), a) && Valid() && Leads(old(model), model)
    {
      SoundStep(model, a, data, t, store.data, store.clock.last, signed, nextUuid, refreshExpirySecs);
      LeadsNowhere(model);
      LeadsStep(model, model, a);
      model := Apply(model, a);
    }

    // --- The store calls, in terms of the machine's store ------------------------------------

    method Read(key: Key) returns (v: Option<Value>, ghost at: Instant)
      requires SameStore(store.data, model, store.clock.last)
      modifies store`data, store.clock
      ensures old(store.clock.last) <= at <= store.clock.last
      ensures v == Lookup(model.store, key, at)
      ensures Live(store.data, store.clock.last) == Live(model.store, store.clock.last)
    {
      ghost var before, t := store.data, store.clock.last;
      v, at := store.Get(key);
      SameStoreLater(before, model, t, at);
      SameStoreRead(before, model, t, Call(Op.Get(key), Found(v), at, at, store.clock.last), store.data);
    }

    method Write(key: Key, value: Value) returns (ghost at: Instant)
      requires SameStore(store.data, model, store.clock.last)
      modifies store`data, store.clock
      ensures old(store.clock.last) <= at <= store.clock.last
      ensures Live(store.data, store.clock.last)
           == Live(model.store[key := Entry(value, at + Ttl(Some(refreshExpirySecs)))], store.clock.last)
    {
      ghost var before, t := store.data, store.clock.last;
      at := store.Set(key, value, Some(refreshExpirySecs));
      SameStoreWrite(before, model, t, Call(Op.Set(key, value, Some(refreshExpirySecs)), Unit, at, at, store.clock.last),
                     store.data, key, value, Some(refreshExpirySecs));
    }

    method SwapValue(key: Key, expected: Value, desired: Value) returns (ok: bool, ghost at: Instant, ghost written: Instant)
      requires SameStore(store.data, model, store.clock.last)
      modifies store`data, store.clock
      ensures old(store.clock.last) <= at <= written <= store.clock.last
      ensures ok <==> Lookup(model.store, key, at) == Some(expected)
      ensures Live(store.data, store.clock.last)
           == Live(if ok then model.store[key := Entry(desired, written + Ttl(Some(refreshExpirySecs)))] else model.store,
                   store.clock.last)
    {
      ghost var before, t := store.data, store.clock.last;
      var ttl := Some(refreshExpirySecs);
      ok, at, written := store.CompareAndSet(key, Some(expected), Some(desired), ttl);
      SameStoreLater(before, model, t, at);
      ghost var c := Call(Op.CompareAndSet(key, Some(expected), Some(desired), ttl), Swapped(ok), at, written, store.clock.last);
      if ok {
        SameStoreWrite(before, model, t, c, store.data, key, desired, ttl);
      } else {
        SameStoreRead(before, model, t, c, store.data);
      }
    }

    /** `register_refresh_token` */
    method RegisterRefreshToken(jti: Jti, user: string, tenant: string, roles: seq<string>,
                                parent: Option<Jti>, family: FamilyId) returns (ghost at: Instant)
      requires SameStore(store.data, model, store.clock.last)
      modifies store`data, store.clock
      ensures old(store.clock.last) <= at <= store.clock.last
      ensures
        var meta := Metadata(parent, user, tenant, false, family, roles);
        Live(store.data, store.clock.last)
          == Live(model.store[Rt(jti) := Entry(Meta(meta), at + Ttl(Some(refreshExpirySecs)))], store.clock.last)
    {
      at := Write(Rt(jti), Meta(Metadata(parent, user, tenant, false, family, roles)));
    }

    method DecodeRefreshToken(token: Token, expired: bool) returns (r: Decoding)
      requires Valid()
      ensures r == Decode(model.minted, token, expired)
    {
      if token.Unsigned? || token.claims !in signed || expired {
        return Refused(TokenError);
      }
      if token.claims.kind != Refresh {
        return Refused(InvalidTokenType);
      }
      return Decoded(token.claims);
    }

    /** A login: `generate_refresh_token`, then `register_refresh_token` without parent or family. */
    method Login(user: string, tenant: string, roles: seq<string>) returns (token: Token, ghost a: Action)
      requires Valid()
      modifies this, store`data, store.clock
      ensures Valid() && Enabled(old(model), a) && model == Apply(old(model), a)
      ensures token.Signed? && a.Login? && a == TokenRotation.Login(user, tenant, roles, token.claims.jti, a.family, a.at)
      ensures token.claims == Claims(Refresh, user, tenant, token.claims.jti, []) && IsMinted(model, token, a.family)
      ensures a.family in model.families && model.families[a.family] == Family(user, tenant, roles, [token.claims.jti], None)
      ensures Rt(token.claims.jti) in model.store
        && model.store[Rt(token.claims.jti)].value == Meta(Metadata(None, user, tenant, false, a.family, roles))
    {
      ghost var s, data, t, signed0, next := model, store.data, store.clock.last, signed, nextUuid;
      var jti := NewUuid();
      var family := NewUuid();
      CounterIsFresh(s, data, t, signed0, next, refreshExpirySecs, jti);
      CounterIsFresh(s, data, t, signed0, next, refreshExpirySecs, family);
      var claims := Claims(Refresh, user, tenant, jti, []);
      hide Sound, Leads;
      SoundStore(s, data, t, signed0, next, refreshExpirySecs);
      ghost var at := RegisterRefreshToken(jti, user, tenant, roles, None, family);
      signed := signed + {claims};
      a := TokenRotation.Login(user, tenant, roles, jti, family, at);
      SoundLogin(s, a, data, t, store.data, store.clock.last, signed0, next, refreshExpirySecs);
      model := Apply(s, a);
      token := Signed(claims);
      assert IsMinted(model, token, family);
    }

    // --- The store calls of a rotation, each after an await -------------------------------------

    ghost predicate At(id: RotationId, p: Phase)
      reads this
    {
      id in model.rotations && model.rotations[id] == p
    }

    /** The token's metadata, if it is still there. */
    method FetchMetadata(claims: Claims, ghost id: RotationId) returns (meta: Option<Metadata>)
      requires Valid() && At(id, ReadMeta(claims))
      modifies this, store, store.clock
      ensures Valid() && Leads(old(model), model)
      ensures At(id, if meta.Some? then ReadFlag(claims, meta.value)
                     else Finished(Some(claims.jti), None, Err(TokenExpiredOrRevoked)))
    {
      hide Sound, Leads;
      Await(id);
      ghost var m1, data, t := model, store.data, store.clock.last;
      SoundStore(m1, data, t, signed, nextUuid, refreshExpirySecs);
      var value, at := Read(Rt(claims.jti));
      Advance(GetMeta(id, at), data, t);
      LeadsOn(old(model), m1, model);
      meta := if value.Some? && value.value.Meta? then Some(value.value.meta) else None;
    }

    /** Is the family revoked? */
    method FamilyIsRevoked(claims: Claims, meta: Metadata, ghost id: RotationId) returns (revoked: bool)
      requires Valid() && At(id, ReadFlag(claims, meta))
      modifies this, store, store.clock
      ensures Valid() && Leads(old(model), model)
      ensures At(id, if revoked then Finished(Some(claims.jti), Some(meta), Err(FamilyRevoked))
                     else if meta.used then MarkFamily(claims, meta) else Swap(claims, meta))
    {
      hide Sound, Leads;
      Await(id);
      ghost var m1, data, t := model, store.data, store.clock.last;
      SoundStore(m1, data, t, signed, nextUuid, refreshExpirySecs);
      var value, at := Read(Revoked(meta.family));
      Advance(GetFlag(id, at), data, t);
      LeadsOn(old(model), m1, model);
      revoked := value.Some?;
    }

    /** Write the family's revocation mark: after reading a used token, or losing the compare-and-set. */
    method RevokeFamily(claims: Claims, meta: Metadata, ghost id: RotationId)
      requires Valid() && At(id, MarkFamily(claims, meta))
      modifies this, store, store.clock
      ensures Valid() && Leads(old(model), model)
      ensures At(id, Finished(Some(claims.jti), Some(meta), Err(ReplayAttackDetected)))
    {
      hide Sound, Leads;
      Await(id);
      ghost var m1, data, t := model, store.data, store.clock.last;
      SoundStore(m1, data, t, signed, nextUuid, refreshExpirySecs);
      ghost var at := Write(Revoked(meta.family), RevokedMark);
      Advance(SetFlag(id, at), data, t);
      LeadsOn(old(model), m1, model);
    }

    /** Set `used` if the metadata is still what was read. */
    method MarkUsed(claims: Claims, meta: Metadata, ghost id: RotationId) returns (success: bool)
      requires Valid() && At(id, Swap(claims, meta))
      modifies this, store, store.clock
      ensures Valid() && Leads(old(model), model)
      ensures At(id, if success then RegisterHeir(claims, meta) else MarkFamily(claims, meta))
    {
      hide Sound, Leads;
      Await(id);
      ghost var m1, data, t := model, store.data, store.clock.last;
      SoundStore(m1, data, t, signed, nextUuid, refreshExpirySecs);
      ghost var at, written;
      success, at, written := SwapValue(Rt(claims.jti), Meta(meta), Meta(meta.(used := true)));
      Advance(CasUsed(id, at, written), data, t);
      LeadsOn(old(model), m1, model);
    }

    /** Mint and register the heir, then mint the access token. */
    method IssueHeir(claims: Claims, meta: Metadata, ghost id: RotationId) returns (result: RotationResult)
      requires Valid() && At(id, RegisterHeir(claims, meta))
      modifies this, store, store.clock
      ensures Valid() && Leads(old(model), model)
      ensures At(id, Finished(Some(claims.jti), Some(meta), Ok(result)))
    {
      hide Sound, Leads;
      Await(id);
      ghost var s, data, t, signed0, next := model, store.data, store.clock.last, signed, nextUuid;
      SoundStore(s, data, t, signed0, next, refreshExpirySecs);
      var newJti := NewUuid();
      CounterIsFresh(s, data, t, signed0, next, refreshExpirySecs, newJti);
      ghost var at := RegisterRefreshToken(newJti, claims.sub, claims.tenant, meta.roles, Some(claims.jti), meta.family);
      var accessJti := NewUuid();
      CounterIsFresh(s, data, t, signed0, next, refreshExpirySecs, accessJti);
      var refresh := HeirClaims(claims, newJti);
      var access := AccessClaims(claims, meta, accessJti);
      signed := signed + {refresh, access};
      ghost var a := SetHeir(id, newJti, accessJti, at);
      HeirStep(s, claims, meta, a);
      hide Apply, Enabled, Fresh;
      SoundHeir(s, a, data, t, store.data, store.clock.last, signed0, next, refreshExpirySecs);
      LeadsNowhere(s);
      LeadsStep(s, s, a);
      model := Apply(s, a);
      LeadsOn(old(model), s, model);
      result := RotationResult(Signed(access), Signed(refresh));
    }

    /** `rotate_refresh_token`: a run of the machine in which rotation `id` goes from its start to its end,
        among whatever else happens, and returns that rotation's outcome. */
    method RotateRefreshToken(token: Token, expired: bool, ghost id: RotationId) returns (r: Outcome)
      requires Valid() && id !in model.rotations
      modifies this, store, store.clock
      ensures Valid() && Leads(Apply(old(model), Start(id, token, expired)), model)
      ensures id in model.rotations && model.rotations[id].Finished? && model.rotations[id].outcome == r
    {
      var decoded := DecodeRefreshToken(token, expired);
      Advance(Start(id, token, expired), store.data, store.clock.last);
      ghost var m0 := model;
      LeadsNowhere(m0);
      if decoded.Refused? {
        return Err(decoded.error);
      }
      r := RotateDecoded(decoded.claims, id);
    }

    method RotateDecoded(claims: Claims, ghost id: RotationId) returns (r: Outcome)
      requires Valid() && At(id, ReadMeta(claims))
      modifies this, store, store.clock
      ensures Valid() && Leads(old(model), model)
      ensures id in model.rotations && model.rotations[id].Finished? && model.rotations[id].outcome == r
    {
      ghost var m0 := model;
      hide Valid, Leads;
      var found := FetchMetadata(claims, id);
      if found.None? {
        return Err(TokenExpiredOrRevoked);
      }
      var meta := found.value;
      ghost var m1 := model;
      var revoked := FamilyIsRevoked(claims, meta, id);
      LeadsOn(m0, m1, model);
      if revoked {
        return Err(FamilyRevoked);
      }
      ghost var m2 := model;
      if meta.used {
        RevokeFamily(claims, meta, id);
        LeadsOn(m0, m2, model);
        return Err(ReplayAttackDetected);
      }
      var success := MarkUsed(claims, meta, id);
      LeadsOn(m0, m2, model);
      ghost var m3 := model;
      if !success {
        RevokeFamily(claims, meta, id);
        LeadsOn(m0, m3, model);
        return Err(ReplayAttackDetected);
      }
      var result := IssueHeir(claims, meta, id);
      LeadsOn(m0, m3, model);
      return Ok(result);
    }
  }
}
