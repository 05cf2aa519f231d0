/** Refresh-token rotation as a step machine: any number of rotations run at once, each making one
    store call at a time, while the clock moves on between any two calls. The store is the ideal map
    of `SessionStore`, kept without forgetting; reads ignore what has lapsed. */
module TokenRotation {
  import opened Time
  import opened Wrappers
  import opened SessionStore

  /** Identifiers drawn by `Uuid::new_v4`, which never repeats itself here. */
  type Jti = nat
  type FamilyId = nat
  /** One call of `rotate_refresh_token`. */
  type RotationId = nat

  datatype Kind = Access | Refresh

  datatype Claims = Claims(kind: Kind, sub: string, tenant: string, jti: Jti, roles: seq<string>)

  datatype Metadata = Metadata(parent: Option<Jti>, user: string, tenant: string, used: bool,
                               family: FamilyId, roles: seq<string>)

  /** The two kinds of store key, `rt:{jti}` and `rt_family:{id}:revoked`. */
  datatype Key = Rt(jti: Jti) | Revoked(family: FamilyId)

  datatype Value = Meta(meta: Metadata) | RevokedMark

  /** A string handed in by a caller: one that carries a valid signature, or anything else. */
  datatype Token = Signed(claims: Claims) | Unsigned(text: string)

  datatype IssuerError =
    | TokenError
    | InvalidTokenType
    | TokenExpiredOrRevoked
    | FamilyRevoked
    | ReplayAttackDetected

  datatype RotationResult = RotationResult(accessToken: Token, refreshToken: Token)

  /** What `decode_refresh_token` makes of a token. */
  datatype Decoding = Decoded(claims: Claims) | Refused(error: IssuerError)

  datatype Outcome = Ok(result: RotationResult) | Err(error: IssuerError)

  /** Where a rotation stands: the store call it makes next, or its outcome. */
  datatype Phase =
    | ReadMeta(claims: Claims)
    | ReadFlag(claims: Claims, meta: Metadata)
    | Swap(claims: Claims, meta: Metadata)
    | MarkFamily(claims: Claims, meta: Metadata)
    | RegisterHeir(claims: Claims, meta: Metadata)
    | Finished(jti: Option<Jti>, seen: Option<Metadata>, outcome: Outcome)

  /** History, never read by the protocol: the login a family stems from, the tokens registered in it
      oldest first, and the rotation that has used up the newest but not yet registered its heir. */
  datatype Family = Family(user: string, tenant: string, roles: seq<string>,
                           members: seq<Jti>, pending: Option<RotationId>)

  /** A token that was minted, with the family it was minted for (history). */
  datatype Minted = Minted(claims: Claims, family: FamilyId)

  datatype State = State(
    ttl: nat,
    now: Instant,
    store: map<Key, Entry<Value>>,
    rotations: map<RotationId, Phase>,
    minted: map<Jti, Minted>,
    families: map<FamilyId, Family>)

  function Init(ttl: nat): State {
    State(ttl, 0, map[], map[], map[], map[])
  }

  /** `decode_refresh_token` under ideal signatures. Whether `exp` has passed is read off another clock,
      so it is a parameter. */
  function Decode(minted: map<Jti, Minted>, token: Token, expired: bool): Decoding {
    if token.Unsigned? || token.claims.jti !in minted || minted[token.claims.jti].claims != token.claims || expired
    then Refused(TokenError)
    else if token.claims.kind != Refresh then Refused(InvalidTokenType)
    else Decoded(token.claims)
  }

  datatype Action =
    /** `generate_refresh_token`, then `register_refresh_token` without parent or family. */
    | Login(user: string, tenant: string, roles: seq<string>, jti: Jti, family: FamilyId, at: Instant)
    | Start(id: RotationId, token: Token, expired: bool)
    | GetMeta(id: RotationId, at: Instant)
    | GetFlag(id: RotationId, at: Instant)
    | CasUsed(id: RotationId, at: Instant, written: Instant)
    | SetFlag(id: RotationId, at: Instant)
    | SetHeir(id: RotationId, jti: Jti, accessJti: Jti, at: Instant)

  predicate Fresh(s: State, j: Jti) {
    j !in s.minted && Rt(j) !in s.store
  }

  predicate Enabled(s: State, a: Action) {
    match a
    case Login(_, _, _, jti, family, at) => s.now <= at && Fresh(s, jti) && family !in s.families
    case Start(id, _, _) => id !in s.rotations
    case GetMeta(id, at) => s.now <= at && id in s.rotations && s.rotations[id].ReadMeta?
    case GetFlag(id, at) => s.now <= at && id in s.rotations && s.rotations[id].ReadFlag?
    case CasUsed(id, at, written) => s.now <= at <= written && id in s.rotations && s.rotations[id].Swap?
    case SetFlag(id, at) => s.now <= at && id in s.rotations && s.rotations[id].MarkFamily?
    case SetHeir(id, jti, accessJti, at) =>
      && s.now <= at && id in s.rotations && s.rotations[id].RegisterHeir?
      && Fresh(s, jti) && Fresh(s, accessJti) && jti != accessJti
  }

  function AfterGetMeta(s: State, c: Claims, at: Instant): Phase {
    var found := Lookup(s.store, Rt(c.jti), at);
    if found.Some? && found.value.Meta? then ReadFlag(c, found.value.meta)
    else Finished(Some(c.jti), None, Err(TokenExpiredOrRevoked))
  }

  function AfterGetFlag(s: State, c: Claims, m: Metadata, at: Instant): Phase {
    if Lookup(s.store, Revoked(m.family), at).Some? then Finished(Some(c.jti), Some(m), Err(FamilyRevoked))
    else if m.used then MarkFamily(c, m)
    else Swap(c, m)
  }

  function HeirClaims(c: Claims, j: Jti): Claims {
    Claims(Refresh, c.sub, c.tenant, j, [])
  }

  function AccessClaims(c: Claims, m: Metadata, j: Jti): Claims {
    Claims(Access, c.sub, c.tenant, j, m.roles)
  }

  function History(s: State, f: FamilyId): Family {
    if f in s.families then s.families[f] else Family("", "", [], [], None)
  }

  /** One step. */
  function Apply(s: State, a: Action): State
    requires Enabled(s, a)
  {
    match a
    case Login(user, tenant, roles, j, f, at) =>
      s.(now := at,
         store := s.store[Rt(j) := Entry(Meta(Metadata(None, user, tenant, false, f, roles)), at + s.ttl)],
         minted := s.minted[j := Minted(Claims(Refresh, user, tenant, j, []), f)],
         families := s.families[f := Family(user, tenant, roles, [j], None)])
    case Start(id, token, expired) =>
      var decoded := Decode(s.minted, token, expired);
      s.(rotations := s.rotations[id := if decoded.Decoded? then ReadMeta(decoded.claims)
                                              else Finished(None, None, Err(decoded.error))])
    case GetMeta(id, at) =>
      s.(now := at, rotations := s.rotations[id := AfterGetMeta(s, s.rotations[id].claims, at)])
    case GetFlag(id, at) =>
      var r := s.rotations[id];
      s.(now := at, rotations := s.rotations[id := AfterGetFlag(s, r.claims, r.meta, at)])
    case CasUsed(id, at, written) =>
      var Swap(c, m) := s.rotations[id];
      if Lookup(s.store, Rt(c.jti), at) == Some(Meta(m)) then
        s.(now := written,
           store := s.store[Rt(c.jti) := Entry(Meta(m.(used := true)), written + s.ttl)],
           rotations := s.rotations[id := RegisterHeir(c, m)],
           families := s.families[m.family := History(s, m.family).(pending := Some(id))])
      else
        s.(now := written, rotations := s.rotations[id := MarkFamily(c, m)])
    case SetFlag(id, at) =>
      var MarkFamily(c, m) := s.rotations[id];
      s.(now := at,
         store := s.store[Revoked(m.family) := Entry(RevokedMark, at + s.ttl)],
         rotations := s.rotations[id := Finished(Some(c.jti), Some(m), Err(ReplayAttackDetected))])
    case SetHeir(id, j, accessJti, at) =>
      var RegisterHeir(c, m) := s.rotations[id];
      var heir := HeirClaims(c, j);
      var access := AccessClaims(c, m, accessJti);
      var fam := History(s, m.family);
      s.(now := at,
         store := s.store[Rt(j) := Entry(Meta(Metadata(Some(c.jti), c.sub, c.tenant, false, m.family, m.roles)), at + s.ttl)],
         rotations := s.rotations[id := Finished(Some(c.jti), Some(m), Ok(RotationResult(Signed(access), Signed(heir))))],
         minted := s.minted[j := Minted(heir, m.family)][accessJti := Minted(access, m.family)],
         families := s.families[m.family := fam.(members := fam.members + [j], pending := None)])
  }

  /** `acts` can be carried out from `s`, one after the other. */
  predicate CanRun(s: State, acts: seq<Action>)
    decreases |acts|
  {
    acts == [] || (Enabled(s, acts[0]) && CanRun(Apply(s, acts[0]), acts[1..]))
  }

  function Exec(s: State, acts: seq<Action>): State
    requires CanRun(s, acts)
    decreases |acts|
  {
    if acts == [] then s else Exec(Apply(s, acts[0]), acts[1..])
  }

  /** Some interleaving takes `s` to `t`. */
  ghost predicate Leads(s: State, t: State) {
    exists acts :: CanRun(s, acts) && Exec(s, acts) == t
  }

  ghost predicate Reachable(s: State) {
    Leads(Init(s.ttl), s)
  }

  lemma {:induction false} ExecAppend(s: State, a: seq<Action>, b: seq<Action>)
    requires CanRun(s, a) && CanRun(Exec(s, a), b)
    ensures CanRun(s, a + b) && Exec(s, a + b) == Exec(Exec(s, a), b)
    decreases |a|
  {
    hide Enabled, Apply;
    if a == [] {
      assert a + b == b;
    } else {
      ExecAppend(Apply(s, a[0]), a[1..], b);
      assert (a + b)[1..] == a[1..] + b;
    }
  }

  lemma LeadsNowhere(s: State)
    ensures Leads(s, s)
  {
    assert CanRun(s, []) && Exec(s, []) == s;
  }

  lemma ExecOne(s: State, a: Action)
    requires Enabled(s, a)
    ensures CanRun(s, [a]) && Exec(s, [a]) == Apply(s, a)
  {
    hide Enabled, Apply;
    assert [a][0] == a && [a][1..] == [];
    assert CanRun(Apply(s, a), []) && Exec(Apply(s, a), []) == Apply(s, a);
  }

  lemma LeadsStep(s: State, t: State, a: Action)
    requires Leads(s, t) && Enabled(t, a)
    ensures Leads(s, Apply(t, a))
  {
    var acts :| CanRun(s, acts) && Exec(s, acts) == t;
    ExecOne(t, a);
    ExecAppend(s, acts, [a]);
  }

  lemma LeadsOn(s: State, t: State, u: State)
    requires Leads(s, t) && Leads(t, u)
    ensures Leads(s, u)
  {
    var a :| CanRun(s, a) && Exec(s, a) == t;
    var b :| CanRun(t, b) && Exec(t, b) == u;
    ExecAppend(s, a, b);
  }

  // --- Store keys as the strings they are ----------------------------------------------------

  function RtKey(jti: string): string { "rt:" + jti }

  function RevokedKey(family: string): string { "rt_family:" + family + ":revoked" }

  /** Keys built from different identifiers never collide, nor do the two kinds of key. */
  lemma KeysDistinct(a: string, b: string)
    ensures RtKey(a) == RtKey(b) ==> a == b
    ensures RevokedKey(a) == RevokedKey(b) ==> a == b
    ensures RtKey(a) != RevokedKey(b)
  {
    assert RtKey(a)[3..] == a && RtKey(b)[3..] == b;
    assert RtKey(a)[2] == ':' && RevokedKey(b)[2] == '_';
    assert RevokedKey(a)[10..|RevokedKey(a)| - 8] == a && RevokedKey(b)[10..|RevokedKey(b)| - 8] == b;
  }
}
