/** How long things last in a run of rotations, counted from the step that wrote them: a token can be rotated for one
    time to live, a used one is recognised as replayed for one time to live from its use, and a revocation mark stands
    for at least as long from its writing. */
module Deadlines {
  import opened Time
  import opened Wrappers
  import opened SessionStore
  import opened TokenRotation
  import opened RotationInvariant
  import opened RotationTheorems
  import Revocation

  // --- Entries stay as they were written -------------------------------------------------------

  /** What is written for a token is changed only by its use. */
  lemma EntryStays(s: State, a: Action, j: Jti)
    requires Inv(s) && Enabled(s, a) && Registered(s, j)
    requires Registered(Apply(s, a), j) && Written(Apply(s, a), j).used == Written(s, j).used
    ensures Apply(s, a).store[Rt(j)] == s.store[Rt(j)]
  {
    hide Clocked, KeysOk, WinsOk, ChainsOk, MintedOk;
    if a.CasUsed? { assert PhaseOk(s, a.id); }
  }

  lemma {:induction false} EntryLasts(s: State, acts: seq<Action>, j: Jti)
    requires Inv(s) && CanRun(s, acts) && Registered(s, j)
    ensures var t := Exec(s, acts);
      && Registered(t, j) && (Written(s, j).used ==> Written(t, j).used)
      && (Written(t, j).used == Written(s, j).used ==> t.store[Rt(j)] == s.store[Rt(j)])
    decreases |acts|
  {
    hide Inv, Enabled, Apply, Registered;
    if acts != [] {
      var s' := Apply(s, acts[0]);
      StepKeepsInv(s, acts[0]);
      StepGrows(s, acts[0]);
      assert Seen(s', j, Written(s, j));
      EntryLasts(s', acts[1..], j);
      if Written(s', j).used == Written(s, j).used { EntryStays(s, acts[0], j); }
    }
  }

  /** A mark is only ever renewed. */
  lemma MarkStays(s: State, a: Action, f: FamilyId)
    requires Inv(s) && Enabled(s, a) && Revoked(f) in s.store
    ensures Revoked(f) in Apply(s, a).store
    ensures Apply(s, a).store[Revoked(f)].expiresAt >= s.store[Revoked(f)].expiresAt
    ensures !a.SetFlag? ==> Apply(s, a).store[Revoked(f)] == s.store[Revoked(f)]
  {
    hide KeysOk, WinsOk, ChainsOk, MintedOk, PhaseOk;
  }

  lemma {:induction false} MarkLasts(s: State, acts: seq<Action>, f: FamilyId)
    requires Inv(s) && CanRun(s, acts) && Revoked(f) in s.store
    ensures Revoked(f) in Exec(s, acts).store
    ensures Exec(s, acts).store[Revoked(f)].expiresAt >= s.store[Revoked(f)].expiresAt
    ensures (forall a <- acts :: !a.SetFlag?) ==> Exec(s, acts).store[Revoked(f)] == s.store[Revoked(f)]
    decreases |acts|
  {
    hide Inv, Enabled, Apply;
    if acts != [] {
      StepKeepsInv(s, acts[0]);
      MarkStays(s, acts[0], f);
      MarkLasts(Apply(s, acts[0]), acts[1..], f);
      assert acts[0] in acts && forall a <- acts[1..] :: a in acts;
    }
  }

  // --- A registered token ----------------------------------------------------------------------

  /** The step registered token `j`: a login, or the end of a rotation. */
  ghost predicate Registers(a: Action, j: Jti) {
    (a.Login? || a.SetHeir?) && a.jti == j
  }

  lemma RegisteredFrom(s: State, a: Action, j: Jti)
    requires Enabled(s, a) && Registers(a, j)
    ensures Registered(Apply(s, a), j) && !Written(Apply(s, a), j).used
    ensures Apply(s, a).store[Rt(j)].expiresAt == a.at + s.ttl && Apply(s, a).ttl == s.ttl
  {
  }

  /** Until it is used, a token is found for one time to live from its registration, and not an instant longer. */
  lemma TokenIsFoundFor(s: State, a: Action, j: Jti, t: State, q: RotationId, at: Instant)
    requires Reachable(s) && Enabled(s, a) && Registers(a, j)
    requires Leads(Apply(s, a), t) && Registered(t, j) && !Written(t, j).used
    requires q in t.rotations && t.rotations[q].ReadMeta? && t.rotations[q].claims.jti == j && t.now <= at
    ensures var r := Apply(t, GetMeta(q, at)).rotations[q];
      if at < a.at + s.ttl then r.ReadFlag? && !r.meta.used
      else r.Finished? && r.outcome == Err(TokenExpiredOrRevoked)
  {
    ReachableInv(s);
    StepKeepsInv(s, a);
    RegisteredFrom(s, a, j);
    hide Inv, Apply, Leads;
    var acts := WayTo(Apply(s, a), t);
    EntryLasts(Apply(s, a), acts, j);
    MetaRead(t, q, at);
  }

  lemma MetaRead(t: State, q: RotationId, at: Instant)
    requires q in t.rotations && t.rotations[q].ReadMeta? && t.now <= at && Registered(t, t.rotations[q].claims.jti)
    ensures var j := t.rotations[q].claims.jti;
      var r := Apply(t, GetMeta(q, at)).rotations[q];
      if at < t.store[Rt(j)].expiresAt then r == ReadFlag(t.rotations[q].claims, Written(t, j))
      else r == Finished(Some(j), None, Err(TokenExpiredOrRevoked))
  {
  }

  /** An undisturbed rotation, with fresh identifiers for the tokens it mints. */
  function Undisturbed(q: RotationId, c: Claims, at: Instant, j: Jti): seq<Action> {
    [Start(q, Signed(c), false), GetMeta(q, at), GetFlag(q, at), CasUsed(q, at, at), SetHeir(q, j, j + 1, at)]
  }

  /** So an unused token of an unmarked family can be rotated for one time to live from its registration. */
  lemma TokenCanBeRotatedFor(s: State, a: Action, c: Claims, t: State, q: RotationId, at: Instant, heir: Jti)
    requires Reachable(s) && Enabled(s, a) && Registers(a, c.jti)
    requires Leads(Apply(s, a), t) && IsRefresh(t, c) && !Written(t, c.jti).used && q !in t.rotations
    requires t.now <= at < a.at + s.ttl && Fresh(t, heir) && Fresh(t, heir + 1)
    requires var mark := Revoked(Written(t, c.jti).family); !(mark in t.store && at < t.store[mark].expiresAt)
    ensures CanRun(t, Undisturbed(q, c, at, heir))
    ensures var u := Exec(t, Undisturbed(q, c, at, heir));
      && q in u.rotations && u.rotations[q].Finished? && u.rotations[q].outcome.Ok?
      && u.rotations[q].outcome.result.refreshToken == Signed(Claims(Refresh, c.sub, c.tenant, heir, []))
  {
    ReachableInv(s);
    StepKeepsInv(s, a);
    RegisteredFrom(s, a, c.jti);
    var acts := WayTo(Apply(s, a), t);
    EntryLasts(Apply(s, a), acts, c.jti);
    var m := Written(t, c.jti);
    hide Inv, Leads, Reachable;
    Revocation.LoneStart(t, q, c);
    var t1 := Apply(t, Start(q, Signed(c), false));
    Revocation.LoneGetMeta(t1, q, c, at);
    var t2 := Apply(t1, GetMeta(q, at));
    Revocation.LoneGetFlag(t2, q, c, m, at);
    var t3 := Apply(t2, GetFlag(q, at));
    LoneWin(t3, q, c, m, at, heir);
    hide Enabled, Apply, Lookup, IsRefresh, Fresh;
    FiveSteps(t, Start(q, Signed(c), false), GetMeta(q, at), GetFlag(q, at), CasUsed(q, at, at), SetHeir(q, heir, heir + 1, at));
  }

  lemma LoneWin(s: State, q: RotationId, c: Claims, m: Metadata, at: Instant, heir: Jti)
    requires q in s.rotations && s.rotations[q] == Swap(c, m) && s.now == at
    requires Lookup(s.store, Rt(c.jti), at) == Some(Meta(m)) && Fresh(s, heir) && Fresh(s, heir + 1)
    ensures Enabled(s, CasUsed(q, at, at))
    ensures var s' := Apply(s, CasUsed(q, at, at));
      && Enabled(s', SetHeir(q, heir, heir + 1, at))
      && var u := Apply(s', SetHeir(q, heir, heir + 1, at));
      && q in u.rotations && u.rotations[q].Finished? && u.rotations[q].outcome.Ok?
      && u.rotations[q].outcome.result.refreshToken == Signed(Claims(Refresh, c.sub, c.tenant, heir, []))
  {
  }

  lemma TwoSteps(s: State, a: Action, b: Action)
    requires Enabled(s, a) && Enabled(Apply(s, a), b)
    ensures CanRun(s, [a, b]) && Exec(s, [a, b]) == Apply(Apply(s, a), b)
  {
    hide Enabled, Apply;
    ExecOne(Apply(s, a), b);
    assert [a, b][0] == a && [a, b][1..] == [b];
  }

  lemma FourSteps(s: State, a: Action, b: Action, c: Action, d: Action)
    requires Enabled(s, a) && Enabled(Apply(s, a), b)
    requires var t := Apply(Apply(s, a), b); Enabled(t, c) && Enabled(Apply(t, c), d)
    ensures CanRun(s, [a, b, c, d]) && Exec(s, [a, b, c, d]) == Apply(Apply(Apply(Apply(s, a), b), c), d)
  {
    hide *;
    TwoSteps(s, a, b);
    TwoSteps(Apply(Apply(s, a), b), c, d);
    ExecAppend(s, [a, b], [c, d]);
    assert [a, b] + [c, d] == [a, b, c, d];
  }

  lemma FiveSteps(s: State, a: Action, b: Action, c: Action, d: Action, e: Action)
    requires Enabled(s, a) && Enabled(Apply(s, a), b)
    requires var t := Apply(Apply(s, a), b); Enabled(t, c) && Enabled(Apply(t, c), d) && Enabled(Apply(Apply(t, c), d), e)
    ensures CanRun(s, [a, b, c, d, e]) && Exec(s, [a, b, c, d, e]) == Apply(Apply(Apply(Apply(Apply(s, a), b), c), d), e)
  {
    hide *;
    FourSteps(s, a, b, c, d);
    ExecOne(Apply(Apply(Apply(Apply(s, a), b), c), d), e);
    ExecAppend(s, [a, b, c, d], [e]);
    assert [a, b, c, d] + [e] == [a, b, c, d, e];
  }

  // --- A used token ----------------------------------------------------------------------------

  /** The step is a compare-and-set that wins. */
  ghost predicate Wins(s: State, a: Action) {
    a.CasUsed? && Enabled(s, a) && Apply(s, a).rotations[a.id].RegisterHeir?
  }

  lemma UsedFrom(s: State, a: Action)
    requires Inv(s) && Wins(s, a)
    ensures var c := s.rotations[a.id].claims; var t := Apply(s, a);
      && IsRefresh(t, c) && Written(t, c.jti) == s.rotations[a.id].meta.(used := true)
      && t.store[Rt(c.jti)].expiresAt == a.written + s.ttl && t.ttl == s.ttl
  {
    assert PhaseOk(s, a.id);
  }

  /** For one time to live from its use, a token is found to be used; from then on it is not found at all. */
  lemma UseIsFoundFor(s: State, a: Action, t: State, q: RotationId, at: Instant)
    requires Reachable(s) && Wins(s, a) && Leads(Apply(s, a), t) && t.now <= at
    requires q in t.rotations && t.rotations[q].ReadMeta? && t.rotations[q].claims.jti == s.rotations[a.id].claims.jti
    ensures var r := Apply(t, GetMeta(q, at)).rotations[q];
      if at < a.written + s.ttl then r.ReadFlag? && r.meta.used && r.meta.family == s.rotations[a.id].meta.family
      else r.Finished? && r.outcome == Err(TokenExpiredOrRevoked)
  {
    ReachableInv(s);
    StepKeepsInv(s, a);
    UsedFrom(s, a);
    hide Inv, Apply, Leads;
    var acts := WayTo(Apply(s, a), t);
    EntryLasts(Apply(s, a), acts, s.rotations[a.id].claims.jti);
    MetaRead(t, q, at);
  }

  /** A rotation of a replayed token: it starts, finds the token used and the family unmarked, and marks it. */
  function Replay(q: RotationId, c: Claims, at: Instant): seq<Action> {
    [Start(q, Signed(c), false), GetMeta(q, at), GetFlag(q, at), SetFlag(q, at)]
  }

  /** For one time to live from the use of a token, an undisturbed rotation of it in an unmarked family reports a
      replay and marks the family, whatever has happened in between. */
  lemma ReplayIsRecognised(s: State, a: Action, t: State, q: RotationId, at: Instant)
    requires Reachable(s) && Wins(s, a) && Leads(Apply(s, a), t) && q !in t.rotations
    requires t.now <= at < a.written + s.ttl
    requires var mark := Revoked(s.rotations[a.id].meta.family); !(mark in t.store && at < t.store[mark].expiresAt)
    ensures var c := s.rotations[a.id].claims; CanRun(t, Replay(q, c, at))
    ensures var c := s.rotations[a.id].claims;
      var mark := Revoked(s.rotations[a.id].meta.family);
      var u := Exec(t, Replay(q, c, at));
      && q in u.rotations && u.rotations[q].Finished? && u.rotations[q].outcome == Err(ReplayAttackDetected)
      && mark in u.store && u.store[mark].expiresAt == at + s.ttl
  {
    var c := s.rotations[a.id].claims;
    ReachableInv(s);
    StepKeepsInv(s, a);
    UsedFrom(s, a);
    var acts := WayTo(Apply(s, a), t);
    EntryLasts(Apply(s, a), acts, c.jti);
    RunGrows(Apply(s, a), acts);
    var m := Written(t, c.jti);
    assert IsRefresh(t, c) && t.ttl == s.ttl;
    hide Inv, Leads, Reachable, Wins;
    Revocation.LoneStart(t, q, c);
    var t1 := Apply(t, Start(q, Signed(c), false));
    Revocation.LoneGetMeta(t1, q, c, at);
    var t2 := Apply(t1, GetMeta(q, at));
    ReplayMarks(t2, q, c, m, at);
    hide Enabled, Apply, Lookup, IsRefresh;
    FourSteps(t, Start(q, Signed(c), false), GetMeta(q, at), GetFlag(q, at), SetFlag(q, at));
  }

  lemma ReplayMarks(s: State, q: RotationId, c: Claims, m: Metadata, at: Instant)
    requires q in s.rotations && s.rotations[q] == ReadFlag(c, m) && s.now == at && m.used
    requires Lookup(s.store, Revoked(m.family), at) == None
    ensures Enabled(s, GetFlag(q, at)) && Enabled(Apply(s, GetFlag(q, at)), SetFlag(q, at))
    ensures var u := Apply(Apply(s, GetFlag(q, at)), SetFlag(q, at));
      && q in u.rotations && u.rotations[q] == Finished(Some(c.jti), Some(m), Err(ReplayAttackDetected))
      && Revoked(m.family) in u.store && u.store[Revoked(m.family)].expiresAt == at + s.ttl
  {
  }

  // --- A mark ----------------------------------------------------------------------------------

  lemma MarkedFrom(s: State, a: Action)
    requires a.SetFlag? && Enabled(s, a)
    ensures var mark := Revoked(s.rotations[a.id].meta.family);
      mark in Apply(s, a).store && Apply(s, a).store[mark].expiresAt == a.at + s.ttl
  {
  }

  lemma FlagRead(t: State, q: RotationId, at: Instant)
    requires q in t.rotations && t.rotations[q].ReadFlag? && t.now <= at
    ensures var r := Apply(t, GetFlag(q, at)).rotations[q]; var m := t.rotations[q].meta;
      if Revoked(m.family) in t.store && at < t.store[Revoked(m.family)].expiresAt
      then r.Finished? && r.outcome == Err(FamilyRevoked)
      else r == if m.used then MarkFamily(t.rotations[q].claims, m) else Swap(t.rotations[q].claims, m)
  {
  }

  /** For at least one time to live from the writing of a mark, every rotation that reads it, of whatever token of the
      family, is refused as revoked; if nobody writes a mark again, not an instant longer. */
  lemma MarkStandsFor(s: State, a: Action, acts: seq<Action>, q: RotationId, at: Instant)
    requires Reachable(s) && a.SetFlag? && Enabled(s, a) && CanRun(Apply(s, a), acts)
    requires var t := Exec(Apply(s, a), acts);
      && t.now <= at && q in t.rotations && t.rotations[q].ReadFlag?
      && t.rotations[q].meta.family == s.rotations[a.id].meta.family
    ensures var t := Exec(Apply(s, a), acts); var r := Apply(t, GetFlag(q, at)).rotations[q];
      && (at < a.at + s.ttl ==> r.Finished? && r.outcome == Err(FamilyRevoked))
      && (at >= a.at + s.ttl && (forall b <- acts :: !b.SetFlag?) ==> !r.Finished?)
  {
    var t := Exec(Apply(s, a), acts);
    ReachableInv(s);
    StepKeepsInv(s, a);
    MarkedFrom(s, a);
    hide Inv, Apply, Enabled, Reachable;
    MarkLasts(Apply(s, a), acts, s.rotations[a.id].meta.family);
    FlagRead(t, q, at);
  }

  // --- What is refused at the door -------------------------------------------------------------

  /** A rotation gets as far as the store exactly with an unexpired refresh token that was minted; an access token is
      refused as such, and everything else as no token at all. */
  lemma RefusedAtTheDoor(s: State, q: RotationId, token: Token, expired: bool)
    requires q !in s.rotations
    ensures var r := Apply(s, Start(q, token, expired)).rotations[q];
      var genuine := token.Signed? && !expired && exists j <- s.minted :: s.minted[j].claims == token.claims && j == token.claims.jti;
      if !genuine then r == Finished(None, None, Err(TokenError))
      else if token.claims.kind == Access then r == Finished(None, None, Err(InvalidTokenType))
      else r == ReadMeta(token.claims)
  {
  }
}
