/** What holds of every interleaving of rotations: one heir per token, reuse always noticed, one
    identity per family, and how far a revocation with a finite time to live reaches. */
module RotationTheorems {
  import opened Wrappers
  import opened TokenRotation
  import opened RotationInvariant

  // --- Single heir ---------------------------------------------------------------------------

  lemma MemberLink(s: State, j: Jti) returns (i: nat)
    requires Inv(s) && Registered(s, j)
    ensures
      var f := Written(s, j).family;
      && f in s.families && i < |s.families[f].members| && s.families[f].members[i] == j
      && ChainOk(s, f) && LinkOk(s, f, i)
  {
    var f := Written(s, j).family;
    assert ChainOk(s, f);
    i :| 0 <= i < |s.families[f].members| && s.families[f].members[i] == j;
  }

  /** No two registered tokens name the same parent. */
  lemma OneHeirPerToken(s: State, a: Jti, b: Jti)
    requires Reachable(s) && Registered(s, a) && Registered(s, b)
    requires Written(s, a).parent.Some? && Written(s, a).parent == Written(s, b).parent
    ensures a == b
  {
    ReachableInv(s);
    var i := MemberLink(s, a);
    var k := MemberLink(s, b);
    var f := Written(s, a).family;
    var g := Written(s, b).family;
    assert s.families[f].members[i - 1] == s.families[g].members[k - 1];
    OneFamily(s, f, s.families[f].members[i - 1]);
    OneFamily(s, g, s.families[g].members[k - 1]);
  }

  /** The tokens of a family are exactly one chain of parents, and all but the newest are used. */
  lemma FamilyIsOneChain(s: State, f: FamilyId)
    requires Reachable(s) && f in s.families
    ensures
      var chain := s.families[f].members;
      && chain != []
      && (forall j: Jti :: j in chain <==> Registered(s, j) && Written(s, j).family == f)
      && (forall i, k :: 0 <= i < k < |chain| ==> chain[i] != chain[k])
      && (forall i {:trigger chain[i]} :: 0 <= i < |chain| ==>
            && Registered(s, chain[i])
            && Written(s, chain[i]).parent == (if i == 0 then None else Some(chain[i - 1]))
            && (i < |chain| - 1 ==> Written(s, chain[i]).used))
  {
    ReachableInv(s);
    var chain := s.families[f].members;
    assert ChainOk(s, f);
    forall j: Jti | j in chain ensures Registered(s, j) && Written(s, j).family == f {
      OneFamily(s, f, j);
    }
    forall i {:trigger chain[i]} | 0 <= i < |chain|
      ensures
        && Registered(s, chain[i])
        && Written(s, chain[i]).parent == (if i == 0 then None else Some(chain[i - 1]))
        && (i < |chain| - 1 ==> Written(s, chain[i]).used)
    {
      assert LinkOk(s, f, i);
    }
  }

  /** What entitles somebody to go on in a family: a token written as unused, or a rotation between its
      winning compare-and-set and the registration of its heir. */
  datatype Right = UnusedToken(jti: Jti) | OwedHeir(id: RotationId)

  ghost function Rights(s: State, f: FamilyId): set<Right> {
    (set k <- s.store.Keys | k.Rt? && s.store[k].value.Meta? && s.store[k].value.meta.family == f
                             && !s.store[k].value.meta.used :: UnusedToken(k.jti))
    + (set p <- s.rotations.Keys | s.rotations[p].RegisterHeir? && s.rotations[p].meta.family == f :: OwedHeir(p))
  }

  /** It lies with the rotation that owes the family an heir, or else with the newest token. */
  ghost function RightOf(fam: Family): Right {
    if fam.pending.Some? then OwedHeir(fam.pending.value)
    else UnusedToken(if fam.members == [] then 0 else fam.members[|fam.members| - 1])
  }

  lemma RightIsThere(s: State, f: FamilyId)
    requires Inv(s) && f in s.families
    ensures RightOf(s.families[f]) in Rights(s, f)
  {
    var fam := s.families[f];
    assert ChainOk(s, f) && PendingOk(s, f);
    assert LinkOk(s, f, |fam.members| - 1);
    if fam.pending.None? { assert Rt(fam.members[|fam.members| - 1]) in s.store.Keys; }
  }

  lemma NoOtherRight(s: State, f: FamilyId, r: Right)
    requires Inv(s) && f in s.families && r in Rights(s, f)
    ensures r == RightOf(s.families[f])
  {
    match r
    case UnusedToken(j) => assert Registered(s, j); UnusedIsTip(s, j);
    case OwedHeir(p) => assert PhaseOk(s, p);
  }

  /** A family's right to go on is passed along, never copied and never lost. */
  lemma ExactlyOneRight(s: State, f: FamilyId)
    requires Reachable(s) && f in s.families
    ensures |Rights(s, f)| == 1
  {
    hide *;
    ReachableInv(s);
    RightIsThere(s, f);
    forall r | r in Rights(s, f) ensures r == RightOf(s.families[f]) { NoOtherRight(s, f, r); }
    assert Rights(s, f) == {RightOf(s.families[f])};
  }

  // --- Reuse ---------------------------------------------------------------------------------

  /** If two rotations of one token both found its metadata and both completed, they did not both
      succeed, and the family's revocation mark has been written. */
  lemma ReuseIsDetected(s: State, p: RotationId, q: RotationId)
    requires Reachable(s) && p != q && p in s.rotations && q in s.rotations
    requires s.rotations[p].Finished? && s.rotations[p].seen.Some?
    requires s.rotations[q].Finished? && s.rotations[q].seen.Some?
    requires s.rotations[p].jti == s.rotations[q].jti
    ensures s.rotations[p].outcome.Err? || s.rotations[q].outcome.Err?
    ensures s.rotations[p].seen.value.family == s.rotations[q].seen.value.family
    ensures Revoked(s.rotations[p].seen.value.family) in s.store
  {
    ReachableInv(s);
    assert PhaseOk(s, p) && PhaseOk(s, q);
    var j := s.rotations[p].jti.value;
    if s.rotations[p].outcome.Ok? && s.rotations[q].outcome.Ok? {
      assert Won(s, p, j) && Won(s, q, j);
    }
  }

  // --- Identity ------------------------------------------------------------------------------

  /** The token a rotation works on. */
  ghost function TokenOf(r: Phase): Option<Jti> {
    if r.Finished? then r.jti else Some(r.claims.jti)
  }

  lemma StepKeepsToken(s: State, a: Action, id: RotationId)
    requires Enabled(s, a) && id in s.rotations
    ensures id in Apply(s, a).rotations
    ensures TokenOf(Apply(s, a).rotations[id]) == TokenOf(s.rotations[id])
    ensures s.rotations[id].Finished? ==> Apply(s, a).rotations[id] == s.rotations[id]
  {
  }

  lemma {:induction false} RotationKeepsToken(s: State, acts: seq<Action>, id: RotationId)
    requires CanRun(s, acts) && id in s.rotations
    ensures id in Exec(s, acts).rotations
    ensures TokenOf(Exec(s, acts).rotations[id]) == TokenOf(s.rotations[id])
    ensures s.rotations[id].Finished? ==> Exec(s, acts).rotations[id] == s.rotations[id]
    decreases |acts|
  {
    hide Enabled, Apply, TokenOf;
    if acts != [] {
      StepKeepsToken(s, acts[0], id);
      RotationKeepsToken(Apply(s, acts[0]), acts[1..], id);
    }
  }

  lemma {:induction false} RunGrows(s: State, acts: seq<Action>)
    requires Inv(s) && CanRun(s, acts)
    ensures Grows(s, Exec(s, acts))
    decreases |acts|
  {
    if acts != [] {
      StepKeepsInv(s, acts[0]);
      StepGrows(s, acts[0]);
      RunGrows(Apply(s, acts[0]), acts[1..]);
      GrowsOn(s, Apply(s, acts[0]), Exec(s, acts));
    }
  }

  lemma GrowsOn(s: State, t: State, u: State)
    requires Grows(s, t) && Grows(t, u)
    ensures Grows(s, u)
  {
    forall j: Jti | Registered(s, j) ensures Seen(u, j, Written(s, j)) {
      assert Seen(t, j, Written(s, j)) && Seen(u, j, Written(t, j));
    }
  }

  /** `c` was issued to the holder of family `f`. */
  ghost predicate IssuedFor(s: State, t: Token, f: FamilyId, kind: Kind) {
    && IsMinted(s, t, f) && f in s.families && t.claims.kind == kind
    && t.claims.sub == s.families[f].user && t.claims.tenant == s.families[f].tenant
    && (kind == Access ==> t.claims.roles == s.families[f].roles)
  }

  lemma SuccessIsIssued(t: State, id: RotationId)
    requires Inv(t) && id in t.rotations && t.rotations[id].Finished? && t.rotations[id].outcome.Ok?
    ensures
      var r := t.rotations[id];
      && r.seen.Some? && r.jti.Some? && Registered(t, r.jti.value) && Written(t, r.jti.value).family == r.seen.value.family
      && IssuedFor(t, r.outcome.result.accessToken, r.seen.value.family, Access)
      && IssuedFor(t, r.outcome.result.refreshToken, r.seen.value.family, Refresh)
  {
    assert PhaseOk(t, id);
    var result := t.rotations[id].outcome.result;
    assert MintedOk(t, result.accessToken.claims.jti) && MintedOk(t, result.refreshToken.claims.jti);
  }

  lemma DecodedIsIssued(s: State, token: Token, expired: bool)
    requires Inv(s) && Decode(s.minted, token, expired).Decoded?
    ensures token.Signed? && token.claims.jti in s.minted
    ensures
      var f := s.minted[token.claims.jti].family;
      IssuedFor(s, token, f, Refresh) && Registered(s, token.claims.jti) && Written(s, token.claims.jti).family == f
  {
    assert MintedOk(s, token.claims.jti);
  }

  /** A rotation succeeds only for a refresh token that was minted, and what it hands out carries the user,
      tenant and roles of the login that token's family stems from. */
  lemma RotationKeepsIdentity(s: State, id: RotationId, token: Token, expired: bool, t: State)
    requires Reachable(s) && Enabled(s, Start(id, token, expired))
    requires Leads(Apply(s, Start(id, token, expired)), t)
    requires id in t.rotations && t.rotations[id].Finished? && t.rotations[id].outcome.Ok?
    ensures token.Signed? && token.claims.jti in s.minted
    ensures
      var f := s.minted[token.claims.jti].family;
      && IssuedFor(s, token, f, Refresh)
      && f in s.families && f in t.families && SameLogin(s.families[f], t.families[f])
      && IssuedFor(t, t.rotations[id].outcome.result.accessToken, f, Access)
      && IssuedFor(t, t.rotations[id].outcome.result.refreshToken, f, Refresh)
    ensures
      var login := s.families[s.minted[token.claims.jti].family];
      var access, refresh := t.rotations[id].outcome.result.accessToken, t.rotations[id].outcome.result.refreshToken;
      && access.Signed? && access.claims.kind == Access && refresh.Signed? && refresh.claims.kind == Refresh
      && token.claims.sub == access.claims.sub == refresh.claims.sub == login.user
      && token.claims.tenant == access.claims.tenant == refresh.claims.tenant == login.tenant
      && access.claims.roles == login.roles
  {
    var a := Start(id, token, expired);
    var s' := Apply(s, a);
    ReachableInv(s);
    StepKeepsInv(s, a);
    StartedOn(s, id, token, expired);
    hide Inv, Enabled, Apply, Decode, Leads, Exec, CanRun, IssuedFor, SameLogin, Reachable;
    var acts := WayTo(s', t);
    LeadsInv(s', t);
    RunGrows(s', acts);
    RotationKeepsToken(s', acts, id);
    SuccessIsIssued(t, id);
    DecodedIsIssued(s, token, expired);
    assert Seen(t, token.claims.jti, Written(s', token.claims.jti));
  }

  /** What a rotation that has just begun works on. */
  lemma StartedOn(s: State, id: RotationId, token: Token, expired: bool)
    requires Enabled(s, Start(id, token, expired))
    ensures
      var s' := Apply(s, Start(id, token, expired));
      && s' == s.(rotations := s'.rotations) && id in s'.rotations
      && if Decode(s.minted, token, expired).Decoded? then TokenOf(s'.rotations[id]) == Some(token.claims.jti)
         else s'.rotations[id].Finished? && s'.rotations[id].outcome.Err?
  {
  }

  lemma WayTo(s: State, t: State) returns (acts: seq<Action>)
    requires Leads(s, t)
    ensures CanRun(s, acts) && Exec(s, acts) == t
  {
    acts :| CanRun(s, acts) && Exec(s, acts) == t;
  }
}
