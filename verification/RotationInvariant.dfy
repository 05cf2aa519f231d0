/** What every step of every interleaving of rotations keeps. */
module RotationInvariant {
  import opened Wrappers
  import opened SessionStore
  import opened TokenRotation

  ghost predicate Registered(s: State, j: Jti) {
    Rt(j) in s.store && s.store[Rt(j)].value.Meta?
  }

  /** The metadata last written for `j`, lapsed or not. */
  function Written(s: State, j: Jti): Metadata
    requires Registered(s, j)
  {
    s.store[Rt(j)].value.meta
  }

  /** The metadata a rotation read is still what is written, but for `used`, which only goes up. */
  ghost predicate Seen(s: State, j: Jti, m: Metadata) {
    Registered(s, j) && (Written(s, j) == m || Written(s, j) == m.(used := true))
  }

  ghost predicate IsRefresh(s: State, c: Claims) {
    c.kind == Refresh && c.jti in s.minted && s.minted[c.jti].claims == c && Registered(s, c.jti)
  }

  ghost predicate Clocked(s: State) {
    forall k <- s.store :: s.store[k].expiresAt <= s.now + s.ttl
  }

  ghost predicate KeysOk(s: State) {
    && (forall j: Jti :: Rt(j) in s.store ==>
          Registered(s, j) && Written(s, j).family in s.families && j in s.families[Written(s, j).family].members)
    && (forall f: FamilyId :: Revoked(f) in s.store ==> s.store[Revoked(f)].value.RevokedMark? && f in s.families)
  }

  /** The members of a family form one chain of parents; only its newest token can be unused, and it is
      used exactly while a rotation owes it an heir. */
  ghost predicate ChainOk(s: State, f: FamilyId)
    requires f in s.families
  {
    var fam := s.families[f];
    && fam.members != []
    && (forall i, k :: 0 <= i < k < |fam.members| ==> fam.members[i] != fam.members[k])
    && (forall i :: 0 <= i < |fam.members| ==> LinkOk(s, f, i))
  }

  ghost predicate LinkOk(s: State, f: FamilyId, i: nat)
    requires f in s.families && i < |s.families[f].members|
  {
    var fam := s.families[f];
    && Registered(s, fam.members[i])
    && var m := Written(s, fam.members[i]);
    && m.family == f && m.user == fam.user && m.tenant == fam.tenant && m.roles == fam.roles
    && m.parent == (if i == 0 then None else Some(fam.members[i - 1]))
    && m.used == (i < |fam.members| - 1 || fam.pending.Some?)
  }

  ghost predicate PendingOk(s: State, f: FamilyId)
    requires f in s.families
  {
    var fam := s.families[f];
    fam.pending.Some? && fam.members != [] ==>
      && fam.pending.value in s.rotations
      && s.rotations[fam.pending.value].RegisterHeir?
      && s.rotations[fam.pending.value].meta.family == f
      && s.rotations[fam.pending.value].claims.jti == fam.members[|fam.members| - 1]
  }

  /** Every minted token carries the identity of the login its family stems from. */
  ghost predicate MintedOk(s: State, j: Jti)
    requires j in s.minted
  {
    var t := s.minted[j];
    && t.claims.jti == j
    && t.family in s.families
    && t.claims.sub == s.families[t.family].user
    && t.claims.tenant == s.families[t.family].tenant
    && (t.claims.kind == Access ==> t.claims.roles == s.families[t.family].roles)
    && (t.claims.kind == Refresh ==> Registered(s, j) && Written(s, j).family == t.family)
  }

  ghost predicate IsMinted(s: State, t: Token, f: FamilyId) {
    t.Signed? && t.claims.jti in s.minted && s.minted[t.claims.jti] == Minted(t.claims, f)
  }

  ghost predicate PhaseOk(s: State, id: RotationId)
    requires id in s.rotations
  {
    match s.rotations[id]
    case ReadMeta(c) => IsRefresh(s, c)
    case ReadFlag(c, m) => IsRefresh(s, c) && Seen(s, c.jti, m)
    case Swap(c, m) => IsRefresh(s, c) && Seen(s, c.jti, m) && !m.used
    case MarkFamily(c, m) => IsRefresh(s, c) && Seen(s, c.jti, m)
    case RegisterHeir(c, m) =>
      && IsRefresh(s, c) && Seen(s, c.jti, m) && !m.used
      && m.family in s.families && s.families[m.family].pending == Some(id)
    case Finished(j, seen, outcome) =>
      && (outcome.Ok? ==>
            && j.Some? && seen.Some? && Registered(s, j.value) && Written(s, j.value).used
            && IsMinted(s, outcome.result.accessToken, seen.value.family)
            && IsMinted(s, outcome.result.refreshToken, seen.value.family)
            && outcome.result.accessToken.claims.kind == Access
            && outcome.result.refreshToken.claims.kind == Refresh)
      && (seen.Some? ==> j.Some? && Seen(s, j.value, seen.value))
      && (seen.Some? && outcome.Err? ==> Revoked(seen.value.family) in s.store)
  }

  /** `id` has used up `j`: its compare-and-set on it succeeded. */
  ghost predicate Won(s: State, id: RotationId, j: Jti) {
    && id in s.rotations
    && var r := s.rotations[id];
    || (r.RegisterHeir? && r.claims.jti == j)
    || (r.Finished? && r.outcome.Ok? && r.jti == Some(j))
  }

  ghost predicate WinsOk(s: State) {
    forall p, q, j :: Won(s, p, j) && Won(s, q, j) ==> p == q
  }

  ghost predicate ChainsOk(s: State) {
    forall f <- s.families :: ChainOk(s, f) && PendingOk(s, f)
  }

  ghost predicate Inv(s: State) {
    && Clocked(s) && KeysOk(s) && WinsOk(s) && ChainsOk(s)
    && (forall j <- s.minted :: MintedOk(s, j))
    && (forall id <- s.rotations :: PhaseOk(s, id))
  }

  lemma InitInv(ttl: nat)
    ensures Inv(Init(ttl))
  {
  }

  // --- What steps leave alone ----------------------------------------------------------------

  /** Nothing minted, registered or flagged is ever taken back. */
  ghost predicate Grows(s: State, t: State) {
    && s.ttl == t.ttl && s.now <= t.now
    && (forall j <- s.minted :: j in t.minted && t.minted[j] == s.minted[j])
    && (forall f <- s.families :: f in t.families && SameLogin(s.families[f], t.families[f]))
    && (forall j: Jti :: Registered(s, j) ==> Seen(t, j, Written(s, j)))
    && (forall f: FamilyId :: Revoked(f) in s.store ==> Revoked(f) in t.store)
  }

  ghost predicate SameLogin(a: Family, b: Family) {
    && a.user == b.user && a.tenant == b.tenant && a.roles == b.roles
    && a.members <= b.members
  }

  /** A rotation that does not move stays well placed. */
  lemma PhaseFrame(s: State, t: State, id: RotationId)
    requires Grows(s, t) && id in s.rotations && PhaseOk(s, id)
    requires id in t.rotations && t.rotations[id] == s.rotations[id]
    requires s.rotations[id].RegisterHeir? ==>
      History(t, s.rotations[id].meta.family).pending == History(s, s.rotations[id].meta.family).pending
    ensures PhaseOk(t, id)
  {
  }

  lemma MintedFrame(s: State, t: State, j: Jti)
    requires Grows(s, t) && j in s.minted && MintedOk(s, j)
    ensures MintedOk(t, j)
  {
  }

  /** A family no step touches keeps its chain. */
  lemma ChainFrame(s: State, t: State, f: FamilyId)
    requires f in s.families && f in t.families && s.families[f] == t.families[f] && ChainOk(s, f)
    requires forall j <- s.families[f].members :: Registered(t, j) && Registered(s, j) && Written(t, j) == Written(s, j)
    ensures ChainOk(t, f)
  {
    forall i | 0 <= i < |t.families[f].members| ensures LinkOk(t, f, i) {
      assert LinkOk(s, f, i);
      assert t.families[f].members[i] in s.families[f].members;
    }
  }

  /** A token registered in one family is a member of no other. */
  lemma OneFamily(s: State, f: FamilyId, j: Jti)
    requires f in s.families && ChainOk(s, f) && j in s.families[f].members
    ensures Registered(s, j) && Written(s, j).family == f
  {
    var i :| 0 <= i < |s.families[f].members| && s.families[f].members[i] == j;
    assert LinkOk(s, f, i);
  }

  /** A family whose history and tokens a step leaves alone, along with the rotation that owes an heir. */
  lemma FamilyFrame(s: State, t: State, f: FamilyId)
    requires Inv(s) && f in s.families && f in t.families && s.families[f] == t.families[f]
    requires forall j: Jti :: Registered(s, j) && Written(s, j).family == f ==> Registered(t, j) && Written(t, j) == Written(s, j)
    requires forall p <- s.rotations :: s.rotations[p].RegisterHeir? && s.rotations[p].meta.family == f ==>
      p in t.rotations && t.rotations[p] == s.rotations[p]
    ensures ChainOk(t, f) && PendingOk(t, f)
  {
    assert ChainOk(s, f) && PendingOk(s, f);
    forall j | j in s.families[f].members ensures Registered(s, j) && Registered(t, j) && Written(t, j) == Written(s, j) {
      OneFamily(s, f, j);
    }
    ChainFrame(s, t, f);
  }

  /** Only the rotations in `moved` move, and no other rotation's debt of an heir is touched. */
  ghost predicate OthersStay(s: State, t: State, moved: set<RotationId>) {
    && (forall p <- t.rotations :: p in moved || (p in s.rotations && t.rotations[p] == s.rotations[p]))
    && (forall p <- s.rotations :: p in moved || !s.rotations[p].RegisterHeir? ||
          History(t, s.rotations[p].meta.family).pending == History(s, s.rotations[p].meta.family).pending)
  }

  /** The parts of the invariant a step has to re-establish; the rest follows from what it leaves alone. */
  lemma Assemble(s: State, t: State, moved: set<RotationId>)
    requires Inv(s) && Grows(s, t) && Clocked(t) && KeysOk(t) && WinsOk(t) && ChainsOk(t)
    requires forall j <- t.minted :: j in s.minted || MintedOk(t, j)
    requires OthersStay(s, t, moved)
    requires forall p <- t.rotations :: p in moved ==> PhaseOk(t, p)
    ensures Inv(t)
  {
    forall j | j in t.minted ensures MintedOk(t, j) {
      if j in s.minted { MintedFrame(s, t, j); }
    }
    forall p | p in t.rotations ensures PhaseOk(t, p) {
      if p !in moved { PhaseFrame(s, t, p); }
    }
  }

  /** A step that wins nothing new. */
  lemma WinsFrame(s: State, t: State)
    requires WinsOk(s)
    requires forall p, j :: Won(t, p, j) ==> Won(s, p, j)
    ensures WinsOk(t)
  {
  }

  lemma FamiliesFrame(s: State, t: State)
    requires Inv(s) && t.families == s.families
    requires forall j: Jti :: Registered(s, j) ==> Registered(t, j) && Written(t, j) == Written(s, j)
    requires forall p <- s.rotations :: s.rotations[p].RegisterHeir? ==> p in t.rotations && t.rotations[p] == s.rotations[p]
    ensures ChainsOk(t)
  {
    forall f | f in t.families ensures ChainOk(t, f) && PendingOk(t, f) {
      FamilyFrame(s, t, f);
    }
  }

  lemma MoveWins(s: State, t: State, id: RotationId)
    requires WinsOk(s) && id in t.rotations && t.rotations == s.rotations[id := t.rotations[id]]
    requires !t.rotations[id].RegisterHeir? && (t.rotations[id].Finished? ==> t.rotations[id].outcome.Err?)
    ensures WinsOk(t)
  {
    WinsFrame(s, t);
  }

  /** A step that only moves one rotation on, and is neither a success nor a change of the store. */
  lemma MoveKeepsInv(s: State, t: State, id: RotationId)
    requires Inv(s) && s.now <= t.now && t == s.(now := t.now, rotations := t.rotations)
    requires id in t.rotations && t.rotations == s.rotations[id := t.rotations[id]]
    requires id in s.rotations ==> !s.rotations[id].RegisterHeir? && !s.rotations[id].Finished?
    requires !t.rotations[id].RegisterHeir? && (t.rotations[id].Finished? ==> t.rotations[id].outcome.Err?)
    requires PhaseOk(t, id)
    ensures Inv(t)
  {
    assert Grows(s, t) && OthersStay(s, t, {id});
    FamiliesFrame(s, t);
    MoveWins(s, t, id);
    assert Clocked(t) && KeysOk(t);
    hide *;
    Assemble(s, t, {id});
  }

  lemma StartKeepsInv(s: State, a: Action)
    requires Inv(s) && a.Start? && Enabled(s, a)
    ensures Inv(Apply(s, a))
  {
    if Decode(s.minted, a.token, a.expired).Decoded? {
      assert MintedOk(s, a.token.claims.jti);
    }
    MoveKeepsInv(s, Apply(s, a), a.id);
  }

  lemma ReadKeepsInv(s: State, a: Action)
    requires Inv(s) && (a.GetMeta? || a.GetFlag?) && Enabled(s, a)
    ensures Inv(Apply(s, a))
  {
    hide Clocked, KeysOk, WinsOk, PendingOk, MintedOk;
    assert PhaseOk(s, a.id);
    MoveKeepsInv(s, Apply(s, a), a.id);
  }

  /** A step that writes one entry, with a fresh deadline, and takes nothing back. */
  lemma GrowsByWrite(s: State, t: State, k: Key)
    requires Clocked(s) && s.ttl == t.ttl && s.now <= t.now
    requires k in t.store && t.store == s.store[k := t.store[k]] && t.store[k].expiresAt <= t.now + t.ttl
    requires k.Rt? && Registered(s, k.jti) ==> Seen(t, k.jti, Written(s, k.jti))
    requires forall j <- s.minted :: j in t.minted && t.minted[j] == s.minted[j]
    requires forall f <- s.families :: f in t.families && SameLogin(s.families[f], t.families[f])
    ensures Grows(s, t) && Clocked(t)
  {
    hide SameLogin;
    forall j: Jti | Registered(s, j) ensures Seen(t, j, Written(s, j)) {
      if Rt(j) != k { assert Written(t, j) == Written(s, j); }
    }
  }

  lemma LoginGrows(s: State, a: Action)
    requires Inv(s) && a.Login? && Enabled(s, a)
    ensures Grows(s, Apply(s, a)) && Clocked(Apply(s, a))
  {
    hide Grows, KeysOk, WinsOk, ChainsOk, MintedOk, PhaseOk;
    GrowsByWrite(s, Apply(s, a), Rt(a.jti));
  }

  lemma LoginKeys(s: State, a: Action)
    requires Inv(s) && a.Login? && Enabled(s, a)
    ensures KeysOk(Apply(s, a))
  {
  }

  lemma LoginChains(s: State, a: Action)
    requires Inv(s) && a.Login? && Enabled(s, a)
    ensures ChainsOk(Apply(s, a))
  {
    var t := Apply(s, a);
    forall f | f in t.families ensures ChainOk(t, f) && PendingOk(t, f) {
      if f == a.family { assert LinkOk(t, f, 0); } else { FamilyFrame(s, t, f); }
    }
  }

  lemma LoginMoves(s: State, a: Action)
    requires Inv(s) && a.Login? && Enabled(s, a)
    ensures WinsOk(Apply(s, a)) && OthersStay(s, Apply(s, a), {})
    ensures forall j <- Apply(s, a).minted :: j in s.minted || MintedOk(Apply(s, a), j)
  {
    WinsFrame(s, Apply(s, a));
    forall p | p in s.rotations && s.rotations[p].RegisterHeir? ensures s.rotations[p].meta.family != a.family {
      assert PhaseOk(s, p);
    }
  }

  lemma LoginKeepsInv(s: State, a: Action)
    requires Inv(s) && a.Login? && Enabled(s, a)
    ensures Inv(Apply(s, a))
  {
    hide *;
    LoginGrows(s, a);
    LoginKeys(s, a);
    LoginChains(s, a);
    LoginMoves(s, a);
    Assemble(s, Apply(s, a), {});
  }

  lemma SetFlagGrows(s: State, a: Action)
    requires Inv(s) && a.SetFlag? && Enabled(s, a)
    ensures Grows(s, Apply(s, a)) && Clocked(Apply(s, a))
  {
    hide Grows, KeysOk, WinsOk, ChainsOk, MintedOk, PhaseOk;
    GrowsByWrite(s, Apply(s, a), Revoked(s.rotations[a.id].meta.family));
  }

  lemma SetFlagPhase(s: State, a: Action)
    requires Inv(s) && a.SetFlag? && Enabled(s, a)
    ensures KeysOk(Apply(s, a)) && PhaseOk(Apply(s, a), a.id)
  {
    assert PhaseOk(s, a.id);
  }

  lemma SetFlagMoves(s: State, a: Action)
    requires Inv(s) && a.SetFlag? && Enabled(s, a)
    ensures WinsOk(Apply(s, a)) && ChainsOk(Apply(s, a)) && OthersStay(s, Apply(s, a), {a.id})
    ensures Apply(s, a).minted == s.minted
  {
    hide ChainsOk, MintedOk, PhaseOk;
    WinsFrame(s, Apply(s, a));
    FamiliesFrame(s, Apply(s, a));
  }

  lemma SetFlagKeepsInv(s: State, a: Action)
    requires Inv(s) && a.SetFlag? && Enabled(s, a)
    ensures Inv(Apply(s, a))
  {
    hide *;
    SetFlagGrows(s, a);
    SetFlagPhase(s, a);
    SetFlagMoves(s, a);
    Assemble(s, Apply(s, a), {a.id});
  }

  /** An unused token is its family's newest, and nobody owes that family an heir. */
  lemma UnusedIsTip(s: State, j: Jti)
    requires Inv(s) && Registered(s, j) && !Written(s, j).used
    ensures
      var f := Written(s, j).family;
      && f in s.families && s.families[f].pending == None
      && s.families[f].members != [] && s.families[f].members[|s.families[f].members| - 1] == j
  {
    var f := Written(s, j).family;
    assert ChainOk(s, f);
    var i :| 0 <= i < |s.families[f].members| && s.families[f].members[i] == j;
    assert LinkOk(s, f, i);
  }

  /** Whoever won a token left it used. */
  lemma WonIsUsed(s: State, p: RotationId, j: Jti)
    requires Inv(s) && Won(s, p, j)
    ensures Registered(s, j) && Written(s, j).used
  {
    assert PhaseOk(s, p);
    if s.rotations[p].RegisterHeir? && !Written(s, j).used {
      UnusedIsTip(s, j);
    }
  }

  ghost predicate Swaps(s: State, a: Action) {
    a.CasUsed? && Enabled(s, a)
    && Lookup(s.store, Rt(s.rotations[a.id].claims.jti), a.at) == Some(Meta(s.rotations[a.id].meta))
  }

  lemma LostSwapKeepsInv(s: State, a: Action)
    requires Inv(s) && a.CasUsed? && Enabled(s, a) && !Swaps(s, a)
    ensures Inv(Apply(s, a))
  {
    assert PhaseOk(s, a.id);
    MoveKeepsInv(s, Apply(s, a), a.id);
  }

  lemma SwapGrows(s: State, a: Action)
    requires Inv(s) && Swaps(s, a)
    ensures Grows(s, Apply(s, a)) && Clocked(Apply(s, a))
  {
    var r := s.rotations[a.id];
    UnusedIsTip(s, r.claims.jti);
    hide Grows, KeysOk, WinsOk, ChainsOk, MintedOk, PhaseOk;
    GrowsByWrite(s, Apply(s, a), Rt(r.claims.jti));
  }

  lemma SwapKeys(s: State, a: Action)
    requires Inv(s) && Swaps(s, a)
    ensures KeysOk(Apply(s, a)) && PhaseOk(Apply(s, a), a.id)
  {
    assert PhaseOk(s, a.id);
  }

  /** The token whose used flag is set becomes the used tip of its family. */
  lemma SwapChain(s: State, a: Action)
    requires Inv(s) && Swaps(s, a)
    ensures
      var f := s.rotations[a.id].meta.family;
      f in Apply(s, a).families && ChainOk(Apply(s, a), f) && PendingOk(Apply(s, a), f)
  {
    hide Clocked, KeysOk, WinsOk, MintedOk, Won, IsRefresh, Seen, IsMinted;
    var t := Apply(s, a);
    var r := s.rotations[a.id];
    var f := r.meta.family;
    assert PhaseOk(s, a.id);
    UnusedIsTip(s, r.claims.jti);
    var members := s.families[f].members;
    assert ChainOk(s, f);
    forall i | 0 <= i < |members| ensures LinkOk(t, f, i) {
      assert LinkOk(s, f, i);
    }
  }

  lemma SwapWins(s: State, a: Action)
    requires Inv(s) && Swaps(s, a)
    ensures WinsOk(Apply(s, a))
  {
    var t := Apply(s, a);
    var r := s.rotations[a.id];
    assert PhaseOk(s, a.id);
    forall p, q, j | Won(t, p, j) && Won(t, q, j) ensures p == q {
      if p != a.id { assert Won(s, p, j); WonIsUsed(s, p, j); }
      if q != a.id { assert Won(s, q, j); WonIsUsed(s, q, j); }
    }
  }

  lemma SwapMoves(s: State, a: Action)
    requires Inv(s) && Swaps(s, a)
    ensures ChainsOk(Apply(s, a)) && OthersStay(s, Apply(s, a), {a.id})
    ensures Apply(s, a).minted == s.minted
  {
    hide Clocked, ChainOk, LinkOk, PendingOk, MintedOk, IsRefresh, Seen;
    var t := Apply(s, a);
    var r := s.rotations[a.id];
    assert PhaseOk(s, a.id);
    UnusedIsTip(s, r.claims.jti);
    SwapChain(s, a);
    forall f | f in t.families ensures ChainOk(t, f) && PendingOk(t, f) {
      if f != r.meta.family { FamilyFrame(s, t, f); }
    }
    forall p | p in s.rotations && p != a.id && s.rotations[p].RegisterHeir? ensures s.rotations[p].meta.family != r.meta.family {
      assert PhaseOk(s, p);
    }
  }

  lemma SwapKeepsInv(s: State, a: Action)
    requires Inv(s) && Swaps(s, a)
    ensures Inv(Apply(s, a))
  {
    hide KeysOk, ChainsOk, MintedOk, PhaseOk;
    assert a.CasUsed? && Enabled(s, a);
    hide *;
    SwapGrows(s, a);
    SwapKeys(s, a);
    SwapWins(s, a);
    SwapMoves(s, a);
    Assemble(s, Apply(s, a), {a.id});
  }

  /** The rotation that owes an heir used up the newest token of its family. */
  lemma PendingIsTip(s: State, p: RotationId)
    requires Inv(s) && p in s.rotations && s.rotations[p].RegisterHeir?
    ensures
      var r := s.rotations[p];
      && r.meta.family in s.families
      && var fam := s.families[r.meta.family];
      && fam.pending == Some(p) && fam.members != [] && r.claims.jti == fam.members[|fam.members| - 1]
      && r.claims.sub == fam.user && r.claims.tenant == fam.tenant && r.meta.roles == fam.roles
  {
    var r := s.rotations[p];
    assert PhaseOk(s, p);
    var fam := s.families[r.meta.family];
    assert ChainOk(s, r.meta.family) && PendingOk(s, r.meta.family);
    assert LinkOk(s, r.meta.family, |fam.members| - 1);
    assert MintedOk(s, r.claims.jti);
  }

  lemma HeirGrows(s: State, a: Action)
    requires Inv(s) && a.SetHeir? && Enabled(s, a)
    ensures Grows(s, Apply(s, a)) && Clocked(Apply(s, a))
  {
    PendingIsTip(s, a.id);
    hide Grows, KeysOk, WinsOk, ChainsOk, MintedOk, PhaseOk;
    GrowsByWrite(s, Apply(s, a), Rt(a.jti));
  }

  lemma HeirKeys(s: State, a: Action)
    requires Inv(s) && a.SetHeir? && Enabled(s, a)
    ensures KeysOk(Apply(s, a))
  {
    var t := Apply(s, a);
    PendingIsTip(s, a.id);
    var f := s.rotations[a.id].meta.family;
    assert a.jti in t.families[f].members;
    forall j: Jti | Rt(j) in t.store
      ensures Registered(t, j) && Written(t, j).family in t.families && j in t.families[Written(t, j).family].members
    {
      if j != a.jti {
        assert Registered(s, j) && j in s.families[Written(s, j).family].members;
        assert s.families[Written(s, j).family].members <= t.families[Written(s, j).family].members;
      }
    }
  }

  lemma HeirPhase(s: State, a: Action)
    requires Inv(s) && a.SetHeir? && Enabled(s, a)
    ensures PhaseOk(Apply(s, a), a.id)
  {
    var t := Apply(s, a);
    var r := s.rotations[a.id];
    assert PhaseOk(s, a.id);
    assert Won(s, a.id, r.claims.jti);
    WonIsUsed(s, a.id, r.claims.jti);
    assert Written(t, r.claims.jti) == Written(s, r.claims.jti);
  }

  lemma HeirOldLink(s: State, a: Action, i: nat)
    requires Inv(s) && a.SetHeir? && Enabled(s, a)
    requires var f := s.rotations[a.id].meta.family; f in s.families && i < |s.families[f].members|
    ensures
      var f := s.rotations[a.id].meta.family;
      s.families[f].members[i] != a.jti && LinkOk(Apply(s, a), f, i)
  {
    var f := s.rotations[a.id].meta.family;
    PendingIsTip(s, a.id);
    assert ChainOk(s, f);
    assert LinkOk(s, f, i);
    assert Written(Apply(s, a), s.families[f].members[i]) == Written(s, s.families[f].members[i]);
  }

  lemma HeirNewLink(s: State, a: Action)
    requires Inv(s) && a.SetHeir? && Enabled(s, a)
    ensures
      var f := s.rotations[a.id].meta.family;
      && f in s.families && ChainOk(s, f) && f in Apply(s, a).families
      && Apply(s, a).families[f].members == s.families[f].members + [a.jti]
      && Apply(s, a).families[f].pending == None
      && LinkOk(Apply(s, a), f, |s.families[f].members|)
  {
    PendingIsTip(s, a.id);
  }

  lemma ExtendChain(s: State, t: State, f: FamilyId, j: Jti)
    requires f in s.families && f in t.families && ChainOk(s, f)
    requires j !in s.families[f].members
    requires t.families[f].members == s.families[f].members + [j] && t.families[f].pending == None
    requires forall i :: 0 <= i <= |s.families[f].members| ==> LinkOk(t, f, i)
    ensures ChainOk(t, f) && PendingOk(t, f)
  {
  }

  lemma HeirChain(s: State, a: Action)
    requires Inv(s) && a.SetHeir? && Enabled(s, a)
    ensures
      var f := s.rotations[a.id].meta.family;
      f in Apply(s, a).families && ChainOk(Apply(s, a), f) && PendingOk(Apply(s, a), f)
  {
    var f := s.rotations[a.id].meta.family;
    hide *;
    HeirNewLink(s, a);
    forall i | 0 <= i < |s.families[f].members| ensures s.families[f].members[i] != a.jti && LinkOk(Apply(s, a), f, i) {
      HeirOldLink(s, a, i);
    }
    ExtendChain(s, Apply(s, a), f, a.jti);
  }

  lemma HeirMinted(s: State, a: Action)
    requires Inv(s) && a.SetHeir? && Enabled(s, a)
    ensures MintedOk(Apply(s, a), a.jti) && MintedOk(Apply(s, a), a.accessJti)
  {
    PendingIsTip(s, a.id);
  }

  lemma HeirLeavesOthers(s: State, a: Action, f: FamilyId)
    requires Inv(s) && a.SetHeir? && Enabled(s, a) && f in s.families && f != s.rotations[a.id].meta.family
    ensures ChainOk(Apply(s, a), f) && PendingOk(Apply(s, a), f)
  {
    var t := Apply(s, a);
    forall j: Jti | Registered(s, j) && Written(s, j).family == f
      ensures Registered(t, j) && Written(t, j) == Written(s, j)
    {
      assert j != a.jti;
    }
    FamilyFrame(s, t, f);
  }

  lemma HeirChains(s: State, a: Action)
    requires Inv(s) && a.SetHeir? && Enabled(s, a)
    ensures ChainsOk(Apply(s, a))
  {
    PendingIsTip(s, a.id);
    forall f | f in Apply(s, a).families ensures ChainOk(Apply(s, a), f) && PendingOk(Apply(s, a), f) {
      if f == s.rotations[a.id].meta.family { HeirChain(s, a); } else { HeirLeavesOthers(s, a, f); }
    }
  }

  lemma HeirMoves(s: State, a: Action)
    requires Inv(s) && a.SetHeir? && Enabled(s, a)
    ensures WinsOk(Apply(s, a)) && OthersStay(s, Apply(s, a), {a.id})
    ensures forall j <- Apply(s, a).minted :: j in s.minted || j == a.jti || j == a.accessJti
  {
    hide Clocked, KeysOk, WinsOk, ChainsOk, ChainOk, MintedOk, PhaseOk;
    WinsFrame(s, Apply(s, a));
    PendingIsTip(s, a.id);
    forall p | p in s.rotations && p != a.id && s.rotations[p].RegisterHeir?
      ensures s.rotations[p].meta.family != s.rotations[a.id].meta.family
    {
      PendingIsTip(s, p);
    }
  }

  lemma HeirKeepsInv(s: State, a: Action)
    requires Inv(s) && a.SetHeir? && Enabled(s, a)
    ensures Inv(Apply(s, a))
  {
    hide *;
    HeirGrows(s, a);
    HeirKeys(s, a);
    HeirPhase(s, a);
    HeirMinted(s, a);
    HeirChains(s, a);
    HeirMoves(s, a);
    Assemble(s, Apply(s, a), {a.id});
  }

  /** Every step of every interleaving keeps the invariant. */
  lemma StepKeepsInv(s: State, a: Action)
    requires Inv(s) && Enabled(s, a)
    ensures Inv(Apply(s, a))
  {
    match a
    case Login(_, _, _, _, _, _) => LoginKeepsInv(s, a);
    case Start(_, _, _) => StartKeepsInv(s, a);
    case GetMeta(_, _) => ReadKeepsInv(s, a);
    case GetFlag(_, _) => ReadKeepsInv(s, a);
    case CasUsed(_, _, _) => if Swaps(s, a) { SwapKeepsInv(s, a); } else { LostSwapKeepsInv(s, a); }
    case SetFlag(_, _) => SetFlagKeepsInv(s, a);
    case SetHeir(_, _, _, _) => HeirKeepsInv(s, a);
  }

  /** A step that writes nothing. */
  lemma ReadGrows(s: State, a: Action)
    requires Enabled(s, a) && !a.Login? && !a.SetFlag? && !a.SetHeir? && !Swaps(s, a)
    ensures Grows(s, Apply(s, a))
  {
    hide Decode, AfterGetMeta, AfterGetFlag;
  }

  lemma StepGrows(s: State, a: Action)
    requires Inv(s) && Enabled(s, a)
    ensures Grows(s, Apply(s, a))
  {
    hide *;
    if a.Login? { LoginGrows(s, a); }
    else if a.SetFlag? { SetFlagGrows(s, a); }
    else if a.SetHeir? { HeirGrows(s, a); }
    else if Swaps(s, a) { SwapGrows(s, a); }
    else { ReadGrows(s, a); }
  }

  lemma {:induction false} RunKeepsInv(s: State, acts: seq<Action>)
    requires Inv(s) && CanRun(s, acts)
    ensures Inv(Exec(s, acts))
    decreases |acts|
  {
    if acts != [] {
      StepKeepsInv(s, acts[0]);
      RunKeepsInv(Apply(s, acts[0]), acts[1..]);
    }
  }

  lemma LeadsInv(s: State, t: State)
    requires Inv(s) && Leads(s, t)
    ensures Inv(t)
  {
    var acts :| CanRun(s, acts) && Exec(s, acts) == t;
    RunKeepsInv(s, acts);
  }

  lemma ReachableInv(s: State)
    requires Reachable(s)
    ensures Inv(s)
  {
    LeadsInv(Init(s.ttl), s);
  }
}
