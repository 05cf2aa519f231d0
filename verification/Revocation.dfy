/** How far revoking a family reaches, given that the revocation mark itself lapses. */
module Revocation {
  import opened Time
  import opened Wrappers
  import opened SessionStore
  import opened TokenRotation
  import opened RotationInvariant
  import opened RotationTheorems

  // --- Members registered by the time of the mark ----------------------------------------------

  /** The mark outlives `j` for as long as `j` is unused. */
  ghost predicate Covered(s: State, f: FamilyId, j: Jti) {
    && Registered(s, j) && Written(s, j).family == f && Revoked(f) in s.store
    && (Written(s, j).used || s.store[Rt(j)].expiresAt <= s.store[Revoked(f)].expiresAt)
  }

  /** `j` can never again pass a compare-and-set. */
  ghost predicate Spent(s: State, j: Jti) {
    Registered(s, j) && (Written(s, j).used || s.store[Rt(j)].expiresAt <= s.now)
  }

  ghost predicate BeforeFlagRead(s: State, q: RotationId) {
    q !in s.rotations || s.rotations[q].ReadMeta? || s.rotations[q].ReadFlag?
  }

  /** `q`, if it works on `j` at all, has yet to read the mark, or its token is spent, or it has failed. */
  ghost predicate Beaten(s: State, q: RotationId, j: Jti) {
    || BeforeFlagRead(s, q)
    || TokenOf(s.rotations[q]) != Some(j)
    || (s.rotations[q].Swap? && Spent(s, j))
    || s.rotations[q].MarkFamily?
    || (s.rotations[q].Finished? && s.rotations[q].outcome.Err?)
  }

  lemma FlagCovers(s: State, a: Action, j: Jti)
    requires Inv(s) && a.SetFlag? && Enabled(s, a)
    requires Registered(s, j) && Written(s, j).family == s.rotations[a.id].meta.family
    ensures Covered(Apply(s, a), Written(s, j).family, j)
  {
  }

  lemma CoveredStays(s: State, a: Action, f: FamilyId, j: Jti)
    requires Inv(s) && Enabled(s, a) && Covered(s, f, j)
    ensures Covered(Apply(s, a), f, j)
  {
    hide WinsOk, PhaseOk;
    if a.CasUsed? { assert PhaseOk(s, a.id); }
    StepGrows(s, a);
  }

  lemma SpentStays(s: State, a: Action, j: Jti)
    requires Inv(s) && Enabled(s, a) && Spent(s, j)
    ensures Spent(Apply(s, a), j)
  {
    hide Clocked, KeysOk, ChainsOk, MintedOk, PhaseOk, AfterGetFlag;
    if a.CasUsed? { assert PhaseOk(s, a.id); }
  }

  /** Finding the mark lapsed means finding the token spent. */
  lemma FlagReadBeats(s: State, a: Action, f: FamilyId, j: Jti)
    requires Inv(s) && a.GetFlag? && Enabled(s, a) && Covered(s, f, j)
    ensures Beaten(Apply(s, a), a.id, j)
  {
    assert PhaseOk(s, a.id);
  }

  lemma LostSwapBeats(s: State, a: Action, j: Jti)
    requires Inv(s) && a.CasUsed? && Enabled(s, a) && Beaten(s, a.id, j)
    ensures Beaten(Apply(s, a), a.id, j)
  {
    assert PhaseOk(s, a.id);
  }

  lemma BystanderBeaten(s: State, a: Action, q: RotationId, j: Jti)
    requires Inv(s) && Enabled(s, a) && Beaten(s, q, j) && (a.Login? || a.id != q)
    ensures Beaten(Apply(s, a), q, j)
  {
    hide PhaseOk, Won, AccessClaims;
    if Spent(s, j) { SpentStays(s, a, j); }
    assert q in s.rotations <==> q in Apply(s, a).rotations;
    assert q in s.rotations ==> Apply(s, a).rotations[q] == s.rotations[q];
  }

  lemma BeatenStays(s: State, a: Action, f: FamilyId, q: RotationId, j: Jti)
    requires Inv(s) && Enabled(s, a) && Covered(s, f, j) && Beaten(s, q, j)
    ensures Beaten(Apply(s, a), q, j)
  {
    if a.Login? || a.id != q {
      BystanderBeaten(s, a, q, j);
    } else {
      match a
      case GetFlag(_, _) => FlagReadBeats(s, a, f, j);
      case CasUsed(_, _, _) => LostSwapBeats(s, a, j);
      case _ =>
    }
  }

  lemma {:induction false} BeatenForEver(s: State, acts: seq<Action>, f: FamilyId, q: RotationId, j: Jti)
    requires Inv(s) && CanRun(s, acts) && Covered(s, f, j) && Beaten(s, q, j)
    ensures Beaten(Exec(s, acts), q, j)
    decreases |acts|
  {
    if acts != [] {
      StepKeepsInv(s, acts[0]);
      CoveredStays(s, acts[0], f, j);
      BeatenStays(s, acts[0], f, q, j);
      BeatenForEver(Apply(s, acts[0]), acts[1..], f, q, j);
    }
  }

  /** Once a family's mark is written, no rotation that has yet to read the mark ever succeeds with a token
      registered by then, however long it waits and whether or not the mark has lapsed meanwhile. */
  lemma RevocationCoversMembers(s: State, a: Action, j: Jti, q: RotationId, t: State)
    requires Reachable(s) && a.SetFlag? && Enabled(s, a)
    requires Registered(s, j) && Written(s, j).family == s.rotations[a.id].meta.family
    requires q in s.rotations ==> s.rotations[q].ReadMeta? || s.rotations[q].ReadFlag?
    requires Leads(Apply(s, a), t)
    ensures q in t.rotations && TokenOf(t.rotations[q]) == Some(j) ==>
      !t.rotations[q].RegisterHeir? && (t.rotations[q].Finished? ==> t.rotations[q].outcome.Err?)
  {
    hide KeysOk, ChainsOk, ChainOk, MintedOk, PhaseOk, Won;
    ReachableInv(s);
    StepKeepsInv(s, a);
    FlagCovers(s, a, j);
    var acts :| CanRun(Apply(s, a), acts) && Exec(Apply(s, a), acts) == t;
    BeatenForEver(Apply(s, a), acts, Written(s, j).family, q, j);
  }

  // --- Whole families ------------------------------------------------------------------------

  /** Rotation `p` can still give family `f` an heir: it has read the mark as absent, and has won its
      compare-and-set or could win it now. */
  ghost predicate CanStillWin(s: State, p: RotationId, f: FamilyId) {
    && p in s.rotations
    && var r := s.rotations[p];
    || (r.RegisterHeir? && r.meta.family == f)
    || (r.Swap? && r.meta.family == f && Lookup(s.store, Rt(r.claims.jti), s.now) == Some(Meta(r.meta)))
  }

  ghost predicate InFlight(s: State, f: FamilyId) {
    exists p :: CanStillWin(s, p, f)
  }

  /** Nothing will ever come of family `f` again. */
  ghost predicate Dead(s: State, f: FamilyId) {
    && Revoked(f) in s.store
    && (forall j: Jti :: Registered(s, j) && Written(s, j).family == f ==> Covered(s, f, j))
    && (forall p <- s.rotations :: HarmlessTo(s, p, f))
  }

  ghost predicate HarmlessTo(s: State, p: RotationId, f: FamilyId)
    requires p in s.rotations
  {
    var r := s.rotations[p];
    && !(r.RegisterHeir? && r.meta.family == f)
    && (r.Swap? && r.meta.family == f ==> Spent(s, r.claims.jti))
  }

  /** Rotation `q` ended well in family `f`. */
  ghost predicate Renewed(s: State, q: RotationId, f: FamilyId) {
    && q in s.rotations && s.rotations[q].Finished? && s.rotations[q].outcome.Ok?
    && s.rotations[q].seen.Some? && s.rotations[q].seen.value.family == f
  }

  /** Right after the mark is written, the family is dead unless a rotation is in flight. */
  lemma MarkKillsUnlessInFlight(s: State, a: Action)
    requires Inv(s) && a.SetFlag? && Enabled(s, a)
    ensures
      var f := s.rotations[a.id].meta.family;
      Dead(Apply(s, a), f) <==> !InFlight(Apply(s, a), f)
  {
    hide IsRefresh;
    var f := s.rotations[a.id].meta.family;
    var t := Apply(s, a);
    StepKeepsInv(s, a);
    forall j: Jti | Registered(t, j) && Written(t, j).family == f ensures Covered(t, f, j) {
      assert Registered(s, j) && Written(t, j) == Written(s, j);
      FlagCovers(s, a, j);
    }
    forall p | p in t.rotations ensures HarmlessTo(t, p, f) <==> !CanStillWin(t, p, f) {
      assert PhaseOk(t, p);
    }
  }

  lemma DeadHarmless(s: State, a: Action, f: FamilyId, p: RotationId)
    requires Inv(s) && Enabled(s, a) && Dead(s, f) && p in Apply(s, a).rotations
    ensures HarmlessTo(Apply(s, a), p, f)
  {
    hide KeysOk, ChainsOk, ChainOk, MintedOk, IsRefresh, Decode;
    if a.Login? || a.id != p {
      assert HarmlessTo(s, p, f);
      if s.rotations[p].Swap? && s.rotations[p].meta.family == f { SpentStays(s, a, s.rotations[p].claims.jti); }
    } else if !a.Start? {
      assert PhaseOk(s, p) && HarmlessTo(s, p, f);
      if a.GetFlag? && s.rotations[p].meta.family == f {
        assert Covered(s, f, s.rotations[p].claims.jti);
      }
    }
  }

  lemma DeadGainsNothing(s: State, a: Action, f: FamilyId, j: Jti)
    requires Inv(s) && Enabled(s, a) && Dead(s, f) && Registered(Apply(s, a), j) && Written(Apply(s, a), j).family == f
    ensures Registered(s, j)
  {
    hide Clocked, WinsOk, SameLogin;
    if a.Login? {
      assert f in s.families;
    } else if a.SetHeir? {
      assert HarmlessTo(s, a.id, f);
    }
  }

  lemma DeadCovers(s: State, a: Action, f: FamilyId, j: Jti)
    requires Inv(s) && Enabled(s, a) && Dead(s, f) && Registered(Apply(s, a), j) && Written(Apply(s, a), j).family == f
    ensures Covered(Apply(s, a), f, j)
  {
    DeadGainsNothing(s, a, f, j);
    hide Inv, Enabled, Apply;
    StepGrows(s, a);
    assert Covered(s, f, j);
    CoveredStays(s, a, f, j);
  }

  lemma DeadStays(s: State, a: Action, f: FamilyId)
    requires Inv(s) && Enabled(s, a) && Dead(s, f)
    ensures Dead(Apply(s, a), f)
  {
    StepGrows(s, a);
    forall p | p in Apply(s, a).rotations ensures HarmlessTo(Apply(s, a), p, f) { DeadHarmless(s, a, f, p); }
    forall j: Jti | Registered(Apply(s, a), j) && Written(Apply(s, a), j).family == f ensures Covered(Apply(s, a), f, j) {
      DeadCovers(s, a, f, j);
    }
  }

  /** A step after the death of `f` registers nothing in it and renews nothing. */
  lemma DeadYieldsNothing(s: State, a: Action, f: FamilyId)
    requires Inv(s) && Enabled(s, a) && Dead(s, f)
    ensures f in s.families && f in Apply(s, a).families && Apply(s, a).families[f].members == s.families[f].members
    ensures forall q :: Renewed(Apply(s, a), q, f) ==> Renewed(s, q, f)
  {
    hide Clocked, ChainsOk, MintedOk, PhaseOk;
    assert f in s.families;
    if a.SetHeir? { assert HarmlessTo(s, a.id, f); }
  }

  lemma {:induction false} DeadForEver(s: State, acts: seq<Action>, f: FamilyId)
    requires Inv(s) && CanRun(s, acts) && Dead(s, f)
    ensures f in s.families && f in Exec(s, acts).families && Exec(s, acts).families[f].members == s.families[f].members
    ensures forall q :: Renewed(Exec(s, acts), q, f) ==> Renewed(s, q, f)
    decreases |acts|
  {
    if acts == [] {
      assert f in s.families;
    } else {
      StepKeepsInv(s, acts[0]);
      DeadStays(s, acts[0], f);
      DeadYieldsNothing(s, acts[0], f);
      DeadForEver(Apply(s, acts[0]), acts[1..], f);
    }
  }

  // --- What a rotation in flight can still do --------------------------------------------------

  lemma Unused(ids: set<nat>) returns (n: nat)
    ensures forall i <- ids :: i < n
  {
    n := 0;
    var rest := ids;
    while rest != {}
      invariant rest <= ids && forall i <- ids :: i in rest || i < n
      decreases rest
    {
      var i :| i in rest;
      n := if i < n then n else i + 1;
      rest := rest - {i};
    }
  }

  /** Identifiers never run out. */
  lemma FreshIds(s: State) returns (j: Jti, q: RotationId)
    ensures Fresh(s, j) && Fresh(s, j + 1) && q !in s.rotations
  {
    j := Unused(s.minted.Keys + set k <- s.store.Keys | k.Rt? :: k.jti);
    q := Unused(s.rotations.Keys);
    assert forall i: Jti :: Rt(i) in s.store ==> Rt(i) in s.store.Keys;
  }

  /** A rotation that nobody disturbs gets as far as its compare-and-set. */
  lemma LoneRotationReads(s: State, q: RotationId, c: Claims, at: Instant) returns (t: State)
    requires Inv(s) && q !in s.rotations && IsRefresh(s, c) && s.now <= at
    requires !Written(s, c.jti).used && at < s.store[Rt(c.jti)].expiresAt
    requires Lookup(s.store, Revoked(Written(s, c.jti).family), at) == None
    ensures Leads(s, t) && t == s.(now := at, rotations := s.rotations[q := Swap(c, Written(s, c.jti))])
  {
    var m := Written(s, c.jti);
    LoneStart(s, q, c);
    var s1 := Apply(s, Start(q, Signed(c), false));
    LoneGetMeta(s1, q, c, at);
    var s2 := Apply(s1, GetMeta(q, at));
    LoneGetFlag(s2, q, c, m, at);
    Overwrite(s.rotations, q, ReadMeta(c), ReadFlag(c, m));
    Overwrite(s.rotations, q, ReadFlag(c, m), Swap(c, m));
    hide *;
    LeadsNowhere(s);
    LeadsStep(s, s, Start(q, Signed(c), false));
    LeadsStep(s, s1, GetMeta(q, at));
    t := Apply(s2, GetFlag(q, at));
    LeadsStep(s, s2, GetFlag(q, at));
  }

  lemma Overwrite<K, V>(m: map<K, V>, k: K, u: V, v: V)
    ensures m[k := u][k := v] == m[k := v]
  {
  }

  lemma LoneStart(s: State, q: RotationId, c: Claims)
    requires q !in s.rotations && IsRefresh(s, c)
    ensures Enabled(s, Start(q, Signed(c), false))
    ensures Apply(s, Start(q, Signed(c), false)) == s.(rotations := s.rotations[q := ReadMeta(c)])
  {
  }

  lemma LoneGetMeta(s: State, q: RotationId, c: Claims, at: Instant)
    requires q in s.rotations && s.rotations[q] == ReadMeta(c) && s.now <= at
    requires Registered(s, c.jti) && at < s.store[Rt(c.jti)].expiresAt
    ensures Enabled(s, GetMeta(q, at))
    ensures Apply(s, GetMeta(q, at)) == s.(now := at, rotations := s.rotations[q := ReadFlag(c, Written(s, c.jti))])
  {
  }

  lemma LoneGetFlag(s: State, q: RotationId, c: Claims, m: Metadata, at: Instant)
    requires q in s.rotations && s.rotations[q] == ReadFlag(c, m) && s.now <= at && !m.used
    requires Lookup(s.store, Revoked(m.family), at) == None
    ensures Enabled(s, GetFlag(q, at))
    ensures Apply(s, GetFlag(q, at)) == s.(now := at, rotations := s.rotations[q := Swap(c, m)])
  {
  }

  /** A rotation that nobody disturbs, of a live unused token in a family whose mark is absent, succeeds. */
  lemma LoneRotationSucceeds(s: State, q: RotationId, c: Claims, at: Instant) returns (t: State)
    requires Inv(s) && q !in s.rotations && IsRefresh(s, c) && s.now <= at
    requires !Written(s, c.jti).used && at < s.store[Rt(c.jti)].expiresAt
    requires Lookup(s.store, Revoked(Written(s, c.jti).family), at) == None
    ensures Leads(s, t) && Renewed(t, q, Written(s, c.jti).family)
  {
    var m := Written(s, c.jti);
    var s3 := LoneRotationReads(s, q, c, at);
    var s4 := LoneSwap(s3, q, c, m, at);
    var j, _ := FreshIds(s4);
    LoneHeir(s4, q, c, m, j, at);
    hide *;
    LeadsStep(s, s3, CasUsed(q, at, at));
    t := Apply(s4, SetHeir(q, j, j + 1, at));
    LeadsStep(s, s4, SetHeir(q, j, j + 1, at));
  }

  lemma LoneSwap(s: State, q: RotationId, c: Claims, m: Metadata, at: Instant) returns (t: State)
    requires q in s.rotations && s.rotations[q] == Swap(c, m) && s.now == at
    requires Lookup(s.store, Rt(c.jti), at) == Some(Meta(m))
    ensures Enabled(s, CasUsed(q, at, at)) && t == Apply(s, CasUsed(q, at, at))
    ensures q in t.rotations && t.rotations[q] == RegisterHeir(c, m) && t.now == at
  {
    t := Apply(s, CasUsed(q, at, at));
  }

  lemma LoneHeir(s: State, q: RotationId, c: Claims, m: Metadata, j: Jti, at: Instant)
    requires q in s.rotations && s.rotations[q] == RegisterHeir(c, m) && s.now == at && Fresh(s, j) && Fresh(s, j + 1)
    ensures Enabled(s, SetHeir(q, j, j + 1, at)) && Renewed(Apply(s, SetHeir(q, j, j + 1, at)), q, m.family)
  {
  }

  /** A rotation that still owes its heir registers one that outlives the mark, and that heir can be rotated. */
  lemma OwedHeirOutlivesMark(s: State, p: RotationId, f: FamilyId) returns (t: State, q: RotationId)
    requires Inv(s) && s.ttl > 0 && p in s.rotations && s.rotations[p].RegisterHeir? && s.rotations[p].meta.family == f
    ensures Leads(s, t) && q !in s.rotations && Renewed(t, q, f)
  {
    var r := s.rotations[p];
    var j, q' := FreshIds(s);
    q := q';
    var a := SetHeir(p, j, j + 1, s.now + 1);
    var s1 := Apply(s, a);
    LeadsNowhere(s);
    LeadsStep(s, s, a);
    StepKeepsInv(s, a);
    assert IsRefresh(s1, HeirClaims(r.claims, j)) && Written(s1, j).family == f && !Written(s1, j).used;
    assert Revoked(f) in s1.store ==> s1.store[Revoked(f)].expiresAt <= s.now + s.ttl;
    t := LoneRotationSucceeds(s1, q, HeirClaims(r.claims, j), s.now + s.ttl);
    LeadsOn(s, s1, t);
  }

  lemma InFlightOutlivesMark(s: State, p: RotationId, f: FamilyId) returns (t: State, q: RotationId)
    requires Inv(s) && s.ttl > 0 && CanStillWin(s, p, f)
    ensures Leads(s, t) && q !in s.rotations && Renewed(t, q, f)
  {
    if s.rotations[p].RegisterHeir? {
      t, q := OwedHeirOutlivesMark(s, p, f);
    } else {
      var a := CasUsed(p, s.now, s.now);
      LeadsNowhere(s);
      LeadsStep(s, s, a);
      StepKeepsInv(s, a);
      t, q := OwedHeirOutlivesMark(Apply(s, a), p, f);
      LeadsOn(s, Apply(s, a), t);
    }
  }

  ghost predicate EverRenewed(s: State, f: FamilyId) {
    exists t, q :: Leads(s, t) && q !in s.rotations && Renewed(t, q, f)
  }

  /** A revocation is final exactly when, at the moment the mark is written, no rotation of the family is in
      flight: otherwise, and only then, some rotation begun afterwards can still succeed. */
  lemma RevocationFinalIff(s: State, a: Action)
    requires Reachable(s) && s.ttl > 0 && a.SetFlag? && Enabled(s, a)
    ensures
      var f := s.rotations[a.id].meta.family;
      EverRenewed(Apply(s, a), f) <==> InFlight(Apply(s, a), f)
  {
    var f := s.rotations[a.id].meta.family;
    var s' := Apply(s, a);
    ReachableInv(s);
    StepKeepsInv(s, a);
    MarkKillsUnlessInFlight(s, a);
    if InFlight(s', f) {
      var p :| CanStillWin(s', p, f);
      var t, q := InFlightOutlivesMark(s', p, f);
    } else {
      forall t, q | Leads(s', t) && q !in s'.rotations ensures !Renewed(t, q, f) {
        var acts :| CanRun(s', acts) && Exec(s', acts) == t;
        DeadForEver(s', acts, f);
      }
    }
  }

  lemma AloneNothingInFlight(s: State, a: Action)
    requires Inv(s) && a.SetFlag? && Enabled(s, a)
    requires forall p <- s.rotations :: p == a.id || s.rotations[p].Finished?
    ensures !InFlight(Apply(s, a), s.rotations[a.id].meta.family)
  {
  }

  /** When rotations do not overlap, the mark ends the whole family for ever: no later rotation succeeds in
      it and it never gets another member. */
  lemma RevocationIsForEver(s: State, a: Action, t: State)
    requires Reachable(s) && a.SetFlag? && Enabled(s, a)
    requires forall p <- s.rotations :: p == a.id || s.rotations[p].Finished?
    requires Leads(Apply(s, a), t)
    ensures
      var f := s.rotations[a.id].meta.family;
      && f in s.families && f in t.families && t.families[f].members == s.families[f].members
      && forall q :: Renewed(t, q, f) ==> Renewed(s, q, f)
  {
    var f := s.rotations[a.id].meta.family;
    var s' := Apply(s, a);
    assert s'.families == s.families && forall q :: Renewed(s', q, f) ==> Renewed(s, q, f);
    ReachableInv(s);
    var acts :| CanRun(s', acts) && Exec(s', acts) == t;
    AloneNothingInFlight(s, a);
    hide *;
    StepKeepsInv(s, a);
    MarkKillsUnlessInFlight(s, a);
    DeadForEver(s', acts, f);
  }

  // --- The gap is real -----------------------------------------------------------------------

  lemma ReachableStep(s: State, a: Action)
    requires Reachable(s) && Enabled(s, a)
    ensures Reachable(Apply(s, a))
  {
    LeadsStep(Init(s.ttl), s, a);
  }

  lemma RacersStart(ttl: nat, c: Claims, m: Metadata) returns (s: State)
    requires c == Claims(Refresh, "user", "tenant", 0, []) && m == Metadata(None, "user", "tenant", false, 0, [])
    ensures Reachable(s) && s.ttl == ttl && s.now == 0
    ensures s.rotations == map[1 := ReadMeta(c), 2 := ReadMeta(c)] && s.store == map[Rt(0) := Entry(Meta(m), ttl)]
  {
    LeadsNowhere(Init(ttl));
    var s0 := Apply(Init(ttl), Login("user", "tenant", [], 0, 0, 0));
    ReachableStep(Init(ttl), Login("user", "tenant", [], 0, 0, 0));
    var s1 := Apply(s0, Start(1, Signed(c), false));
    ReachableStep(s0, Start(1, Signed(c), false));
    s := Apply(s1, Start(2, Signed(c), false));
    ReachableStep(s1, Start(2, Signed(c), false));
    assert s.rotations == map[1 := ReadMeta(c), 2 := ReadMeta(c)];
  }

  lemma RacersReadMeta(s2: State, c: Claims, m: Metadata) returns (s: State)
    requires Reachable(s2) && s2.now == 0 && s2.ttl > 0 && c.jti == 0
    requires s2.rotations == map[1 := ReadMeta(c), 2 := ReadMeta(c)]
    requires s2.store == map[Rt(0) := Entry(Meta(m), s2.ttl)]
    ensures Reachable(s) && s == s2.(rotations := map[1 := ReadFlag(c, m), 2 := ReadFlag(c, m)])
  {
    var s3 := Apply(s2, GetMeta(1, 0));
    ReachableStep(s2, GetMeta(1, 0));
    s := Apply(s3, GetMeta(2, 0));
    ReachableStep(s3, GetMeta(2, 0));
    assert s.rotations == map[1 := ReadFlag(c, m), 2 := ReadFlag(c, m)];
  }

  lemma RacersReadFlag(s4: State, c: Claims, m: Metadata) returns (s: State)
    requires Reachable(s4) && s4.now == 0 && m.family == 0 && !m.used
    requires s4.rotations == map[1 := ReadFlag(c, m), 2 := ReadFlag(c, m)]
    requires Revoked(0) !in s4.store
    ensures Reachable(s) && s == s4.(rotations := map[1 := Swap(c, m), 2 := Swap(c, m)])
  {
    var s5 := Apply(s4, GetFlag(1, 0));
    ReachableStep(s4, GetFlag(1, 0));
    s := Apply(s5, GetFlag(2, 0));
    ReachableStep(s5, GetFlag(2, 0));
    assert s.rotations == map[1 := Swap(c, m), 2 := Swap(c, m)];
  }

  /** Two rotations of the first token of a login: one has won its compare-and-set, the other lost and is
      about to write the mark. */
  lemma TwoRotationsRace(ttl: nat) returns (s: State, c: Claims, m: Metadata)
    requires ttl > 0
    ensures Reachable(s) && s.ttl == ttl && s.now == 0
    ensures s.rotations == map[1 := RegisterHeir(c, m), 2 := MarkFamily(c, m)] && m.family == 0
  {
    c := Claims(Refresh, "user", "tenant", 0, []);
    m := Metadata(None, "user", "tenant", false, 0, []);
    s := RacersStart(ttl, c, m);
    s := RacersReadMeta(s, c, m);
    s := RacersReadFlag(s, c, m);
    s := RacersSwap(s, c, m);
  }

  lemma RacersSwap(s5: State, c: Claims, m: Metadata) returns (s: State)
    requires Reachable(s5) && s5.now == 0 && s5.ttl > 0 && c.jti == 0 && m.family == 0 && !m.used
    requires s5.rotations == map[1 := Swap(c, m), 2 := Swap(c, m)] && s5.store == map[Rt(0) := Entry(Meta(m), s5.ttl)]
    ensures Reachable(s) && s.ttl == s5.ttl && s.now == 0 && s.rotations == map[1 := RegisterHeir(c, m), 2 := MarkFamily(c, m)]
  {
    var s6 := Apply(s5, CasUsed(1, 0, 0));
    ReachableStep(s5, CasUsed(1, 0, 0));
    ReachableStep(s6, CasUsed(2, 0, 0));
    s := Apply(s6, CasUsed(2, 0, 0));
  }

  /** A reachable revocation that is not final: one rotation wins its compare-and-set, another of the same
      token loses and writes the mark, and later a third one, begun after the mark, succeeds. */
  lemma RevocationCanBeOutlived(ttl: nat) returns (s: State, a: Action)
    requires ttl > 0
    ensures Reachable(s) && a.SetFlag? && Enabled(s, a)
    ensures EverRenewed(Apply(s, a), s.rotations[a.id].meta.family)
  {
    var c, m;
    s, c, m := TwoRotationsRace(ttl);
    a := SetFlag(2, 0);
    assert CanStillWin(Apply(s, a), 1, 0);
    RevocationFinalIff(s, a);
  }
}
