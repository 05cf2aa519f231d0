/** Why families get revoked: what makes a rotation report a replay, and how far that report can be wrong. */
module Alarms {
  import opened Wrappers
  import opened TokenRotation
  import opened RotationInvariant
  import opened RotationTheorems
  import Revocation

  /** The token was really reused: another rotation has used it up. */
  ghost predicate UsedUpByAnother(s: State, p: RotationId, j: Jti) {
    exists q :: q != p && Won(s, q, j)
  }

  /** The token lapsed before anybody used it. */
  ghost predicate Lapsed(s: State, j: Jti) {
    Registered(s, j) && !Written(s, j).used && s.store[Rt(j)].expiresAt <= s.now
  }

  /** Rotation `p` has taken its token for a replayed one. */
  ghost predicate Alarmed(s: State, p: RotationId) {
    && p in s.rotations
    && var r := s.rotations[p];
    || r.MarkFamily?
    || (r.Finished? && r.jti.Some? && r.seen.Some? && r.outcome == Err(ReplayAttackDetected))
  }

  ghost predicate Justified(s: State, p: RotationId)
    requires Alarmed(s, p)
  {
    var j := TokenOf(s.rotations[p]).value;
    UsedUpByAnother(s, p, j) || Lapsed(s, j)
  }

  ghost predicate WinnersKnown(s: State) {
    forall j: Jti :: Registered(s, j) && Written(s, j).used ==> HasWinner(s, j)
  }

  ghost predicate HasWinner(s: State, j: Jti) {
    exists q :: Won(s, q, j)
  }

  ghost predicate AlarmsJustified(s: State) {
    forall p :: Alarmed(s, p) ==> Justified(s, p)
  }

  /** The token had lapsed unused by the time the mark of family `f` was written. */
  ghost predicate LapsedByMark(s: State, f: FamilyId, j: Jti) {
    Lapsed(s, j) && Revoked(f) in s.store && s.store[Rt(j)].expiresAt + s.ttl <= s.store[Revoked(f)].expiresAt
  }

  /** The mark of family `f` was written by a rotation that had taken its token for a replayed one, with reason. */
  ghost predicate MarkedBy(s: State, f: FamilyId, p: RotationId) {
    && Alarmed(s, p) && s.rotations[p].Finished? && s.rotations[p].seen.value.family == f
    && var j := TokenOf(s.rotations[p]).value;
    && (UsedUpByAnother(s, p, j) || LapsedByMark(s, f, j))
  }

  ghost predicate MarksTraced(s: State) {
    forall f: FamilyId :: Revoked(f) in s.store ==> exists p :: MarkedBy(s, f, p)
  }

  lemma WonStays(s: State, a: Action, q: RotationId, j: Jti)
    requires Enabled(s, a) && Won(s, q, j)
    ensures Won(Apply(s, a), q, j)
  {
  }

  lemma LapsedStays(s: State, a: Action, j: Jti)
    requires Inv(s) && Enabled(s, a) && Lapsed(s, j)
    ensures Lapsed(Apply(s, a), j) && Apply(s, a).store[Rt(j)] == s.store[Rt(j)]
  {
    hide Clocked, KeysOk, ChainsOk, MintedOk, PhaseOk, History;
    if a.CasUsed? { assert PhaseOk(s, a.id); }
  }

  lemma AlarmStays(s: State, a: Action, p: RotationId)
    requires Enabled(s, a) && Alarmed(s, p)
    ensures Alarmed(Apply(s, a), p) && TokenOf(Apply(s, a).rotations[p]) == TokenOf(s.rotations[p])
  {
  }

  lemma JustifiedStays(s: State, a: Action, p: RotationId)
    requires Inv(s) && Enabled(s, a) && Alarmed(s, p) && Justified(s, p)
    ensures Alarmed(Apply(s, a), p) && Justified(Apply(s, a), p)
  {
    var j := TokenOf(s.rotations[p]).value;
    hide Inv, Enabled, Apply, Won, Lapsed, TokenOf;
    AlarmStays(s, a, p);
    if Lapsed(s, j) {
      LapsedStays(s, a, j);
    } else {
      var q :| q != p && Won(s, q, j);
      WonStays(s, a, q, j);
    }
  }

  /** A compare-and-set is lost if and only if another rotation has used the token up, or the token has lapsed
      since its metadata was read. */
  lemma SwapIsLostIff(s: State, a: Action)
    requires Inv(s) && WinnersKnown(s) && a.CasUsed? && Enabled(s, a)
    ensures
      var j := s.rotations[a.id].claims.jti;
      Alarmed(Apply(s, a), a.id) <==> UsedUpByAnother(s, a.id, j) || s.store[Rt(j)].expiresAt <= a.at
  {
    var j := s.rotations[a.id].claims.jti;
    assert PhaseOk(s, a.id);
    if Written(s, j).used {
      assert HasWinner(s, j);
    } else {
      forall q | Won(s, q, j) ensures false { WonIsUsed(s, q, j); }
    }
  }

  /** An alarm that a step raises is justified. */
  lemma NewAlarmJustified(s: State, a: Action, p: RotationId)
    requires Inv(s) && WinnersKnown(s) && Enabled(s, a) && !Alarmed(s, p) && Alarmed(Apply(s, a), p)
    ensures Justified(Apply(s, a), p)
  {
    assert !a.Login? && a.id == p;
    if a.CasUsed? {
      LostSwapJustified(s, a);
    } else {
      FlagReadJustified(s, a);
    }
  }

  lemma LostSwapJustified(s: State, a: Action)
    requires Inv(s) && a.CasUsed? && Enabled(s, a) && Alarmed(Apply(s, a), a.id)
    requires WinnersKnown(s)
    ensures Justified(Apply(s, a), a.id)
  {
    var j := s.rotations[a.id].claims.jti;
    assert PhaseOk(s, a.id);
    if Written(s, j).used {
      assert HasWinner(s, j);
      var q :| Won(s, q, j);
      WonStays(s, a, q, j);
    }
  }

  lemma FlagReadJustified(s: State, a: Action)
    requires Inv(s) && WinnersKnown(s) && a.GetFlag? && Enabled(s, a) && Alarmed(Apply(s, a), a.id)
    ensures Justified(Apply(s, a), a.id)
  {
    var j := s.rotations[a.id].claims.jti;
    assert PhaseOk(s, a.id);
    assert HasWinner(s, j);
    var q :| Won(s, q, j);
    WonStays(s, a, q, j);
  }

  lemma StepKeepsWinners(s: State, a: Action, j: Jti)
    requires Inv(s) && WinnersKnown(s) && Enabled(s, a)
    requires Registered(Apply(s, a), j) && Written(Apply(s, a), j).used
    ensures HasWinner(Apply(s, a), j)
  {
    if Registered(s, j) && Written(s, j).used {
      assert HasWinner(s, j);
      var q :| Won(s, q, j);
      WonStays(s, a, q, j);
    } else {
      assert Won(Apply(s, a), a.id, j);
    }
  }

  lemma NewMark(s: State, a: Action)
    requires Inv(s) && AlarmsJustified(s) && a.SetFlag? && Enabled(s, a)
    ensures MarkedBy(Apply(s, a), s.rotations[a.id].meta.family, a.id)
  {
    var j := s.rotations[a.id].claims.jti;
    assert PhaseOk(s, a.id);
    if Lapsed(s, j) {
      LapsedStays(s, a, j);
    } else {
      assert Justified(s, a.id);
      var q :| q != a.id && Won(s, q, j);
      WonStays(s, a, q, j);
    }
  }

  lemma OldMarkStays(s: State, a: Action, f: FamilyId, p: RotationId)
    requires Inv(s) && Enabled(s, a) && MarkedBy(s, f, p) && Revoked(f) in s.store
    requires !(a.SetFlag? && s.rotations[a.id].meta.family == f)
    ensures MarkedBy(Apply(s, a), f, p)
  {
    var j := TokenOf(s.rotations[p]).value;
    hide Inv, Enabled, Apply, Won, Lapsed, TokenOf, Registered, Written;
    AlarmStays(s, a, p);
    MarkStays(s, a, f, p);
    if UsedUpByAnother(s, p, j) {
      var q :| q != p && Won(s, q, j);
      WonStays(s, a, q, j);
    } else {
      LapsedStays(s, a, j);
    }
  }

  lemma MarkStays(s: State, a: Action, f: FamilyId, p: RotationId)
    requires Enabled(s, a) && Revoked(f) in s.store && !(a.SetFlag? && s.rotations[a.id].meta.family == f)
    requires Alarmed(s, p) && s.rotations[p].Finished?
    ensures Apply(s, a).ttl == s.ttl && Apply(s, a).store.Keys >= s.store.Keys
    ensures Apply(s, a).store[Revoked(f)] == s.store[Revoked(f)] && Apply(s, a).rotations[p] == s.rotations[p]
  {
  }

  lemma StepKeepsTraces(s: State, a: Action, f: FamilyId)
    requires Inv(s) && AlarmsJustified(s) && MarksTraced(s) && Enabled(s, a) && Revoked(f) in Apply(s, a).store
    ensures exists p :: MarkedBy(Apply(s, a), f, p)
  {
    if a.SetFlag? && s.rotations[a.id].meta.family == f {
      NewMark(s, a);
    } else {
      var p :| MarkedBy(s, f, p);
      OldMarkStays(s, a, f, p);
    }
  }

  ghost predicate Known(s: State) {
    WinnersKnown(s) && AlarmsJustified(s) && MarksTraced(s)
  }

  lemma StepKeepsKnown(s: State, a: Action)
    requires Inv(s) && Known(s) && Enabled(s, a)
    ensures Known(Apply(s, a))
  {
    var t := Apply(s, a);
    hide Inv, Enabled, Apply, Alarmed, Justified, HasWinner, Registered, Written, MarkedBy;
    forall j: Jti | Registered(t, j) && Written(t, j).used ensures HasWinner(t, j) { StepKeepsWinners(s, a, j); }
    forall f: FamilyId | Revoked(f) in t.store ensures exists p :: MarkedBy(t, f, p) { StepKeepsTraces(s, a, f); }
    forall p | Alarmed(t, p) ensures Justified(t, p) {
      if Alarmed(s, p) { JustifiedStays(s, a, p); } else { NewAlarmJustified(s, a, p); }
    }
  }

  lemma {:induction false} RunKeepsKnown(s: State, acts: seq<Action>)
    requires Inv(s) && Known(s) && CanRun(s, acts)
    ensures Known(Exec(s, acts))
    decreases |acts|
  {
    if acts != [] {
      StepKeepsInv(s, acts[0]);
      StepKeepsKnown(s, acts[0]);
      RunKeepsKnown(Apply(s, acts[0]), acts[1..]);
    }
  }

  lemma ReachableKnown(s: State)
    requires Reachable(s)
    ensures Inv(s) && Known(s)
  {
    ReachableInv(s);
    var acts :| CanRun(Init(s.ttl), acts) && Exec(Init(s.ttl), acts) == s;
    InitInv(s.ttl);
    RunKeepsKnown(Init(s.ttl), acts);
  }

  /** No family is revoked without a cause: some rotation of one of its tokens reported a replay, and either
      another rotation had used that token up, or the token, alive when its metadata was read, had lapsed unused by
      the time the mark was written. */
  lemma RevokedForACause(s: State, f: FamilyId) returns (p: RotationId)
    requires Reachable(s) && Revoked(f) in s.store
    ensures p in s.rotations && s.rotations[p].Finished? && s.rotations[p].outcome == Err(ReplayAttackDetected)
    ensures s.rotations[p].seen.Some? && s.rotations[p].seen.value.family == f && s.rotations[p].jti.Some?
    ensures var j := s.rotations[p].jti.value; UsedUpByAnother(s, p, j) || LapsedByMark(s, f, j)
  {
    ReachableKnown(s);
    p :| MarkedBy(s, f, p);
  }

  // --- The false alarm ------------------------------------------------------------------------

  /** A lone rotation of a token that nobody else ever touched reports a replay and revokes the family: the
      token lapses between the read of its metadata and the compare-and-set. */
  lemma LapseRaisesAlarm(ttl: nat) returns (s: State)
    requires ttl > 0
    ensures Reachable(s) && s.ttl == ttl && s.rotations.Keys == {1}
    ensures s.rotations[1].Finished? && s.rotations[1].outcome == Err(ReplayAttackDetected) && Revoked(0) in s.store
  {
    var c := Claims(Refresh, "user", "tenant", 0, []);
    var m := Metadata(None, "user", "tenant", false, 0, []);
    var s0 := Apply(Init(ttl), TokenRotation.Login("user", "tenant", [], 0, 0, 0));
    LeadsNowhere(Init(ttl));
    Revocation.ReachableStep(Init(ttl), TokenRotation.Login("user", "tenant", [], 0, 0, 0));
    ReachableInv(s0);
    var s1 := Revocation.LoneRotationReads(s0, 1, c, 0);
    LeadsOn(Init(ttl), s0, s1);
    var s2 := Apply(s1, CasUsed(1, ttl, ttl));
    Revocation.ReachableStep(s1, CasUsed(1, ttl, ttl));
    Revocation.ReachableStep(s2, SetFlag(1, ttl));
    s := Apply(s2, SetFlag(1, ttl));
  }

  /** The unused token of family `f` has lapsed. */
  ghost predicate IsOver(s: State, f: FamilyId, j: Jti) {
    Lapsed(s, j) && Written(s, j).family == f
  }

  lemma OverStays(s: State, a: Action, f: FamilyId, j: Jti)
    requires Inv(s) && Enabled(s, a) && IsOver(s, f, j)
    ensures IsOver(Apply(s, a), f, j)
  {
    LapsedStays(s, a, j);
    StepGrows(s, a);
  }

  /** A step after that registers nothing in `f` and renews nothing. */
  lemma OverYieldsNothing(s: State, a: Action, f: FamilyId, j: Jti)
    requires Inv(s) && Enabled(s, a) && IsOver(s, f, j)
    ensures f in s.families && f in Apply(s, a).families && Apply(s, a).families[f].members == s.families[f].members
    ensures forall q :: Revocation.Renewed(Apply(s, a), q, f) ==> Revocation.Renewed(s, q, f)
  {
    hide Clocked, KeysOk, ChainsOk, IsRefresh, Seen;
    UnusedIsTip(s, j);
    if a.SetHeir? { assert PhaseOk(s, a.id); }
  }

  /** The false alarm does no harm: once the unused token of a family has lapsed, the family gets no other member
      and no rotation succeeds in it, marked or not. */
  lemma {:induction false} LapsedFamilyIsOver(s: State, acts: seq<Action>, f: FamilyId, j: Jti)
    requires Inv(s) && CanRun(s, acts) && IsOver(s, f, j)
    ensures f in s.families && f in Exec(s, acts).families && Exec(s, acts).families[f].members == s.families[f].members
    ensures forall q :: Revocation.Renewed(Exec(s, acts), q, f) ==> Revocation.Renewed(s, q, f)
    decreases |acts|
  {
    if acts == [] {
      UnusedIsTip(s, j);
    } else {
      StepKeepsInv(s, acts[0]);
      OverStays(s, acts[0], f, j);
      OverYieldsNothing(s, acts[0], f, j);
      LapsedFamilyIsOver(Apply(s, acts[0]), acts[1..], f, j);
    }
  }
}
